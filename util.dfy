/**
 * util.js: the idle-expiry sweep every store runs, and the error value the
 * stores throw.
 */
module Util {
  import opened Wrappers
  import opened OrderedMaps

  /** The idle lifetime `scheduleCleanup` gives every store: 10 minutes. */
  const LifetimeMs: int := 600000

  /** The sweep's test: an entry expires once it has been idle strictly longer than the lifetime. */
  predicate Expired(used: int, now: int, lifetimeMs: int) {
    now - used > lifetimeMs
  }

  /** One finaliser call of a sweep: the evicted value and its key, in the callback's argument order. */
  datatype Eviction<K, V> = Eviction(value: V, key: K)

  /** The keys of `ks` whose entries survive a sweep at `now`, in iteration order. */
  function KeptKeys<K(!new), V>(ks: seq<K>, entries: map<K, V>, usedOf: V -> int, now: int, lifetimeMs: int): seq<K>
    requires forall k | k in ks :: k in entries
  {
    if ks == [] then []
    else
      var last := ks[|ks| - 1];
      assert last in ks;
      KeptKeys(ks[..|ks| - 1], entries, usedOf, now, lifetimeMs)
        + (if Expired(usedOf(entries[last]), now, lifetimeMs) then [] else [last])
  }

  /** A key survives exactly when it is listed and has not expired. */
  lemma {:induction false} KeptKeysMembers<K(!new), V>(ks: seq<K>, entries: map<K, V>, usedOf: V -> int, now: int, lifetimeMs: int)
    requires forall k | k in ks :: k in entries
    ensures forall x :: x in KeptKeys(ks, entries, usedOf, now, lifetimeMs) <==> x in ks && !Expired(usedOf(entries[x]), now, lifetimeMs)
  {
    if ks != [] {
      var init := ks[..|ks| - 1];
      KeptKeysMembers(init, entries, usedOf, now, lifetimeMs);
      assert ks == init + [ks[|ks| - 1]];
    }
  }

  /** The surviving keys are listed once each when the original keys are. */
  lemma {:induction false} KeptKeysDistinct<K(!new), V>(ks: seq<K>, entries: map<K, V>, usedOf: V -> int, now: int, lifetimeMs: int)
    requires forall k | k in ks :: k in entries
    requires Distinct(ks)
    ensures Distinct(KeptKeys(ks, entries, usedOf, now, lifetimeMs))
  {
    if ks != [] {
      var last := ks[|ks| - 1];
      var init := ks[..|ks| - 1];
      KeptKeysDistinct(init, entries, usedOf, now, lifetimeMs);
      KeptKeysMembers(init, entries, usedOf, now, lifetimeMs);
      forall m | 0 <= m < |init| ensures init[m] != last {
        assert init[m] == ks[m];
      }
      DistinctAppend(KeptKeys(init, entries, usedOf, now, lifetimeMs), last);
    }
  }

  lemma DistinctAppend<K>(a: seq<K>, x: K)
    requires Distinct(a) && x !in a
    ensures Distinct(a + [x])
  {
  }

  /** The finaliser calls of a sweep that has visited the first `n` keys of `ks`, in call order. */
  function Evictions<K(!new), V>(ks: seq<K>, entries: map<K, V>, usedOf: V -> int, now: int, lifetimeMs: int, n: nat): seq<Eviction<K, V>>
    requires n <= |ks| && forall k | k in ks :: k in entries
  {
    if n == 0 then []
    else
      var last := ks[n - 1];
      Evictions(ks, entries, usedOf, now, lifetimeMs, n - 1)
        + (if Expired(usedOf(entries[last]), now, lifetimeMs) then [Eviction(entries[last], last)] else [])
  }

  /** The finaliser sees exactly the expired entries among the visited keys, each with its own key. */
  lemma {:induction false} EvictionsMembers<K(!new), V>(ks: seq<K>, entries: map<K, V>, usedOf: V -> int, now: int, lifetimeMs: int, n: nat)
    requires n <= |ks| && forall k | k in ks :: k in entries
    ensures forall e | e in Evictions(ks, entries, usedOf, now, lifetimeMs, n) ::
              e.key in ks[..n] && e.value == entries[e.key] && Expired(usedOf(e.value), now, lifetimeMs)
    ensures forall k | k in ks[..n] && Expired(usedOf(entries[k]), now, lifetimeMs) ::
              Eviction(entries[k], k) in Evictions(ks, entries, usedOf, now, lifetimeMs, n)
  {
    if n > 0 {
      EvictionsMembers(ks, entries, usedOf, now, lifetimeMs, n - 1);
      assert ks[..n] == ks[..n - 1] + [ks[n - 1]];
    }
  }

  /** The store after a sweep: the unexpired entries, unchanged and in their order. */
  function Swept<K(==, !new), V>(m: OrderedMap<K, V>, usedOf: V -> int, now: int, lifetimeMs: int): (r: OrderedMap<K, V>)
    requires m.Valid()
    ensures r.Valid()
    ensures forall k | k in r.entries :: !Expired(usedOf(r.entries[k]), now, lifetimeMs)
    ensures forall k | k in m.entries && !Expired(usedOf(m.entries[k]), now, lifetimeMs) ::
              k in r.entries && r.entries[k] == m.entries[k]
    ensures r.entries.Keys <= m.entries.Keys
  {
    KeptKeysMembers(m.keys, m.entries, usedOf, now, lifetimeMs);
    KeptKeysDistinct(m.keys, m.entries, usedOf, now, lifetimeMs);
    OrderedMap(KeptKeys(m.keys, m.entries, usedOf, now, lifetimeMs),
               map k | k in m.entries && !Expired(usedOf(m.entries[k]), now, lifetimeMs) :: m.entries[k])
  }

  /** The store part-way through a sweep: the first `i` keys have been visited. */
  ghost function Partial<K(!new), V>(m: OrderedMap<K, V>, usedOf: V -> int, now: int, lifetimeMs: int, i: nat): OrderedMap<K, V>
    requires m.Valid() && i <= |m.keys|
  {
    OrderedMap(KeptKeys(m.keys[..i], m.entries, usedOf, now, lifetimeMs) + m.keys[i..],
               m.entries - ExpiredKeys(m.keys[..i], m.entries, usedOf, now, lifetimeMs))
  }

  /** The keys of `ks` whose entries have expired at `now`. */
  ghost function ExpiredKeys<K(!new), V>(ks: seq<K>, entries: map<K, V>, usedOf: V -> int, now: int, lifetimeMs: int): set<K>
    requires forall k | k in ks :: k in entries
  {
    set k | k in ks && Expired(usedOf(entries[k]), now, lifetimeMs)
  }

  /**
   * `cleanup(dictionary, lifetimeMs, callback)` with the clock read passed in as `now`:
   * walks the store in iteration order, hands every expired entry to the finaliser
   * (recorded in `evicted`, in call order) and deletes it.
   */
  method Cleanup<K(==, !new), V>(m: OrderedMap<K, V>, usedOf: V -> int, now: int, lifetimeMs: int)
    returns (kept: OrderedMap<K, V>, evicted: seq<Eviction<K, V>>)
    requires m.Valid()
    ensures kept == Swept(m, usedOf, now, lifetimeMs)
    ensures evicted == Evictions(m.keys, m.entries, usedOf, now, lifetimeMs, |m.keys|)
  {
    kept := m;
    evicted := [];
    var i := 0;
    while i < |m.keys|
      invariant 0 <= i <= |m.keys|
      invariant kept == Visited(m, usedOf, now, lifetimeMs, i)
      invariant evicted == Evictions(m.keys, m.entries, usedOf, now, lifetimeMs, i)
    {
      var id := m.keys[i];
      var entry := m.entries[id];
      if Expired(usedOf(entry), now, lifetimeMs) {
        evicted := evicted + [Eviction(entry, id)];
        kept := kept.Delete(id);
      }
      i := i + 1;
    }
    VisitedIsPartial(m, usedOf, now, lifetimeMs, |m.keys|);
    PartialEnd(m, usedOf, now, lifetimeMs);
  }

  /** The store after the loop of `cleanup` has visited the first `n` keys, one deletion at a time. */
  ghost function Visited<K(!new), V>(m: OrderedMap<K, V>, usedOf: V -> int, now: int, lifetimeMs: int, n: nat): (r: OrderedMap<K, V>)
    requires m.Valid() && n <= |m.keys|
    ensures r.Valid()
  {
    if n == 0 then m
    else
      var p := Visited(m, usedOf, now, lifetimeMs, n - 1);
      var id := m.keys[n - 1];
      if Expired(usedOf(m.entries[id]), now, lifetimeMs) then p.Delete(id) else p
  }

  /** Deleting one key at a time yields the declarative description of the half-swept store. */
  lemma {:induction false} VisitedIsPartial<K(!new), V>(m: OrderedMap<K, V>, usedOf: V -> int, now: int, lifetimeMs: int, n: nat)
    requires m.Valid() && n <= |m.keys|
    ensures Visited(m, usedOf, now, lifetimeMs, n) == Partial(m, usedOf, now, lifetimeMs, n)
  {
    if n == 0 {
      PartialStart(m, usedOf, now, lifetimeMs);
    } else {
      VisitedIsPartial(m, usedOf, now, lifetimeMs, n - 1);
      PartialStep(m, usedOf, now, lifetimeMs, n - 1);
    }
  }

  lemma PartialStart<K(!new), V>(m: OrderedMap<K, V>, usedOf: V -> int, now: int, lifetimeMs: int)
    requires m.Valid()
    ensures Partial(m, usedOf, now, lifetimeMs, 0) == m
  {
    assert m.keys[..0] == [] && m.keys[0..] == m.keys;
    assert ExpiredKeys(m.keys[..0], m.entries, usedOf, now, lifetimeMs) == {};
    assert m.entries - {} == m.entries;
  }

  lemma PartialEnd<K(!new), V>(m: OrderedMap<K, V>, usedOf: V -> int, now: int, lifetimeMs: int)
    requires m.Valid()
    ensures Partial(m, usedOf, now, lifetimeMs, |m.keys|) == Swept(m, usedOf, now, lifetimeMs)
  {
    assert m.keys[..|m.keys|] == m.keys && m.keys[|m.keys|..] == [];
    assert Partial(m, usedOf, now, lifetimeMs, |m.keys|).entries == Swept(m, usedOf, now, lifetimeMs).entries;
  }

  /** Visiting key `i` deletes it exactly when it has expired. */
  lemma PartialStep<K(!new), V>(m: OrderedMap<K, V>, usedOf: V -> int, now: int, lifetimeMs: int, i: nat)
    requires m.Valid() && i < |m.keys|
    requires Partial(m, usedOf, now, lifetimeMs, i).Valid()
    ensures var p, id := Partial(m, usedOf, now, lifetimeMs, i), m.keys[i];
      Partial(m, usedOf, now, lifetimeMs, i + 1)
        == if Expired(usedOf(m.entries[id]), now, lifetimeMs) then p.Delete(id) else p
  {
    PartialKeysStep(m, usedOf, now, lifetimeMs, i);
    PartialEntriesStep(m, usedOf, now, lifetimeMs, i);
  }

  lemma PartialKeysStep<K(!new), V>(m: OrderedMap<K, V>, usedOf: V -> int, now: int, lifetimeMs: int, i: nat)
    requires m.Valid() && i < |m.keys|
    ensures var p, id := Partial(m, usedOf, now, lifetimeMs, i), m.keys[i];
      Partial(m, usedOf, now, lifetimeMs, i + 1).keys
        == if Expired(usedOf(m.entries[id]), now, lifetimeMs) then Without(p.keys, id) else p.keys
  {
    var ks := m.keys;
    var kk := KeptKeys(ks[..i], m.entries, usedOf, now, lifetimeMs);
    assert Partial(m, usedOf, now, lifetimeMs, i).keys == kk + ks[i..];
    assert Partial(m, usedOf, now, lifetimeMs, i + 1).keys == KeptKeys(ks[..i + 1], m.entries, usedOf, now, lifetimeMs) + ks[i + 1..];
    KeptKeysPrefixStep(ks, m.entries, usedOf, now, lifetimeMs, i);
    VisitedKeyNotKept(m, usedOf, now, lifetimeMs, i);
    DistinctSplit(ks, i);
    VisitStep(ks, i, kk, Expired(usedOf(m.entries[ks[i]]), now, lifetimeMs));
  }

  /** The key about to be visited is not among the keys kept so far. */
  lemma VisitedKeyNotKept<K(!new), V>(m: OrderedMap<K, V>, usedOf: V -> int, now: int, lifetimeMs: int, i: nat)
    requires m.Valid() && i < |m.keys|
    ensures m.keys[i] !in KeptKeys(m.keys[..i], m.entries, usedOf, now, lifetimeMs)
  {
    DistinctSplit(m.keys, i);
    KeptKeysMembers(m.keys[..i], m.entries, usedOf, now, lifetimeMs);
  }

  /** One visit, on key sequences alone: an expired key leaves the sequence, a fresh one stays in place. */
  lemma VisitStep<K(!new)>(ks: seq<K>, i: nat, kk: seq<K>, expired: bool)
    requires i < |ks| && ks[i] !in kk && ks[i] !in ks[i + 1..]
    ensures (kk + (if expired then [] else [ks[i]])) + ks[i + 1..]
      == if expired then Without(kk + ks[i..], ks[i]) else kk + ks[i..]
  {
    var id, tail := ks[i], ks[i + 1..];
    assert ks[i..] == [id] + tail;
    if expired {
      assert kk + ks[i..] == kk + [id] + tail;
      WithoutMiddle(kk, id, tail);
    } else {
      assert kk + [id] + tail == kk + ks[i..];
    }
  }

  /** Visiting one more key appends it to the kept keys exactly when it has not expired. */
  lemma KeptKeysPrefixStep<K(!new), V>(ks: seq<K>, entries: map<K, V>, usedOf: V -> int, now: int, lifetimeMs: int, i: nat)
    requires i < |ks| && forall k | k in ks :: k in entries
    ensures KeptKeys(ks[..i + 1], entries, usedOf, now, lifetimeMs)
      == KeptKeys(ks[..i], entries, usedOf, now, lifetimeMs) + (if Expired(usedOf(entries[ks[i]]), now, lifetimeMs) then [] else [ks[i]])
  {
    assert ks[..i + 1][..i] == ks[..i];
  }

  lemma PartialEntriesStep<K(!new), V>(m: OrderedMap<K, V>, usedOf: V -> int, now: int, lifetimeMs: int, i: nat)
    requires m.Valid() && i < |m.keys|
    ensures var p, id := Partial(m, usedOf, now, lifetimeMs, i), m.keys[i];
      Partial(m, usedOf, now, lifetimeMs, i + 1).entries
        == if Expired(usedOf(m.entries[id]), now, lifetimeMs) then p.entries - {id} else p.entries
  {
    var id := m.keys[i];
    var ks := m.keys;
    assert ks[..i + 1] == ks[..i] + [id];
    DistinctSplit(ks, i);
    var e0 := ExpiredKeys(ks[..i], m.entries, usedOf, now, lifetimeMs);
    var e1 := ExpiredKeys(ks[..i + 1], m.entries, usedOf, now, lifetimeMs);
    assert e1 == if Expired(usedOf(m.entries[id]), now, lifetimeMs) then e0 + {id} else e0;
  }

  lemma DistinctSplit<K>(ks: seq<K>, i: int)
    requires 0 <= i < |ks|
    requires Distinct(ks)
    ensures ks[i] !in ks[..i] && ks[i] !in ks[i + 1..]
  {
    forall m | 0 <= m < i ensures ks[..i][m] != ks[i] {
      assert ks[..i][m] == ks[m];
    }
    forall m | i + 1 <= m < |ks| ensures ks[m] != ks[i] {
    }
  }

  lemma {:induction false} WithoutMiddle<K(!new)>(a: seq<K>, k: K, b: seq<K>)
    requires k !in a && k !in b
    ensures Without(a + [k] + b, k) == a + b
  {
    if a == [] {
      assert ([k] + b)[1..] == b;
      WithoutAbsent(b, k);
    } else {
      assert (a + [k] + b)[0] == a[0];
      assert (a + [k] + b)[1..] == a[1..] + [k] + b;
      WithoutMiddle(a[1..], k, b);
      assert a == [a[0]] + a[1..];
    }
  }

  lemma {:induction false} WithoutAbsent<K(!new)>(b: seq<K>, k: K)
    requires k !in b
    ensures Without(b, k) == b
  {
    if b != [] {
      WithoutAbsent(b[1..], k);
      assert b == [b[0]] + b[1..];
    }
  }

  /** An entry idle for exactly the lifetime is kept: the test is a strict `>`. */
  lemma BoundaryEntryKept<K(!new), V>(m: OrderedMap<K, V>, usedOf: V -> int, now: int, lifetimeMs: int, k: K)
    requires m.Valid() && k in m.entries
    requires now - usedOf(m.entries[k]) == lifetimeMs
    ensures k in Swept(m, usedOf, now, lifetimeMs).entries
  {
  }

  /** Sweeping twice at the same `now` gives the store a single sweep gives. */
  lemma SweepIdempotent<K(!new), V>(m: OrderedMap<K, V>, usedOf: V -> int, now: int, lifetimeMs: int)
    requires m.Valid()
    ensures Swept(Swept(m, usedOf, now, lifetimeMs), usedOf, now, lifetimeMs) == Swept(m, usedOf, now, lifetimeMs)
  {
    var s := Swept(m, usedOf, now, lifetimeMs);
    var t := Swept(s, usedOf, now, lifetimeMs);
    assert t.keys == s.keys by {
      assert forall k | k in s.keys :: k in s.entries && !Expired(usedOf(s.entries[k]), now, lifetimeMs);
      KeptKeysOfFresh(s.keys, s.entries, usedOf, now, lifetimeMs);
    }
    assert t.entries == s.entries;
  }

  lemma {:induction false} KeptKeysOfFresh<K(!new), V>(ks: seq<K>, entries: map<K, V>, usedOf: V -> int, now: int, lifetimeMs: int)
    requires forall k | k in ks :: k in entries && !Expired(usedOf(entries[k]), now, lifetimeMs)
    ensures KeptKeys(ks, entries, usedOf, now, lifetimeMs) == ks
  {
    if ks != [] {
      KeptKeysOfFresh(ks[..|ks| - 1], entries, usedOf, now, lifetimeMs);
      assert ks == ks[..|ks| - 1] + [ks[|ks| - 1]];
    }
  }

  /** No key is handed to the finaliser twice. */
  ghost predicate EvictedOnce<K, V>(r: seq<Eviction<K, V>>) {
    forall i, j | 0 <= i < j < |r| :: r[i].key != r[j].key
  }

  lemma {:induction false} EvictionsOncePerKey<K(!new), V>(ks: seq<K>, entries: map<K, V>, usedOf: V -> int, now: int, lifetimeMs: int, n: nat)
    requires n <= |ks| && forall k | k in ks :: k in entries
    requires Distinct(ks)
    ensures EvictedOnce(Evictions(ks, entries, usedOf, now, lifetimeMs, n))
  {
    if n > 0 {
      var last := ks[n - 1];
      EvictionsOncePerKey(ks, entries, usedOf, now, lifetimeMs, n - 1);
      DistinctSplit(ks, n - 1);
      var r0 := Evictions(ks, entries, usedOf, now, lifetimeMs, n - 1);
      EvictionsMembers(ks, entries, usedOf, now, lifetimeMs, n - 1);
      var r := Evictions(ks, entries, usedOf, now, lifetimeMs, n);
      var added := if Expired(usedOf(entries[last]), now, lifetimeMs) then [Eviction(entries[last], last)] else [];
      assert r == r0 + added;
      assert EvictedOnce(r0);
      forall i, j | 0 <= i < j < |r| ensures r[i].key != r[j].key {
        if j >= |r0| {
          assert r[i] == r0[i] && r[j] == added[0];
          assert r0[i] in r0;
          assert r0[i].key in ks[..n - 1];
        } else {
          assert r[i] == r0[i] && r[j] == r0[j];
          assert r0[i].key != r0[j].key;
        }
      }
    }
  }

  /**
   * `HttpError`: a message, an optional status (`status_internal`) and an
   * optional detail. An empty message stands for an absent one.
   */
  datatype HttpError = HttpError(message: string, statusInternal: Option<int>, detail: Option<string>) {

    /** `status()`: the stored status, or 400 when none is set (or it is the falsy 0). */
    function Status(): (r: int)
      ensures r != 0
      ensures statusInternal.Some? && statusInternal.value != 0 ==> r == statusInternal.value
      ensures statusInternal.None? ==> r == 400
    {
      match statusInternal
      case Some(s) => if s != 0 then s else 400
      case None => 400
    }

    /** `body()`: `message` and `detail` appear exactly when they are non-empty. */
    function Body(): (r: map<string, string>)
      ensures "message" in r <==> message != ""
      ensures "message" in r ==> r["message"] == message
      ensures "detail" in r <==> detail.Some? && detail.value != ""
      ensures "detail" in r ==> r["detail"] == detail.value
      ensures r.Keys <= {"message", "detail"}
    {
      var withMessage: map<string, string> := if message != "" then map["message" := message] else map[];
      if detail.Some? && detail.value != "" then withMessage["detail" := detail.value] else withMessage
    }
  }

  /** An error with the given status, message and no detail. */
  function Error(status: int, message: string): (e: HttpError)
    requires status != 0
    ensures e.Status() == status && e.message == message && e.detail.None?
  {
    HttpError(message, Some(status), None)
  }
}
