/**
 * The owner filter every keyed store of the simulator applies when it lists
 * records: walk the map in insertion order and keep the records whose
 * `authKey` is the caller's.
 */
module Ownership {
  import opened OrderedMaps

  /** The infos of the records among the first `n` keys whose owner is `authKey`, in key order. */
  function OwnedInfos<V, O(==), I>(m: OrderedMap<string, V>, ownerOf: V -> O, authKey: O, info: V -> I, n: nat): seq<I>
    requires m.Valid() && n <= |m.keys|
  {
    if n == 0 then []
    else
      var v := m.entries[m.keys[n - 1]];
      OwnedInfos(m, ownerOf, authKey, info, n - 1) + (if ownerOf(v) == authKey then [info(v)] else [])
  }

  /**
   * The list holds the info of every record the caller owns and of no other
   * record: each element is the info of an owned record, and each owned
   * record's info is in it.
   */
  lemma {:induction false} OwnedInfosMembers<V, O, I>(m: OrderedMap<string, V>, ownerOf: V -> O, authKey: O, info: V -> I, n: nat)
    requires m.Valid() && n <= |m.keys|
    ensures |OwnedInfos(m, ownerOf, authKey, info, n)| <= n
    ensures forall x | x in OwnedInfos(m, ownerOf, authKey, info, n) ::
      exists i | 0 <= i < n :: ownerOf(m.entries[m.keys[i]]) == authKey && x == info(m.entries[m.keys[i]])
    ensures forall i | 0 <= i < n && ownerOf(m.entries[m.keys[i]]) == authKey ::
      info(m.entries[m.keys[i]]) in OwnedInfos(m, ownerOf, authKey, info, n)
  {
    if n > 0 {
      OwnedInfosMembers(m, ownerOf, authKey, info, n - 1);
    }
  }

  /**
   * The list loop of a store: walks the keys in order and collects the info
   * of every record the caller owns.
   */
  method CollectOwned<V, O(==), I>(m: OrderedMap<string, V>, ownerOf: V -> O, authKey: O, info: V -> I) returns (r: seq<I>)
    requires m.Valid()
    ensures r == OwnedInfos(m, ownerOf, authKey, info, |m.keys|)
  {
    r := [];
    for i := 0 to |m.keys|
      invariant r == OwnedInfos(m, ownerOf, authKey, info, i)
    {
      var v := m.entries[m.keys[i]];
      if ownerOf(v) == authKey {
        r := r + [info(v)];
      }
    }
  }
}
