/**
 * index.js `checkLimit`: the check-and-increment on an account's usage
 * record. A usage record holds, per usage class, a `<type>_count` and a
 * `<type>_limit`; a class the record does not have is unlimited.
 */
module Quota {

  /** The usage classes an account may carry: `character`, `document` and `team_document`. */
  datatype UsageClass = Character | Document | TeamDocument

  /** `<type>_count` and `<type>_limit` of one usage class. */
  datatype Counter = Counter(count: int, limit: int)

  /** A usage record: the classes it has, each with its counter. */
  type Counters = map<UsageClass, Counter>

  /** Every class of the record is within its limit. */
  predicate WithinLimits(c: Counters) {
    forall k | k in c :: c[k].count <= c[k].limit
  }

  /** The outcome of one `checkLimit` call on a record: whether it passed, and the record after it. */
  datatype Charged = Charged(ok: bool, counters: Counters)

  /**
   * `checkLimit(usage, type, request)` as a value. A class the record lacks
   * always passes without change; otherwise the request passes exactly when
   * it fits, and then only that class's count grows, by exactly `request`.
   */
  function Charge(c: Counters, kind: UsageClass, request: int): (r: Charged)
    ensures kind !in c ==> r.ok && r.counters == c
    ensures kind in c ==> (r.ok <==> c[kind].count + request <= c[kind].limit)
    ensures !r.ok ==> r.counters == c
    ensures r.counters.Keys == c.Keys
    ensures forall k | k in c && k != kind :: r.counters[k] == c[k]
    ensures kind in c ==> r.counters[kind].limit == c[kind].limit
    ensures kind in c && r.ok ==> r.counters[kind].count == c[kind].count + request
    ensures WithinLimits(c) ==> WithinLimits(r.counters)
  {
    if kind !in c then Charged(true, c)
    else if c[kind].count + request > c[kind].limit then Charged(false, c)
    else Charged(true, c[kind := Counter(c[kind].count + request, c[kind].limit)])
  }

  /**
   * The document upload's quota chain: `character` by the file size, then
   * one `document`, then one `team_document`, stopping at the first class
   * that refuses. Increments already made are not undone.
   */
  function DocumentCharge(c: Counters, size: int): (r: Charged)
    ensures r.counters.Keys == c.Keys
    ensures WithinLimits(c) ==> WithinLimits(r.counters)
  {
    var first := Charge(c, Character, size);
    if !first.ok then first
    else
      var second := Charge(first.counters, Document, 1);
      if !second.ok then second
      else Charge(second.counters, TeamDocument, 1)
  }

  /** The chain passes exactly when each class, charged in turn, passes. */
  lemma DocumentChargePasses(c: Counters, size: int)
    ensures var c1 := Charge(c, Character, size).counters;
            var c2 := Charge(c1, Document, 1).counters;
      (DocumentCharge(c, size).ok
       <==> Charge(c, Character, size).ok && Charge(c1, Document, 1).ok && Charge(c2, TeamDocument, 1).ok)
  {
  }

  /**
   * A refused `document` charge keeps the `character` charge already made:
   * the character count has grown by the file size, the document count has not.
   */
  lemma DocumentRefusalKeepsCharacterCharge(c: Counters, size: int)
    requires Character in c && Document in c
    requires c[Character].count + size <= c[Character].limit
    requires c[Document].count + 1 > c[Document].limit
    ensures !DocumentCharge(c, size).ok
    ensures DocumentCharge(c, size).counters[Character].count == c[Character].count + size
    ensures DocumentCharge(c, size).counters[Document] == c[Document]
  {
  }

  /**
   * An account's usage record, updated in place by `checkLimit`.
   */
  class Usage {
    var counters: Counters

    constructor (initial: Counters)
      ensures counters == initial
    {
      counters := initial;
    }

    /** `checkLimit(usage, type, request)`. */
    method CheckLimit(kind: UsageClass, request: int) returns (ok: bool)
      modifies this
      ensures Charged(ok, counters) == Charge(old(counters), kind, request)
    {
      if kind !in counters {
        return true;
      }
      if counters[kind].count + request > counters[kind].limit {
        return false;
      }
      counters := counters[kind := Counter(counters[kind].count + request, counters[kind].limit)];
      return true;
    }

    /** The `||` chain of three `checkLimit` calls in the document upload handler. */
    method CheckDocumentLimits(size: int) returns (ok: bool)
      modifies this
      ensures Charged(ok, counters) == DocumentCharge(old(counters), size)
    {
      ok := CheckLimit(Character, size);
      if ok {
        ok := CheckLimit(Document, 1);
        if ok {
          ok := CheckLimit(TeamDocument, 1);
        }
      }
    }
  }
}
