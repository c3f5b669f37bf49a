/**
 * sessions.js: the registry of test sessions. A session is created from
 * the `mock-server-session-*` control headers the first time its id is
 * seen, and counts down forced "no response" requests.
 */
module Sessions {
  import opened Wrappers
  import opened OrderedMaps
  import Util

  /** The eight session fields a control header can set. */
  datatype Param =
    | NoResponseCount
    | Respond429Count
    | DocFailure
    | InitCharLimit
    | InitDocLimit
    | InitTeamDocLimit
    | DocQueueTime
    | DocTranslateTime

  /** The fields in the declaration order of the header table. */
  const Params: seq<Param> := [NoResponseCount, Respond429Count, DocFailure, InitCharLimit,
                               InitDocLimit, InitTeamDocLimit, DocQueueTime, DocTranslateTime]

  /** The header that sets each field. */
  function HeaderName(p: Param): string {
    match p
    case NoResponseCount => "mock-server-session-no-response-count"
    case Respond429Count => "mock-server-session-429-count"
    case DocFailure => "mock-server-session-doc-failure"
    case InitCharLimit => "mock-server-session-init-character-limit"
    case InitDocLimit => "mock-server-session-init-document-limit"
    case InitTeamDocLimit => "mock-server-session-init-team-document-limit"
    case DocQueueTime => "mock-server-session-doc-queue-time"
    case DocTranslateTime => "mock-server-session-doc-translate-time"
  }

  /** The header that names the session. */
  const SessionHeader: string := "mock-server-session"

  /**
   * Request headers as the session code sees them: a header that is present
   * maps to `Some(n)` when `Number(value)` is a number `n`, and to `None`
   * when it is `NaN`.
   */
  type Headers = map<string, Option<int>>

  /** The fields of a session: the ones a header set, each with its number. */
  type Fields = map<Param, int>

  /** A stored session: its fields and the time of its last request. */
  datatype Session = Session(fields: Fields, used: int)

  /** The fields `createSession` sets from the given headers, visiting the fields `ps` in order. */
  function FieldsFrom(headers: Headers, ps: seq<Param>): Fields
  {
    if ps == [] then map[]
    else
      var p := ps[|ps| - 1];
      var earlier := FieldsFrom(headers, ps[..|ps| - 1]);
      if HeaderName(p) in headers && headers[HeaderName(p)].Some? then earlier[p := headers[HeaderName(p)].value]
      else earlier
  }

  /** A field is set exactly when it is visited and its header is present with a number; it holds that number. */
  lemma {:induction false} FieldsFromMembers(headers: Headers, ps: seq<Param>)
    ensures forall p :: p in FieldsFrom(headers, ps) <==> p in ps && HeaderName(p) in headers && headers[HeaderName(p)].Some?
    ensures forall p | p in FieldsFrom(headers, ps) :: FieldsFrom(headers, ps)[p] == headers[HeaderName(p)].value
  {
    if ps != [] {
      FieldsFromMembers(headers, ps[..|ps| - 1]);
      assert ps == ps[..|ps| - 1] + [ps[|ps| - 1]];
    }
  }

  /**
   * `createSession(headers)`: walks the header table and sets each field
   * whose header is present with a numeric value. Any other header is ignored.
   */
  method CreateSession(headers: Headers) returns (fields: Fields)
    ensures fields == FieldsFrom(headers, Params)
  {
    fields := map[];
    var i := 0;
    while i < |Params|
      invariant 0 <= i <= |Params|
      invariant fields == FieldsFrom(headers, Params[..i])
    {
      var p := Params[i];
      var header := HeaderName(p);
      assert Params[..i + 1][..i] == Params[..i];
      if header in headers {
        match headers[header]
        case Some(value) =>
          fields := fields[p := value];
        case None =>
      }
      i := i + 1;
    }
    assert Params[..|Params|] == Params;
  }

  /** Headers other than the eight control headers do not change the created session. */
  lemma OtherHeadersIgnored(headers: Headers, name: string, value: Option<int>)
    requires forall p :: HeaderName(p) != name
    ensures FieldsFrom(headers[name := value], Params) == FieldsFrom(headers, Params)
  {
    FieldsFromMembers(headers[name := value], Params);
    FieldsFromMembers(headers, Params);
  }

  /** A control header whose value is not a number leaves its field unset. */
  lemma NonNumericHeaderLeavesFieldUnset(headers: Headers, p: Param)
    requires HeaderName(p) in headers && headers[HeaderName(p)].None?
    ensures p !in FieldsFrom(headers, Params)
  {
    FieldsFromMembers(headers, Params);
  }

  /** `x > 0` for a field that may be absent: an absent field compares false. */
  predicate Positive(fields: Fields, p: Param) {
    p in fields && fields[p] > 0
  }

  /** Takes one from a positive counter field. */
  function CountDown(fields: Fields, p: Param): (r: Fields)
    requires Positive(fields, p)
    ensures r.Keys == fields.Keys
    ensures r[p] == fields[p] - 1
    ensures forall q | q in fields && q != p :: r[q] == fields[q]
  {
    fields[p := fields[p] - 1]
  }

  /** What the middleware hands on: the session fields and whether the request goes on. */
  datatype Admission = Admission(fields: Fields, forward: bool)

  /**
   * The countdown of forced non-responses: while `no_response_count` is
   * positive the request is swallowed and the count drops by one.
   */
  function Admit(fields: Fields): (r: Admission)
    ensures r.forward <==> !Positive(fields, NoResponseCount)
    ensures r.forward ==> r.fields == fields
    ensures !r.forward ==> r.fields == CountDown(fields, NoResponseCount)
  {
    if Positive(fields, NoResponseCount) then Admission(CountDown(fields, NoResponseCount), false)
    else Admission(fields, true)
  }

  /** The `forward` flags of `k` requests in a row through the countdown, starting from `fields`. */
  function Forwards(fields: Fields, k: nat): (r: seq<bool>)
    ensures |r| == k
  {
    if k == 0 then []
    else
      var a := Admit(fields);
      [a.forward] + Forwards(a.fields, k - 1)
  }

  /** Once the count is not positive, every request goes on and the fields stay as they are. */
  lemma {:induction false} ForwardsWhenSpent(fields: Fields, k: nat)
    requires !Positive(fields, NoResponseCount)
    ensures Forwards(fields, k) == seq(k, _ => true)
  {
    if k > 0 {
      ForwardsWhenSpent(fields, k - 1);
    }
  }

  /**
   * A session whose `no_response_count` is `n` swallows exactly the next `n`
   * requests and forwards every request after them.
   */
  lemma {:induction false} NoResponseCountdown(fields: Fields, n: nat, k: nat)
    requires NoResponseCount in fields && fields[NoResponseCount] == n
    ensures Forwards(fields, n + k) == seq(n, _ => false) + seq(k, _ => true)
  {
    if n == 0 {
      ForwardsWhenSpent(fields, k);
      assert seq(n, _ => false) == [];
    } else {
      var next := CountDown(fields, NoResponseCount);
      NoResponseCountdown(next, n - 1, k);
      assert seq(n, _ => false) == [false] + seq(n - 1, _ => false);
    }
  }

  /**
   * The module-level `sessions` map and the middleware over it.
   */
  class SessionRegistry {
    var sessions: OrderedMap<string, Session>

    ghost predicate Valid()
      reads this
    {
      sessions.Valid()
    }

    constructor ()
      ensures Valid() && sessions == Empty()
    {
      sessions := Empty();
    }

    /**
     * The middleware. With a session id: create the session from the headers
     * if the id is new, refresh `used`, then run the countdown and write the
     * fields back. Without one (absent or empty): a fresh empty session that
     * is not stored.
     */
    method Handle(id: Option<string>, headers: Headers, now: int) returns (admission: Admission)
      requires Valid()
      modifies this
      ensures Valid()
      ensures id.None? || id.value == "" ==>
        sessions == old(sessions) && admission == Admission(map[], true)
      ensures id.Some? && id.value != "" ==>
        var before := if id.value in old(sessions.entries) then old(sessions.entries[id.value].fields)
                      else FieldsFrom(headers, Params);
        && admission == Admit(before)
        && sessions == old(sessions).Put(id.value, Session(admission.fields, now))
    {
      if id.None? || id.value == "" {
        return Admission(map[], true);
      }
      var key := id.value;
      var fields: Fields;
      if key in sessions.entries {
        fields := sessions.entries[key].fields;
      } else {
        fields := CreateSession(headers);
      }
      admission := Admit(fields);
      sessions := sessions.Put(key, Session(admission.fields, now));
    }

    /** Writes a request's changed fields back to its stored session, if it has one. */
    method Update(id: Option<string>, fields: Fields)
      requires Valid()
      modifies this
      ensures Valid()
      ensures id.Some? && id.value in old(sessions.entries) ==>
        sessions == old(sessions).Put(id.value, old(sessions.entries[id.value]).(fields := fields))
      ensures id.None? || id.value !in old(sessions.entries) ==> sessions == old(sessions)
    {
      if id.Some? && id.value in sessions.entries {
        sessions := sessions.Put(id.value, sessions.entries[id.value].(fields := fields));
      }
    }

    /** The periodic sweep: sessions idle for more than ten minutes are dropped. */
    method Sweep(now: int)
      requires Valid()
      modifies this
      ensures Valid()
      ensures sessions == Util.Swept(old(sessions), (s: Session) => s.used, now, Util.LifetimeMs)
    {
      var evicted;
      sessions, evicted := Util.Cleanup(sessions, (s: Session) => s.used, now, Util.LifetimeMs);
    }
  }
}
