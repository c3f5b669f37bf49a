/**
 * auth.js: accounts keyed by their authentication key. An unknown key is
 * provisioned on first use with usage limits taken from the session; a
 * missing, empty or `"invalid"` key is refused.
 */
module Auth {
  import opened Wrappers
  import opened OrderedMaps
  import Util
  import Quota
  import Sessions
  import opened Requests

  /** A user account: its key, its usage record (updated in place) and its last use. */
  datatype Account = Account(authKey: string, usage: Quota.Usage, used: int)

  /** The key the middleware reads: `req.query.auth_key || req.body.auth_key`, first element of a list. */
  function AuthKeyOf(query: Value, body: Value): (v: Value)
    ensures !v.Strs?
    ensures Truthy(query) && query.Str? ==> v == query
    ensures !Truthy(query) && body.Str? ==> v == body
  {
    var picked := if Truthy(query) then query else body;
    match picked
    case Strs(items) => if |items| > 0 then Str(items[0]) else Missing
    case _ => picked
  }

  /** The credentials refused outright. */
  predicate Refused(key: Value) {
    key.Missing? || key == Str("") || key == Str("invalid")
  }

  /** The default character limit of a new account. */
  const DefaultCharacterLimit: int := 20000000

  /** The default document limit of a new account. */
  const DefaultDocumentLimit: int := 10000

  /**
   * The usage classes and limits `createUser` gives a new account, read
   * from the session fields.
   */
  function InitialCounters(fields: Sessions.Fields): Quota.Counters
  {
    var c0: Quota.Counters := map[];
    var charLimit := if Sessions.InitCharLimit in fields then fields[Sessions.InitCharLimit] else 0;
    var c1 := if Sessions.InitCharLimit in fields && charLimit == 0 then c0
              else c0[Quota.Character := Quota.Counter(0, if charLimit != 0 then charLimit else DefaultCharacterLimit)];
    var docLimit := if Sessions.InitDocLimit in fields then fields[Sessions.InitDocLimit] else 0;
    var c2 := if Sessions.InitDocLimit in fields && docLimit == 0 then c1
              else c1[Quota.Document := Quota.Counter(0, if docLimit != 0 then docLimit else DefaultDocumentLimit)];
    var teamLimit := if Sessions.InitTeamDocLimit in fields then fields[Sessions.InitTeamDocLimit] else 0;
    if teamLimit > 0 then c2[Quota.TeamDocument := Quota.Counter(0, teamLimit)] else c2
  }

  /** Every class of a new account starts at count 0. */
  lemma InitialCountsZero(fields: Sessions.Fields)
    ensures forall k | k in InitialCounters(fields) :: InitialCounters(fields)[k].count == 0
  {
  }

  /**
   * The character class exists unless the session sets `init_char_limit`
   * to exactly 0; its limit is the session's value when set and non-zero,
   * 20000000 otherwise. The document class follows the same rule with 10000.
   */
  lemma InitialCharacterAndDocumentClasses(fields: Sessions.Fields)
    ensures var c := InitialCounters(fields);
      && (Quota.Character in c <==> !(Sessions.InitCharLimit in fields && fields[Sessions.InitCharLimit] == 0))
      && (Quota.Character in c && Sessions.InitCharLimit in fields ==> c[Quota.Character].limit == fields[Sessions.InitCharLimit])
      && (Sessions.InitCharLimit !in fields ==> c[Quota.Character].limit == DefaultCharacterLimit)
      && (Quota.Document in c <==> !(Sessions.InitDocLimit in fields && fields[Sessions.InitDocLimit] == 0))
      && (Quota.Document in c && Sessions.InitDocLimit in fields ==> c[Quota.Document].limit == fields[Sessions.InitDocLimit])
      && (Sessions.InitDocLimit !in fields ==> c[Quota.Document].limit == DefaultDocumentLimit)
  {
  }

  /** The team-document class exists only when `init_team_doc_limit` is positive, with that limit. */
  lemma InitialTeamDocumentClass(fields: Sessions.Fields)
    ensures var c := InitialCounters(fields);
      && (Quota.TeamDocument in c <==> Sessions.Positive(fields, Sessions.InitTeamDocLimit))
      && (Quota.TeamDocument in c ==> c[Quota.TeamDocument].limit == fields[Sessions.InitTeamDocLimit])
  {
  }

  /** A request without a stored session (no fields) gets both default classes and no team class. */
  lemma InitialCountersWithoutSession()
    ensures InitialCounters(map[]) == map[Quota.Character := Quota.Counter(0, DefaultCharacterLimit),
                                          Quota.Document := Quota.Counter(0, DefaultDocumentLimit)]
  {
  }

  /**
   * The module-level `users` map, `userExists`, `createUser` and the middleware.
   */
  class AccountRegistry {
    var users: OrderedMap<string, Account>

    ghost predicate Valid()
      reads this
    {
      users.Valid() && forall k | k in users.entries :: users.entries[k].authKey == k
    }

    constructor ()
      ensures Valid() && users == Empty()
    {
      users := Empty();
    }

    /** `userExists(auth_key)`. */
    function UserExists(key: Value): (r: bool)
      reads this
      ensures r <==> !Refused(key) && key.Str? && key.s in users.entries
    {
      key.Str? && key.s != "" && key.s != "invalid" && key.s in users.entries
    }

    /** `createUser(auth_key, session)`: builds the usage record class by class and stores the account. */
    method CreateUser(key: string, fields: Sessions.Fields, now: int) returns (account: Account)
      requires Valid()
      modifies this
      ensures Valid()
      ensures fresh(account.usage)
      ensures account.usage.counters == InitialCounters(fields)
      ensures account == Account(key, account.usage, now)
      ensures users == old(users).Put(key, account)
    {
      var counters: Quota.Counters := map[];
      if !(Sessions.InitCharLimit in fields && fields[Sessions.InitCharLimit] == 0) {
        var limit := if Sessions.InitCharLimit in fields && fields[Sessions.InitCharLimit] != 0
                     then fields[Sessions.InitCharLimit] else DefaultCharacterLimit;
        counters := counters[Quota.Character := Quota.Counter(0, limit)];
      }
      if !(Sessions.InitDocLimit in fields && fields[Sessions.InitDocLimit] == 0) {
        var limit := if Sessions.InitDocLimit in fields && fields[Sessions.InitDocLimit] != 0
                     then fields[Sessions.InitDocLimit] else DefaultDocumentLimit;
        counters := counters[Quota.Document := Quota.Counter(0, limit)];
      }
      if Sessions.Positive(fields, Sessions.InitTeamDocLimit) {
        counters := counters[Quota.TeamDocument := Quota.Counter(0, fields[Sessions.InitTeamDocLimit])];
      }
      var usage := new Quota.Usage(counters);
      account := Account(key, usage, now);
      users := users.Put(key, account);
    }

    /**
     * The middleware: refuses a missing, empty or `"invalid"` key with 403;
     * provisions an unknown key; then sets the account's `used` to `now`.
     * A known account keeps its usage record, so its counts persist.
     */
    method Authenticate(query: Value, body: Value, fields: Sessions.Fields, now: int) returns (r: Result<Account, int>)
      requires Valid()
      modifies this
      ensures Valid()
      ensures Refused(AuthKeyOf(query, body)) ==> r == Err(403) && users == old(users)
      ensures !Refused(AuthKeyOf(query, body)) ==>
        var key := AuthKeyOf(query, body).s;
        && r.Ok? && r.value.authKey == key && r.value.used == now
        && users == old(users).Put(key, r.value)
        && (key in old(users.entries) ==> r.value.usage == old(users.entries[key]).usage)
        && (key !in old(users.entries) ==> fresh(r.value.usage) && r.value.usage.counters == InitialCounters(fields))
    {
      var key := AuthKeyOf(query, body);
      if Refused(key) {
        return Err(403);
      }
      if !UserExists(key) {
        var created := CreateUser(key.s, fields, now);
      }
      var account := users.entries[key.s];
      account := account.(used := now);
      users := users.Put(key.s, account);
      return Ok(account);
    }

    /** The periodic sweep: accounts idle for more than ten minutes are dropped. */
    method Sweep(now: int)
      requires Valid()
      modifies this
      ensures Valid()
      ensures users == Util.Swept(old(users), (a: Account) => a.used, now, Util.LifetimeMs)
    {
      var evicted;
      users, evicted := Util.Cleanup(users, (a: Account) => a.used, now, Util.LifetimeMs);
    }
  }
}
