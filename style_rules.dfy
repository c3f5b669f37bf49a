/**
 * styleRules.js: the style rule store. Every account sees its own rules
 * and a built-in default rule that is never stored; lists are paginated
 * with JavaScript's `Array.prototype.slice`.
 */
module StyleRules {
  import opened Wrappers
  import opened OrderedMaps
  import opened JsStrings
  import Util
  import Ownership

  /** `DEFAULT_STYLE_RULE_ID`. */
  const DefaultStyleId: string := "dca2e053-8ae5-45e6-a0d2-881156e7f4e4"

  /** The rule categories of a style rule, each a map from setting to value. */
  type RuleSettings = map<string, map<string, string>>

  /**
   * A style rule. Times are in milliseconds since the epoch; `authKey` is
   * `None` for the default rule, which belongs to nobody.
   */
  datatype StyleRule = StyleRule(
    styleId: string,
    name: string,
    language: string,
    creationTime: int,
    updatedTime: int,
    version: int,
    used: int,
    authKey: Option<string>,
    configuredRules: Option<RuleSettings>,
    customInstructions: Option<seq<string>>)

  /** `configured_rules` as reported: the rule's settings, or `[]` when it has none. */
  datatype RulesValue = Rules(settings: RuleSettings) | EmptyList

  /** The two fields a detailed info adds. */
  datatype Detail = Detail(configuredRules: RulesValue, customInstructions: seq<string>)

  /** `extractStyleRuleInfo(styleRule, detailed)`: six fields, and `detail` when asked for. */
  datatype StyleRuleInfo = StyleRuleInfo(
    styleId: string,
    name: string,
    language: string,
    creationTime: int,
    updatedTime: int,
    version: int,
    detail: Option<Detail>)

  /** `getDefaultStyleRule()`, created at `now`. */
  function DefaultStyleRule(now: int): StyleRule {
    StyleRule(DefaultStyleId, "Default Style Rule", "en", 0, 0, 1, now, None,
              Some(map["dates_and_times" := map["calendar_era" := "use_bce_and_ce"]]), Some([]))
  }

  /** The default rule belongs to nobody, is at version 1, and dates from the epoch. */
  lemma DefaultStyleRuleFacts(now: int)
    ensures var d := DefaultStyleRule(now);
      && d.styleId == DefaultStyleId && d.authKey.None? && d.version == 1
      && d.creationTime == 0 && d.updatedTime == 0 && d.used == now
      && ExtractStyleRuleInfo(d, true).detail == Some(Detail(Rules(d.configuredRules.value), []))
  {
  }

  function ExtractStyleRuleInfo(rule: StyleRule, detailed: bool): (r: StyleRuleInfo)
    ensures r.detail.Some? <==> detailed
    ensures r.language == Lower(rule.language)
    ensures r.styleId == rule.styleId && r.name == rule.name && r.version == rule.version
    ensures r.creationTime == rule.creationTime && r.updatedTime == rule.updatedTime
    ensures detailed ==> (r.detail.value.configuredRules == EmptyList <==> rule.configuredRules.None?)
    ensures detailed && rule.configuredRules.Some? ==> r.detail.value.configuredRules == Rules(rule.configuredRules.value)
    ensures detailed ==> r.detail.value.customInstructions == rule.customInstructions.GetOr([])
  {
    var detail :=
      if detailed then
        Some(Detail(if rule.configuredRules.Some? then Rules(rule.configuredRules.value) else EmptyList,
                    if rule.customInstructions.Some? then rule.customInstructions.value else []))
      else None;
    StyleRuleInfo(rule.styleId, rule.name, Lower(rule.language), rule.creationTime, rule.updatedTime, rule.version, detail)
  }

  /** An index argument of `slice`, resolved against a length `n`: negative counts from the end; both are clamped. */
  function SliceIndex(x: int, n: nat): (r: nat)
    ensures r <= n
    ensures x >= 0 ==> r == if x < n then x else n
    ensures x < 0 ==> r == if n + x > 0 then n + x else 0
  {
    if x < 0 then (if n + x > 0 then n + x else 0)
    else if x < n then x else n
  }

  /** `s.slice(start, end)`. */
  function Slice<T>(s: seq<T>, start: int, end: int): (r: seq<T>)
    ensures |r| <= |s|
    ensures forall x | x in r :: x in s
  {
    var from := SliceIndex(start, |s|);
    var to := SliceIndex(end, |s|);
    if to <= from then [] else s[from..to]
  }

  /** A page of `pageSize` elements starting at `page * pageSize`. */
  function Page<T>(s: seq<T>, page: int, pageSize: int): seq<T> {
    Slice(s, page * pageSize, page * pageSize + pageSize)
  }

  lemma {:induction false} ProductNonNegative(a: nat, b: nat)
    ensures a * b >= 0
  {
    if a > 0 {
      ProductNonNegative(a - 1, b);
      assert a * b == (a - 1) * b + b;
    }
  }

  /** With a non-negative page size and a whole page number, a page holds at most `pageSize` elements. */
  lemma PageBounded<T>(s: seq<T>, page: int, pageSize: int)
    requires pageSize >= 0
    ensures |Page(s, page, pageSize)| <= pageSize
  {
    var start := page * pageSize;
    var end := start + pageSize;
    if page < 0 {
      var q: nat := -(page + 1);
      ProductNonNegative(q, pageSize);
      assert end == -(q * pageSize);
    } else {
      assert start >= 0;
    }
  }

  /** Pages in order: page `p` of size `k` holds the elements from `p * k` on, for a page inside the list. */
  lemma PageContents<T>(s: seq<T>, page: nat, pageSize: nat)
    requires (page + 1) * pageSize <= |s|
    ensures Page(s, page, pageSize) == s[page * pageSize..page * pageSize + pageSize]
  {
    assert page * pageSize + pageSize == (page + 1) * pageSize;
  }

  /** A negative page size is not refused: `slice(0, -1)` drops only the last element. */
  lemma NegativePageSize()
    ensures Page([1, 2, 3], 0, -1) == [1, 2]
  {
    assert SliceIndex(-1, 3) == 2;
  }

  const NotFound: Util.HttpError := Util.Error(404, "not found")

  /** The module-level `styleRules` map and the operations over it. */
  class StyleRuleStore {
    var rules: OrderedMap<string, StyleRule>

    /** Nothing ever stores the default rule. */
    ghost predicate Valid()
      reads this
    {
      && rules.Valid()
      && DefaultStyleId !in rules.entries
      && forall k | k in rules.entries :: rules.entries[k].styleId == k
    }

    constructor ()
      ensures Valid() && rules == Empty()
    {
      rules := Empty();
    }

    ghost predicate Owns(styleId: string, authKey: string)
      reads this
    {
      styleId in rules.entries && rules.entries[styleId].authKey == Some(authKey)
    }

    /**
     * `getStyleRule(styleId, authKey)`: the default rule for anybody; a
     * stored rule, with `used` refreshed, for its owner; 404 otherwise.
     */
    method GetStyleRule(styleId: string, authKey: string, now: int) returns (r: Result<StyleRule, Util.HttpError>)
      requires Valid()
      modifies this
      ensures Valid()
      ensures styleId == DefaultStyleId ==> r == Ok(DefaultStyleRule(now)) && rules == old(rules)
      ensures old(Owns(styleId, authKey)) ==>
        r == Ok(old(rules.entries[styleId]).(used := now)) && rules == old(rules).Put(styleId, r.value)
      ensures styleId != DefaultStyleId && !old(Owns(styleId, authKey)) ==> r == Err(NotFound) && rules == old(rules)
    {
      if styleId == DefaultStyleId {
        return Ok(DefaultStyleRule(now));
      }
      var found := rules.Get(styleId);
      if found.Some? && found.value.authKey == Some(authKey) {
        var rule := found.value.(used := now);
        rules := rules.Put(styleId, rule);
        return Ok(rule);
      }
      return Err(NotFound);
    }

    /** `getStyleRuleInfo(styleId, authKey, detailed)`. */
    method GetStyleRuleInfo(styleId: string, authKey: string, detailed: bool, now: int)
      returns (r: Result<StyleRuleInfo, Util.HttpError>)
      requires Valid()
      modifies this
      ensures Valid()
      ensures styleId == DefaultStyleId ==> r == Ok(ExtractStyleRuleInfo(DefaultStyleRule(now), detailed)) && rules == old(rules)
      ensures old(Owns(styleId, authKey)) ==>
        r == Ok(ExtractStyleRuleInfo(old(rules.entries[styleId]), detailed))
        && rules == old(rules).Put(styleId, old(rules.entries[styleId]).(used := now))
      ensures styleId != DefaultStyleId && !old(Owns(styleId, authKey)) ==> r == Err(NotFound) && rules == old(rules)
    {
      var rule := GetStyleRule(styleId, authKey, now);
      if rule.Err? {
        return Err(rule.error);
      }
      return Ok(ExtractStyleRuleInfo(rule.value, detailed));
    }

    /** `x` is the info of a rule that `authKey` owns. */
    ghost predicate OwnedInfo(authKey: string, detailed: bool, x: StyleRuleInfo)
      reads this
    {
      exists k | k in rules.entries :: rules.entries[k].authKey == Some(authKey) && x == ExtractStyleRuleInfo(rules.entries[k], detailed)
    }

    /** The list before pagination: the caller's rules in insertion order, then the default rule. */
    ghost function Listed(authKey: string, detailed: bool, now: int): seq<StyleRuleInfo>
      reads this
      requires rules.Valid()
    {
      Ownership.OwnedInfos(rules, (rule: StyleRule) => rule.authKey, Some(authKey),
                           (rule: StyleRule) => ExtractStyleRuleInfo(rule, detailed), |rules.keys|)
        + [ExtractStyleRuleInfo(DefaultStyleRule(now), detailed)]
    }

    /** `getStyleRuleInfoList(authKey, page, pageSize, detailed)`: one page of the list. */
    method GetStyleRuleInfoList(authKey: string, page: int, pageSize: int, detailed: bool, now: int)
      returns (r: seq<StyleRuleInfo>)
      requires Valid()
      ensures r == Page(Listed(authKey, detailed, now), page, pageSize)
    {
      var result := Ownership.CollectOwned(rules, (rule: StyleRule) => rule.authKey, Some(authKey),
                                           (rule: StyleRule) => ExtractStyleRuleInfo(rule, detailed));
      result := result + [ExtractStyleRuleInfo(DefaultStyleRule(now), detailed)];
      var startIndex := page * pageSize;
      var endIndex := startIndex + pageSize;
      r := Slice(result, startIndex, endIndex);
    }

    /**
     * Every account's list ends with the default rule, and all the other
     * elements are infos of rules the caller owns.
     */
    lemma ListedShape(authKey: string, detailed: bool, now: int)
      requires Valid()
      ensures var l := Listed(authKey, detailed, now);
        && |l| >= 1 && l[|l| - 1] == ExtractStyleRuleInfo(DefaultStyleRule(now), detailed)
        && |l| <= |rules.keys| + 1
        && forall i | 0 <= i < |l| - 1 :: OwnedInfo(authKey, detailed, l[i])
    {
      var ownerOf := (rule: StyleRule) => rule.authKey;
      var info := (rule: StyleRule) => ExtractStyleRuleInfo(rule, detailed);
      var owned := Ownership.OwnedInfos(rules, ownerOf, Some(authKey), info, |rules.keys|);
      Ownership.OwnedInfosMembers(rules, ownerOf, Some(authKey), info, |rules.keys|);
      var l := Listed(authKey, detailed, now);
      assert l == owned + [ExtractStyleRuleInfo(DefaultStyleRule(now), detailed)];
      forall i | 0 <= i < |l| - 1 ensures OwnedInfo(authKey, detailed, l[i]) {
        assert l[i] == owned[i] && owned[i] in owned;
        var j :| 0 <= j < |rules.keys| && ownerOf(rules.entries[rules.keys[j]]) == Some(authKey)
                 && owned[i] == info(rules.entries[rules.keys[j]]);
        var k := rules.keys[j];
        assert k in rules.entries;
        assert rules.entries[k].authKey == Some(authKey) && l[i] == ExtractStyleRuleInfo(rules.entries[k], detailed);
      }
    }

    /**
     * `removeStyleRule(styleId, authKey)`: removing the default rule
     * succeeds and changes nothing; a stored rule is removed for its owner
     * only.
     */
    method RemoveStyleRule(styleId: string, authKey: string, now: int) returns (r: Result<(), Util.HttpError>)
      requires Valid()
      modifies this
      ensures Valid()
      ensures styleId == DefaultStyleId ==> r == Ok(()) && rules == old(rules)
      ensures old(Owns(styleId, authKey)) ==> r == Ok(()) && rules == old(rules).Delete(styleId)
      ensures styleId != DefaultStyleId && !old(Owns(styleId, authKey)) ==> r == Err(NotFound) && rules == old(rules)
    {
      var rule := GetStyleRule(styleId, authKey, now);
      if rule.Err? {
        return Err(rule.error);
      }
      if styleId in rules.entries {
        rules := rules.Delete(styleId);
      }
      return Ok(());
    }

    /** The periodic sweep: rules idle for more than ten minutes are dropped. */
    method Sweep(now: int)
      requires Valid()
      modifies this
      ensures Valid()
      ensures rules == Util.Swept(old(rules), (rule: StyleRule) => rule.used, now, Util.LifetimeMs)
    {
      var evicted;
      rules, evicted := Util.Cleanup(rules, (rule: StyleRule) => rule.used, now, Util.LifetimeMs);
    }
  }
}
