/**
 * glossaries.js: the first glossary store. A glossary holds one entry list
 * for one supported language pair, read from TSV; it is visible only to the
 * account that created it.
 */
module GlossariesV1 {
  import opened Wrappers
  import opened OrderedMaps
  import Util
  import opened GlossaryEntries
  import Ownership
  import Languages

  /** A stored glossary. `created` and `used` are times in milliseconds. */
  datatype Glossary = Glossary(
    glossaryId: string,
    name: string,
    created: int,
    used: int,
    ready: bool,
    authKey: string,
    sourceLang: string,
    targetLang: string,
    entries: seq<Entry>)

  /** `extractGlossaryInfo(glossary)`: what the API reports about a glossary. */
  datatype GlossaryInfo = GlossaryInfo(
    glossaryId: string,
    name: string,
    ready: bool,
    targetLang: string,
    sourceLang: string,
    creationTime: int,
    entryCount: nat)

  function ExtractInfo(g: Glossary): GlossaryInfo {
    GlossaryInfo(g.glossaryId, g.name, g.ready, g.targetLang, g.sourceLang, g.created, |g.entries|)
  }

  function OwnerOf(g: Glossary): string {
    g.authKey
  }

  /** The language pairs a glossary may have, as `source>target`. */
  const SupportedPairs: seq<string> :=
    [PairName("EN", "DE"), PairName("EN", "FR"), PairName("EN", "ES"),
     PairName("DE", "EN"), PairName("ES", "EN"), PairName("FR", "EN")]

  /** `${sourceLang}>${targetLang}`. */
  function PairName(sourceLang: string, targetLang: string): string {
    sourceLang + ">" + targetLang
  }

  /** `isSupportedLanguagePair(sourceLang, targetLang)`: the six pairs, with upper-case codes only. */
  function IsSupportedLanguagePair(sourceLang: string, targetLang: string): (r: bool)
    ensures r <==> (sourceLang, targetLang) in {("EN", "DE"), ("EN", "FR"), ("EN", "ES"), ("DE", "EN"), ("ES", "EN"), ("FR", "EN")}
  {
    var pair := PairName(sourceLang, targetLang);
    PairText(sourceLang, targetLang, "EN", "DE");
    PairText(sourceLang, targetLang, "EN", "FR");
    PairText(sourceLang, targetLang, "EN", "ES");
    PairText(sourceLang, targetLang, "DE", "EN");
    PairText(sourceLang, targetLang, "ES", "EN");
    PairText(sourceLang, targetLang, "FR", "EN");
    pair in SupportedPairs
  }

  /** `${s}>${t}` names the pair `a>b` only when `s` is `a` and `t` is `b`, for codes without `>`. */
  lemma PairText(s: string, t: string, a: string, b: string)
    requires '>' !in a && '>' !in b
    ensures s + ">" + t == a + ">" + b <==> s == a && t == b
  {
    var p := a + ">" + b;
    if s + ">" + t == p {
      assert p[|s|] == '>';
      assert forall i | 0 <= i < |p| && i != |a| :: p[i] != '>' by {
        forall i | 0 <= i < |p| && i != |a| ensures p[i] != '>' {
          if i < |a| {
            assert p[i] == a[i];
          } else {
            assert p[i] == b[i - |a| - 1];
          }
        }
      }
      assert |s| == |a|;
      assert s == p[..|s|] == a;
      assert t == p[|s| + 1..] == b;
    }
  }

  /** Every supported pair translates from or into English, and the codes are case-sensitive. */
  lemma SupportedPairsFacts(sourceLang: string, targetLang: string)
    ensures IsSupportedLanguagePair(sourceLang, targetLang) ==> sourceLang == "EN" || targetLang == "EN"
    ensures !IsSupportedLanguagePair("en", "de") && !IsSupportedLanguagePair("EN", "EN")
  {
  }

  /** The glossary's `translate`: the target of the first entry whose source is the whole input. */
  function Translator(g: Glossary): Languages.Glossary {
    (input: string) => Lookup(g.entries, input)
  }

  /** A glossary's translation of an entry's source is that entry's target. */
  lemma TranslatorFindsEntries(g: Glossary, k: nat)
    requires DistinctSources(g.entries) && k < |g.entries|
    ensures Translator(g)(g.entries[k].source) == Some(g.entries[k].target)
  {
    LookupDistinct(g.entries, k);
  }

  /** The error of an unsupported language pair. */
  const UnsupportedPair: Util.HttpError := Util.Error(400, "Unsupported glossary source and target language pair")

  /** The error of a missing glossary or one owned by another account. */
  const NotFound: Util.HttpError := Util.Error(404, "not found")

  /** The module-level `glossaries` map and the operations over it. */
  class GlossaryStore {
    var glossaries: OrderedMap<string, Glossary>

    ghost predicate Valid()
      reads this
    {
      glossaries.Valid() && forall k | k in glossaries.entries :: glossaries.entries[k].glossaryId == k
    }

    constructor ()
      ensures Valid() && glossaries == Empty()
    {
      glossaries := Empty();
    }

    /**
     * `createGlossary(name, authKey, targetLang, sourceLang, entriesTsv)`:
     * the language pair is checked before the entries are read; a glossary
     * is stored only when both pass. `glossaryId` is the fresh identifier.
     */
    method CreateGlossary(name: string, authKey: string, targetLang: string, sourceLang: string, entriesTsv: string,
                          glossaryId: string, now: int) returns (r: Result<GlossaryInfo, Util.HttpError>)
      requires Valid() && glossaryId !in glossaries.entries
      modifies this
      ensures Valid()
      ensures !IsSupportedLanguagePair(sourceLang, targetLang) ==> r == Err(UnsupportedPair) && glossaries == old(glossaries)
      ensures IsSupportedLanguagePair(sourceLang, targetLang) && ParseTsv(entriesTsv).Err? ==>
        r == Err(TsvHttpError(ParseTsv(entriesTsv).error, false)) && glossaries == old(glossaries)
      ensures IsSupportedLanguagePair(sourceLang, targetLang) && ParseTsv(entriesTsv).Ok? ==>
        var g := Glossary(glossaryId, name, now, now, true, authKey, sourceLang, targetLang, ParseTsv(entriesTsv).value);
        && glossaries == old(glossaries).Put(glossaryId, g)
        && r == Ok(ExtractInfo(g))
    {
      if !IsSupportedLanguagePair(sourceLang, targetLang) {
        return Err(UnsupportedPair);
      }
      var parsed := ConvertTsvToList(entriesTsv);
      if parsed.Err? {
        return Err(TsvHttpError(parsed.error, false));
      }
      var g := Glossary(glossaryId, name, now, now, true, authKey, sourceLang, targetLang, parsed.value);
      glossaries := glossaries.Put(glossaryId, g);
      return Ok(ExtractInfo(g));
    }

    /**
     * `getGlossary(glossaryId, authKey)`: the caller's glossary, with `used`
     * refreshed. A missing id and another account's id fail alike.
     */
    method GetGlossary(glossaryId: string, authKey: string, now: int) returns (r: Result<Glossary, Util.HttpError>)
      requires Valid()
      modifies this
      ensures Valid()
      ensures glossaryId in old(glossaries.entries) && old(glossaries.entries[glossaryId]).authKey == authKey ==>
        && r == Ok(old(glossaries.entries[glossaryId]).(used := now))
        && glossaries == old(glossaries).Put(glossaryId, r.value)
      ensures !(glossaryId in old(glossaries.entries) && old(glossaries.entries[glossaryId]).authKey == authKey) ==>
        r == Err(NotFound) && glossaries == old(glossaries)
    {
      if glossaryId in glossaries.entries && glossaries.entries[glossaryId].authKey == authKey {
        var g := glossaries.entries[glossaryId].(used := now);
        glossaries := glossaries.Put(glossaryId, g);
        return Ok(g);
      }
      return Err(NotFound);
    }

    /** `getGlossaryInfo(glossaryId, authKey)`. */
    method GetGlossaryInfo(glossaryId: string, authKey: string, now: int) returns (r: Result<GlossaryInfo, Util.HttpError>)
      requires Valid()
      modifies this
      ensures Valid()
      ensures glossaryId in old(glossaries.entries) && old(glossaries.entries[glossaryId]).authKey == authKey ==>
        && r == Ok(ExtractInfo(old(glossaries.entries[glossaryId])))
        && glossaries == old(glossaries).Put(glossaryId, old(glossaries.entries[glossaryId]).(used := now))
      ensures !(glossaryId in old(glossaries.entries) && old(glossaries.entries[glossaryId]).authKey == authKey) ==>
        r == Err(NotFound) && glossaries == old(glossaries)
    {
      var g := GetGlossary(glossaryId, authKey, now);
      if g.Err? {
        return Err(g.error);
      }
      return Ok(ExtractInfo(g.value));
    }

    /** `getGlossaryInfoList(authKey)`: the caller's glossaries, in creation order. */
    method GetGlossaryInfoList(authKey: string) returns (r: seq<GlossaryInfo>)
      requires Valid()
      ensures r == Ownership.OwnedInfos(glossaries, OwnerOf, authKey, ExtractInfo, |glossaries.keys|)
    {
      r := Ownership.CollectOwned(glossaries, OwnerOf, authKey, ExtractInfo);
    }

    /** `getGlossaryEntries(glossaryId, authKey)`: the caller's glossary's entries, as TSV. */
    method GetGlossaryEntries(glossaryId: string, authKey: string, now: int) returns (r: Result<string, Util.HttpError>)
      requires Valid()
      modifies this
      ensures Valid()
      ensures glossaryId in old(glossaries.entries) && old(glossaries.entries[glossaryId]).authKey == authKey ==>
        && r == Ok(ToTsv(old(glossaries.entries[glossaryId]).entries))
        && glossaries == old(glossaries).Put(glossaryId, old(glossaries.entries[glossaryId]).(used := now))
      ensures !(glossaryId in old(glossaries.entries) && old(glossaries.entries[glossaryId]).authKey == authKey) ==>
        r == Err(NotFound) && glossaries == old(glossaries)
    {
      var g := GetGlossary(glossaryId, authKey, now);
      if g.Err? {
        return Err(g.error);
      }
      return Ok(ToTsv(g.value.entries));
    }

    /** `removeGlossary(glossaryId, authKey)`: deletes the caller's glossary and nothing else. */
    method RemoveGlossary(glossaryId: string, authKey: string, now: int) returns (r: Result<(), Util.HttpError>)
      requires Valid()
      modifies this
      ensures Valid()
      ensures glossaryId in old(glossaries.entries) && old(glossaries.entries[glossaryId]).authKey == authKey ==>
        r == Ok(()) && glossaries == old(glossaries).Delete(glossaryId)
      ensures !(glossaryId in old(glossaries.entries) && old(glossaries.entries[glossaryId]).authKey == authKey) ==>
        r == Err(NotFound) && glossaries == old(glossaries)
    {
      var g := GetGlossary(glossaryId, authKey, now);
      if g.Err? {
        return Err(g.error);
      }
      glossaries := glossaries.Delete(glossaryId);
      return Ok(());
    }

    /** The periodic sweep: glossaries idle for more than ten minutes are dropped. */
    method Sweep(now: int)
      requires Valid()
      modifies this
      ensures Valid()
      ensures glossaries == Util.Swept(old(glossaries), (g: Glossary) => g.used, now, Util.LifetimeMs)
    {
      var evicted;
      glossaries, evicted := Util.Cleanup(glossaries, (g: Glossary) => g.used, now, Util.LifetimeMs);
    }
  }
}
