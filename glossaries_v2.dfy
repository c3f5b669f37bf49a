/**
 * glossariesV2.js: the second glossary store. As the first, but entries may
 * come as TSV or CSV, the supported pairs are decided by the language module
 * (`isGlossarySupportedLanguagePair`, given here as a parameter since its
 * definition is not part of this model), and the reported language codes
 * are lower-case.
 */
module GlossariesV2 {
  import opened Wrappers
  import opened OrderedMaps
  import Util
  import opened GlossaryEntries
  import Ownership
  import Languages
  import GlossaryCsv
  import JsStrings

  /** A stored glossary. `created` and `used` are times in milliseconds. */
  datatype Glossary = Glossary(
    glossaryId: string,
    name: string,
    created: int,
    used: int,
    ready: bool,
    authKey: string,
    sourceLang: string,
    targetLang: string,
    entries: seq<Entry>)

  /** `extractGlossaryInfo(glossary)`: what the API reports about a glossary. */
  datatype GlossaryInfo = GlossaryInfo(
    glossaryId: string,
    name: string,
    ready: bool,
    targetLang: string,
    sourceLang: string,
    creationTime: int,
    entryCount: nat)

  function ExtractInfo(g: Glossary): GlossaryInfo {
    GlossaryInfo(g.glossaryId, g.name, g.ready, JsStrings.Lower(g.targetLang), JsStrings.Lower(g.sourceLang), g.created, |g.entries|)
  }

  /** The reported codes have no upper-case letter and differ from the stored ones only in case. */
  lemma InfoCodesLowerCase(g: Glossary)
    ensures var info := ExtractInfo(g);
      && (forall i | 0 <= i < |info.sourceLang| :: !('A' <= info.sourceLang[i] <= 'Z'))
      && (forall i | 0 <= i < |info.targetLang| :: !('A' <= info.targetLang[i] <= 'Z'))
      && |info.sourceLang| == |g.sourceLang| && |info.targetLang| == |g.targetLang|
      && info.entryCount == |g.entries| && info.ready == g.ready
  {
  }

  function OwnerOf(g: Glossary): string {
    g.authKey
  }

  /** `isGlossarySupportedLanguagePair(sourceLang, targetLang)`, decided outside this model. */
  type PairCheck = (string, string) -> bool

  /**
   * The entry list of the `entries` parameter: TSV when the format is
   * exactly `tsv`, CSV (already split into `rows`) for any other format.
   */
  function ReadEntries(entriesFormat: string, entries: string, rows: seq<seq<string>>, sourceLang: string, targetLang: string)
    : (r: Result<seq<Entry>, Util.HttpError>)
    ensures entriesFormat == "tsv" ==>
      (r.Ok? <==> ParseTsv(entries).Ok?) && (r.Ok? ==> r.value == ParseTsv(entries).value)
    ensures entriesFormat != "tsv" ==>
      (r.Ok? <==> GlossaryCsv.CsvEntries(entries, rows, sourceLang, targetLang).Ok?)
      && (r.Ok? ==> r.value == GlossaryCsv.CsvEntries(entries, rows, sourceLang, targetLang).value)
  {
    if entriesFormat == "tsv" then
      match ParseTsv(entries)
      case Ok(list) => Ok(list)
      case Err(e) => Err(TsvHttpError(e, false))
    else
      match GlossaryCsv.CsvEntries(entries, rows, sourceLang, targetLang)
      case Ok(list) => Ok(list)
      case Err(e) => Err(GlossaryCsv.CsvHttpError(e))
  }

  /** `ReadEntries` as the imperative parsers compute it. */
  method ReadEntriesOf(entriesFormat: string, entries: string, rows: seq<seq<string>>, sourceLang: string, targetLang: string)
    returns (r: Result<seq<Entry>, Util.HttpError>)
    ensures r == ReadEntries(entriesFormat, entries, rows, sourceLang, targetLang)
  {
    if entriesFormat == "tsv" {
      var parsed := ConvertTsvToList(entries);
      if parsed.Err? {
        return Err(TsvHttpError(parsed.error, false));
      }
      return Ok(parsed.value);
    }
    var parsed := GlossaryCsv.ConvertCsvToList(entries, rows, sourceLang, targetLang);
    if parsed.Err? {
      return Err(GlossaryCsv.CsvHttpError(parsed.error));
    }
    return Ok(parsed.value);
  }

  /** Read as TSV, the entries have distinct sources; read as CSV they are non-empty. */
  lemma ReadEntriesFacts(entriesFormat: string, entries: string, rows: seq<seq<string>>, sourceLang: string, targetLang: string)
    ensures var r := ReadEntries(entriesFormat, entries, rows, sourceLang, targetLang);
      && (r.Ok? && entriesFormat == "tsv" ==> DistinctSources(r.value))
      && (r.Ok? && entriesFormat != "tsv" ==> r.value != [])
      && (r.Err? ==> r.error.Status() == 400)
  {
    ParsedSourcesDistinct(entries);
  }

  /** The glossary's `translate`: the target of the first entry whose source is the whole input. */
  function Translator(g: Glossary): Languages.Glossary {
    (input: string) => Lookup(g.entries, input)
  }

  /** A glossary's translation of an entry's source is that entry's target. */
  lemma TranslatorFindsEntries(g: Glossary, k: nat)
    requires DistinctSources(g.entries) && k < |g.entries|
    ensures Translator(g)(g.entries[k].source) == Some(g.entries[k].target)
  {
    LookupDistinct(g.entries, k);
  }

  /** The error of an unsupported language pair. */
  const UnsupportedPair: Util.HttpError := Util.Error(400, "Unsupported glossary source and target language pair")

  /** The error of a missing glossary or one owned by another account. */
  const NotFound: Util.HttpError := Util.Error(404, "not found")

  /** The module-level `glossaries` map and the operations over it. */
  class GlossaryStore {
    var glossaries: OrderedMap<string, Glossary>

    ghost predicate Valid()
      reads this
    {
      glossaries.Valid() && forall k | k in glossaries.entries :: glossaries.entries[k].glossaryId == k
    }

    constructor ()
      ensures Valid() && glossaries == Empty()
    {
      glossaries := Empty();
    }

    /**
     * `createGlossary(name, authKey, targetLang, sourceLang, entriesFormat, entries)`:
     * the language pair is checked before the entries are read; a glossary
     * is stored only when both pass. `glossaryId` is the fresh identifier and
     * `rows` the CSV cells of `entries`.
     */
    method CreateGlossary(name: string, authKey: string, targetLang: string, sourceLang: string, entriesFormat: string,
                          entries: string, rows: seq<seq<string>>, supported: PairCheck, glossaryId: string, now: int)
      returns (r: Result<GlossaryInfo, Util.HttpError>)
      requires Valid() && glossaryId !in glossaries.entries
      modifies this
      ensures Valid()
      ensures !supported(sourceLang, targetLang) ==> r == Err(UnsupportedPair) && glossaries == old(glossaries)
      ensures supported(sourceLang, targetLang) ==>
        var read := ReadEntries(entriesFormat, entries, rows, sourceLang, targetLang);
        && (read.Err? ==> r == Err(read.error) && glossaries == old(glossaries))
        && (read.Ok? ==>
             var g := Glossary(glossaryId, name, now, now, true, authKey, sourceLang, targetLang, read.value);
             glossaries == old(glossaries).Put(glossaryId, g) && r == Ok(ExtractInfo(g)))
    {
      if !supported(sourceLang, targetLang) {
        return Err(UnsupportedPair);
      }
      var read := ReadEntriesOf(entriesFormat, entries, rows, sourceLang, targetLang);
      if read.Err? {
        return Err(read.error);
      }
      var g := Glossary(glossaryId, name, now, now, true, authKey, sourceLang, targetLang, read.value);
      glossaries := glossaries.Put(glossaryId, g);
      return Ok(ExtractInfo(g));
    }

    /**
     * `getGlossary(glossaryId, authKey)`: the caller's glossary, with `used`
     * refreshed. A missing id and another account's id fail alike.
     */
    method GetGlossary(glossaryId: string, authKey: string, now: int) returns (r: Result<Glossary, Util.HttpError>)
      requires Valid()
      modifies this
      ensures Valid()
      ensures glossaryId in old(glossaries.entries) && old(glossaries.entries[glossaryId]).authKey == authKey ==>
        && r == Ok(old(glossaries.entries[glossaryId]).(used := now))
        && glossaries == old(glossaries).Put(glossaryId, r.value)
      ensures !(glossaryId in old(glossaries.entries) && old(glossaries.entries[glossaryId]).authKey == authKey) ==>
        r == Err(NotFound) && glossaries == old(glossaries)
    {
      if glossaryId in glossaries.entries && glossaries.entries[glossaryId].authKey == authKey {
        var g := glossaries.entries[glossaryId].(used := now);
        glossaries := glossaries.Put(glossaryId, g);
        return Ok(g);
      }
      return Err(NotFound);
    }

    /** `getGlossaryInfo(glossaryId, authKey)`. */
    method GetGlossaryInfo(glossaryId: string, authKey: string, now: int) returns (r: Result<GlossaryInfo, Util.HttpError>)
      requires Valid()
      modifies this
      ensures Valid()
      ensures glossaryId in old(glossaries.entries) && old(glossaries.entries[glossaryId]).authKey == authKey ==>
        && r == Ok(ExtractInfo(old(glossaries.entries[glossaryId])))
        && glossaries == old(glossaries).Put(glossaryId, old(glossaries.entries[glossaryId]).(used := now))
      ensures !(glossaryId in old(glossaries.entries) && old(glossaries.entries[glossaryId]).authKey == authKey) ==>
        r == Err(NotFound) && glossaries == old(glossaries)
    {
      var g := GetGlossary(glossaryId, authKey, now);
      if g.Err? {
        return Err(g.error);
      }
      return Ok(ExtractInfo(g.value));
    }

    /** `getGlossaryInfoList(authKey)`: the caller's glossaries, in creation order. */
    method GetGlossaryInfoList(authKey: string) returns (r: seq<GlossaryInfo>)
      requires Valid()
      ensures r == Ownership.OwnedInfos(glossaries, OwnerOf, authKey, ExtractInfo, |glossaries.keys|)
    {
      r := Ownership.CollectOwned(glossaries, OwnerOf, authKey, ExtractInfo);
    }

    /** `getGlossaryEntries(glossaryId, authKey)`: the caller's glossary's entries, as TSV. */
    method GetGlossaryEntries(glossaryId: string, authKey: string, now: int) returns (r: Result<string, Util.HttpError>)
      requires Valid()
      modifies this
      ensures Valid()
      ensures glossaryId in old(glossaries.entries) && old(glossaries.entries[glossaryId]).authKey == authKey ==>
        && r == Ok(ToTsv(old(glossaries.entries[glossaryId]).entries))
        && glossaries == old(glossaries).Put(glossaryId, old(glossaries.entries[glossaryId]).(used := now))
      ensures !(glossaryId in old(glossaries.entries) && old(glossaries.entries[glossaryId]).authKey == authKey) ==>
        r == Err(NotFound) && glossaries == old(glossaries)
    {
      var g := GetGlossary(glossaryId, authKey, now);
      if g.Err? {
        return Err(g.error);
      }
      return Ok(ToTsv(g.value.entries));
    }

    /** `removeGlossary(glossaryId, authKey)`: deletes the caller's glossary and nothing else. */
    method RemoveGlossary(glossaryId: string, authKey: string, now: int) returns (r: Result<(), Util.HttpError>)
      requires Valid()
      modifies this
      ensures Valid()
      ensures glossaryId in old(glossaries.entries) && old(glossaries.entries[glossaryId]).authKey == authKey ==>
        r == Ok(()) && glossaries == old(glossaries).Delete(glossaryId)
      ensures !(glossaryId in old(glossaries.entries) && old(glossaries.entries[glossaryId]).authKey == authKey) ==>
        r == Err(NotFound) && glossaries == old(glossaries)
    {
      var g := GetGlossary(glossaryId, authKey, now);
      if g.Err? {
        return Err(g.error);
      }
      glossaries := glossaries.Delete(glossaryId);
      return Ok(());
    }

    /** The periodic sweep: glossaries idle for more than ten minutes are dropped. */
    method Sweep(now: int)
      requires Valid()
      modifies this
      ensures Valid()
      ensures glossaries == Util.Swept(old(glossaries), (g: Glossary) => g.used, now, Util.LifetimeMs)
    {
      var evicted;
      glossaries, evicted := Util.Cleanup(glossaries, (g: Glossary) => g.used, now, Util.LifetimeMs);
    }
  }
}
