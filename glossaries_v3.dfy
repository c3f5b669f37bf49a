/**
 * glossariesV3.js: the multilingual glossary store. A glossary holds a list
 * of dictionaries, one entry list per language pair; dictionaries can be
 * replaced (`putDictionary`, `patchGlossary`) and removed one at a time.
 * `isGlossarySupportedLanguagePair` and `getBaseLanguageCode` belong to the
 * language module but are not defined there; they are parameters here.
 */
module GlossariesV3 {
  import opened Wrappers
  import opened OrderedMaps
  import Util
  import opened JsStrings
  import opened GlossaryEntries
  import GlossaryCsv
  import Ownership

  /** A stored dictionary: its language pair as given, its entry format and its entries. */
  datatype Dictionary = Dictionary(sourceLang: string, targetLang: string, entriesFormat: string, entries: seq<Entry>)

  /**
   * A stored glossary. `captured` is the dictionary list the glossary's
   * `translate` closure was built over at creation; `dictionaries` is the
   * current list, which later operations replace.
   */
  datatype Glossary = Glossary(
    glossaryId: string,
    name: string,
    created: int,
    used: int,
    authKey: string,
    dictionaries: seq<Dictionary>,
    captured: seq<Dictionary>)

  /** `extractDictionaryInfo(glossaryDict)`. */
  datatype DictionaryInfo = DictionaryInfo(targetLang: string, sourceLang: string, entryCount: nat)

  /** `extractGlossaryInfo(glossary)`. */
  datatype GlossaryInfo = GlossaryInfo(glossaryId: string, name: string, dictionaries: seq<DictionaryInfo>, creationTime: int)

  function ExtractDictionaryInfo(d: Dictionary): DictionaryInfo {
    DictionaryInfo(Lower(d.targetLang), Lower(d.sourceLang), |d.entries|)
  }

  function ExtractInfo(g: Glossary): GlossaryInfo {
    GlossaryInfo(g.glossaryId, g.name, seq(|g.dictionaries|, i requires 0 <= i < |g.dictionaries| => ExtractDictionaryInfo(g.dictionaries[i])), g.created)
  }

  function OwnerOf(g: Glossary): string {
    g.authKey
  }

  /** `isGlossarySupportedLanguagePair(sourceLang, targetLang)`, decided outside this model. */
  type PairCheck = (string, string) -> bool

  /** A dictionary as a request gives it; `rows` are the CSV cells of `entries`. */
  datatype DictionaryInput = DictionaryInput(
    sourceLang: string,
    targetLang: string,
    entriesFormat: string,
    entries: string,
    rows: seq<seq<string>>)

  const UnsupportedPair: Util.HttpError := Util.Error(400, "Unsupported glossary source and target language pair")
  const FormatNotSupported: Util.HttpError := Util.Error(400, "Value for entries_format not supported.")
  const NoDictionaries: Util.HttpError := Util.Error(400, "Glossary dictionaries must be provided")
  const GlossaryNotFound: Util.HttpError := Util.Error(404, "Glossary not found")
  const DictionaryNotFound: Util.HttpError := Util.Error(404, "Dictionary not found")
  const TranslatorNotFound: Util.HttpError := Util.Error(404, "Glossary dictionary not found")
  const TooManyDictionaries: Util.HttpError :=
    Util.Error(400, "Not implemented yet: only dictionaries of length 0 or 1 is currently supported")

  /**
   * Why one dictionary of a new glossary fails, and whether it fails early:
   * while the dictionaries are being mapped to promises, rather than when a
   * CSV stream ends.
   */
  datatype Failure = Failure(error: Util.HttpError, early: bool)

  /**
   * The entries of a dictionary: TSV when the format is exactly `tsv`, CSV
   * otherwise. A TSV duplicate reports the earlier entry's index.
   */
  function ReadEntries(entriesFormat: string, entries: string, rows: seq<seq<string>>, sourceLang: string, targetLang: string)
    : (r: Result<seq<Entry>, Failure>)
    ensures entriesFormat == "tsv" ==>
      (r.Ok? <==> ParseTsv(entries).Ok?) && (r.Ok? ==> r.value == ParseTsv(entries).value) && (r.Err? ==> r.error.early)
    ensures entriesFormat != "tsv" ==>
      (r.Ok? <==> GlossaryCsv.CsvEntries(entries, rows, sourceLang, targetLang).Ok?)
      && (r.Ok? ==> r.value == GlossaryCsv.CsvEntries(entries, rows, sourceLang, targetLang).value)
      && (r.Err? ==> (r.error.early <==> entries == ""))
  {
    if entriesFormat == "tsv" then
      match ParseTsv(entries)
      case Ok(list) => Ok(list)
      case Err(e) => Err(Failure(TsvHttpError(e, true), true))
    else
      match GlossaryCsv.CsvEntries(entries, rows, sourceLang, targetLang)
      case Ok(list) => Ok(list)
      case Err(e) => Err(Failure(GlossaryCsv.CsvHttpError(e), GlossaryCsv.Synchronous(e)))
  }

  /** `ReadEntries` as the imperative parsers compute it. */
  method ReadEntriesOf(entriesFormat: string, entries: string, rows: seq<seq<string>>, sourceLang: string, targetLang: string)
    returns (r: Result<seq<Entry>, Failure>)
    ensures r == ReadEntries(entriesFormat, entries, rows, sourceLang, targetLang)
  {
    if entriesFormat == "tsv" {
      var parsed := ConvertTsvToList(entries);
      if parsed.Err? {
        return Err(Failure(TsvHttpError(parsed.error, true), true));
      }
      return Ok(parsed.value);
    }
    var parsed := GlossaryCsv.ConvertCsvToList(entries, rows, sourceLang, targetLang);
    if parsed.Err? {
      return Err(Failure(GlossaryCsv.CsvHttpError(parsed.error), GlossaryCsv.Synchronous(parsed.error)));
    }
    return Ok(parsed.value);
  }

  /**
   * One dictionary of `createGlossary`: its pair must be supported and its
   * format `tsv` or `csv`, in that order, before its entries are read.
   */
  function BuildDictionary(d: DictionaryInput, supported: PairCheck): (r: Result<Dictionary, Failure>)
    ensures !supported(d.sourceLang, d.targetLang) ==> r == Err(Failure(UnsupportedPair, true))
    ensures supported(d.sourceLang, d.targetLang) && d.entriesFormat != "tsv" && d.entriesFormat != "csv" ==>
      r == Err(Failure(FormatNotSupported, true))
    ensures supported(d.sourceLang, d.targetLang) && (d.entriesFormat == "tsv" || d.entriesFormat == "csv") ==>
      (r.Ok? <==> ReadEntries(d.entriesFormat, d.entries, d.rows, d.sourceLang, d.targetLang).Ok?)
    ensures r.Ok? ==>
      r.value == Dictionary(d.sourceLang, d.targetLang, d.entriesFormat,
                            ReadEntries(d.entriesFormat, d.entries, d.rows, d.sourceLang, d.targetLang).value)
  {
    if !supported(d.sourceLang, d.targetLang) then Err(Failure(UnsupportedPair, true))
    else if d.entriesFormat != "tsv" && d.entriesFormat != "csv" then Err(Failure(FormatNotSupported, true))
    else
      var read := ReadEntries(d.entriesFormat, d.entries, d.rows, d.sourceLang, d.targetLang);
      if read.Err? then Err(read.error)
      else Ok(Dictionary(d.sourceLang, d.targetLang, d.entriesFormat, read.value))
  }

  /** The error of the first failed dictionary from `i` on whose failure is early (or late, per `early`). */
  function FirstFailure(results: seq<Result<Dictionary, Failure>>, early: bool, i: nat): (r: Option<Util.HttpError>)
    requires i <= |results|
    ensures r.None? <==> forall j | i <= j < |results| :: !(results[j].Err? && results[j].error.early == early)
    ensures r.Some? ==> exists j | i <= j < |results| ::
      && results[j].Err? && results[j].error.early == early && r.value == results[j].error.error
      && forall k | i <= k < j :: !(results[k].Err? && results[k].error.early == early)
    decreases |results| - i
  {
    if i == |results| then None
    else if results[i].Err? && results[i].error.early == early then Some(results[i].error.error)
    else FirstFailure(results, early, i + 1)
  }

  /** The outcome of building each dictionary, in order. */
  function BuildAll(ds: seq<DictionaryInput>, supported: PairCheck): (results: seq<Result<Dictionary, Failure>>)
    ensures |results| == |ds|
    ensures forall i | 0 <= i < |ds| :: results[i] == BuildDictionary(ds[i], supported)
  {
    seq(|ds|, i requires 0 <= i < |ds| => BuildDictionary(ds[i], supported))
  }

  /** The failure at `i` is the first of its kind from `from` on. */
  lemma {:induction false} FirstFailureAt(results: seq<Result<Dictionary, Failure>>, early: bool, from: nat, i: nat)
    requires from <= i < |results| && results[i].Err? && results[i].error.early == early
    requires forall k | from <= k < i :: !(results[k].Err? && results[k].error.early == early)
    ensures FirstFailure(results, early, from) == Some(results[i].error.error)
    decreases i - from
  {
    if from < i {
      FirstFailureAt(results, early, from + 1, i);
    }
  }

  /**
   * `Promise.all` over the dictionaries: the early failure of the first
   * dictionary that fails early wins; failing that, the first late failure
   * in dictionary order; otherwise the built dictionaries, in order.
   */
  function CollectDictionaries(ds: seq<DictionaryInput>, supported: PairCheck): (r: Result<seq<Dictionary>, Util.HttpError>)
    ensures r.Ok? ==>
      && |r.value| == |ds|
      && forall i | 0 <= i < |ds| :: BuildDictionary(ds[i], supported) == Ok(r.value[i])
    ensures r.Err? ==> exists i | 0 <= i < |ds| :: BuildDictionary(ds[i], supported).Err?
  {
    var results := BuildAll(ds, supported);
    var early := FirstFailure(results, true, 0);
    var late := FirstFailure(results, false, 0);
    if early.Some? then Err(early.value)
    else if late.Some? then Err(late.value)
    else Ok(seq(|ds|, i requires 0 <= i < |ds| => results[i].value))
  }

  /** An early failure takes precedence over any late one, whatever their order. */
  lemma EarlyFailureWins(ds: seq<DictionaryInput>, supported: PairCheck, i: nat)
    requires i < |ds| && BuildDictionary(ds[i], supported).Err? && BuildDictionary(ds[i], supported).error.early
    requires forall k | 0 <= k < i :: !(BuildDictionary(ds[k], supported).Err? && BuildDictionary(ds[k], supported).error.early)
    ensures CollectDictionaries(ds, supported) == Err(BuildDictionary(ds[i], supported).error.error)
  {
    FirstFailureAt(BuildAll(ds, supported), true, 0, i);
  }

  /** Without an early failure, the first late failure in dictionary order is the one reported. */
  lemma FirstLateFailureWins(ds: seq<DictionaryInput>, supported: PairCheck, i: nat)
    requires i < |ds| && BuildDictionary(ds[i], supported).Err? && !BuildDictionary(ds[i], supported).error.early
    requires forall k | 0 <= k < |ds| :: !(BuildDictionary(ds[k], supported).Err? && BuildDictionary(ds[k], supported).error.early)
    requires forall k | 0 <= k < i :: !(BuildDictionary(ds[k], supported).Err? && !BuildDictionary(ds[k], supported).error.early)
    ensures CollectDictionaries(ds, supported) == Err(BuildDictionary(ds[i], supported).error.error)
  {
    var results := BuildAll(ds, supported);
    assert FirstFailure(results, true, 0).None?;
    FirstFailureAt(results, false, 0, i);
  }

  /**
   * The index of the first dictionary from `i` on whose upper-cased pair is
   * `source`/`target`, or -1.
   */
  function MatchFrom(ds: seq<Dictionary>, source: string, target: string, i: nat): (r: int)
    requires i <= |ds|
    ensures r == -1 || i <= r < |ds|
    ensures r == -1 <==> forall j | i <= j < |ds| :: !(Upper(ds[j].sourceLang) == source && Upper(ds[j].targetLang) == target)
    ensures r >= 0 ==> Upper(ds[r].sourceLang) == source && Upper(ds[r].targetLang) == target
    ensures r >= 0 ==> forall j | i <= j < r :: !(Upper(ds[j].sourceLang) == source && Upper(ds[j].targetLang) == target)
    decreases |ds| - i
  {
    if i == |ds| then -1
    else if Upper(ds[i].sourceLang) == source && Upper(ds[i].targetLang) == target then i
    else MatchFrom(ds, source, target, i + 1)
  }

  /**
   * The glossary's `translate(input, sourceLang, targetLang)` over a list
   * of dictionaries: the first dictionary whose upper-cased pair is the base
   * codes of the requested pair is searched for the input; without such a
   * dictionary the call fails with 404.
   */
  function TranslateWith(ds: seq<Dictionary>, baseCode: string -> string, input: string, sourceLang: string, targetLang: string)
    : (r: Result<Option<string>, Util.HttpError>)
    ensures r.Err? <==> forall j | 0 <= j < |ds| ::
      !(Upper(ds[j].sourceLang) == baseCode(sourceLang) && Upper(ds[j].targetLang) == baseCode(targetLang))
    ensures r.Err? ==> r.error == TranslatorNotFound
    ensures r.Ok? ==> exists j | 0 <= j < |ds| ::
      && Upper(ds[j].sourceLang) == baseCode(sourceLang) && Upper(ds[j].targetLang) == baseCode(targetLang)
      && r.value == Lookup(ds[j].entries, input)
      && forall k | 0 <= k < j ::
           !(Upper(ds[k].sourceLang) == baseCode(sourceLang) && Upper(ds[k].targetLang) == baseCode(targetLang))
  {
    var i := MatchFrom(ds, baseCode(sourceLang), baseCode(targetLang), 0);
    if i < 0 then Err(TranslatorNotFound) else Ok(Lookup(ds[i].entries, input))
  }

  /** The `translate` closure as written: it searches the dictionaries the glossary was created with. */
  function CapturedTranslator(g: Glossary, baseCode: string -> string): (string, string, string) -> Result<Option<string>, Util.HttpError> {
    (input: string, sourceLang: string, targetLang: string) => TranslateWith(g.captured, baseCode, input, sourceLang, targetLang)
  }

  /** The `translate` closure as evidently intended: it searches the glossary's current dictionaries. */
  function Translator(g: Glossary, baseCode: string -> string): (string, string, string) -> Result<Option<string>, Util.HttpError> {
    (input: string, sourceLang: string, targetLang: string) => TranslateWith(g.dictionaries, baseCode, input, sourceLang, targetLang)
  }

  /**
   * After `removeDictionary(s, t)` the intended closure answers 404 for any
   * pair sharing a base code with the removed one, while the closure as
   * written answers exactly as before the removal.
   */
  lemma {:induction false} TranslatorFollowsRemoval(g: Glossary, baseCode: string -> string, s: string, t: string,
                                                    input: string, s2: string, t2: string)
    requires baseCode(s2) == Upper(s) || baseCode(t2) == Upper(t)
    ensures var after := g.(dictionaries := Filter(g.dictionaries, KeepIgnoringCase(s, t)));
      && Translator(after, baseCode)(input, s2, t2) == Err(TranslatorNotFound)
      && CapturedTranslator(after, baseCode)(input, s2, t2) == CapturedTranslator(g, baseCode)(input, s2, t2)
  {
    var keep := KeepIgnoringCase(s, t);
    var kept := Filter(g.dictionaries, keep);
    FilterMembers(g.dictionaries, keep);
    forall j | 0 <= j < |kept|
      ensures !(Upper(kept[j].sourceLang) == baseCode(s2) && Upper(kept[j].targetLang) == baseCode(t2))
    {
      assert kept[j] in kept;
      assert keep(kept[j]);
    }
  }

  /**
   * After the only dictionary of a glossary is removed, the closure as
   * written still translates with it, while the intended one reports 404.
   */
  lemma CapturedTranslatorOutlivesRemoval()
    ensures var d := Dictionary("EN", "DE", "tsv", [Entry("beam", "Strahl")]);
            var g := Glossary("id", "name", 0, 0, "key", [], [d]);
            var base := (c: string) => Upper(c);
      && CapturedTranslator(g, base)("beam", "EN", "DE") == Ok(Some("Strahl"))
      && Translator(g, base)("beam", "EN", "DE") == Err(TranslatorNotFound)
  {
    var d := Dictionary("EN", "DE", "tsv", [Entry("beam", "Strahl")]);
    assert Upper("EN") == "EN" && Upper("DE") == "DE";
    assert MatchFrom([d], "EN", "DE", 0) == 0;
    assert Lookup([Entry("beam", "Strahl")], "beam") == Some("Strahl") by {
      LookupDistinct([Entry("beam", "Strahl")], 0);
    }
  }

  /** `list.filter(pred)`. */
  function Filter(ds: seq<Dictionary>, keep: Dictionary -> bool): seq<Dictionary> {
    if ds == [] then []
    else Filter(ds[..|ds| - 1], keep) + (if keep(ds[|ds| - 1]) then [ds[|ds| - 1]] else [])
  }

  /** The filtered list holds exactly the dictionaries that pass, and is no longer than the list. */
  lemma {:induction false} FilterMembers(ds: seq<Dictionary>, keep: Dictionary -> bool)
    ensures |Filter(ds, keep)| <= |ds|
    ensures forall d :: d in Filter(ds, keep) <==> d in ds && keep(d)
  {
    if ds != [] {
      var init := ds[..|ds| - 1];
      FilterMembers(init, keep);
      assert ds == init + [ds[|ds| - 1]];
    }
  }

  /**
   * `patchGlossary` and `putDictionary` keep the dictionaries that share
   * neither language with the new one and append the new one.
   */
  function ReplaceDictionary(ds: seq<Dictionary>, added: Dictionary): seq<Dictionary> {
    Filter(ds, KeepExact(added.sourceLang, added.targetLang)) + [added]
  }

  /** The keep filter of `removeDictionary`: both codes differ from the given pair's, ignoring case. */
  function KeepIgnoringCase(sourceLang: string, targetLang: string): Dictionary -> bool {
    (d: Dictionary) => Upper(d.sourceLang) != Upper(sourceLang) && Upper(d.targetLang) != Upper(targetLang)
  }

  /** The keep filter of `patchGlossary` and `putDictionary`: both codes differ from the given pair's, exactly. */
  function KeepExact(sourceLang: string, targetLang: string): Dictionary -> bool {
    (d: Dictionary) => d.sourceLang != sourceLang && d.targetLang != targetLang
  }

  /**
   * Removing one pair also removes every dictionary that shares only its
   * source or only its target language: removing `en`/`de` drops EN>FR too.
   */
  lemma RemovalDropsSharedLanguages()
    ensures var enDe := Dictionary("EN", "DE", "tsv", []);
            var enFr := Dictionary("EN", "FR", "tsv", []);
            var deEn := Dictionary("DE", "EN", "tsv", []);
      Filter([enDe, enFr, deEn], KeepIgnoringCase("en", "de")) == [deEn]
  {
    var enDe := Dictionary("EN", "DE", "tsv", []);
    var enFr := Dictionary("EN", "FR", "tsv", []);
    var deEn := Dictionary("DE", "EN", "tsv", []);
    var keep := KeepIgnoringCase("en", "de");
    assert Upper("en") == "EN" && Upper("de") == "DE";
    assert Upper("EN") == "EN" && Upper("DE") == "DE" && Upper("FR") == "FR";
    assert !keep(enDe) && !keep(enFr) && keep(deEn);
    assert [enDe][..0] == [];
    assert Filter([enDe], keep) == [];
    assert [enDe, enFr][..1] == [enDe];
    assert Filter([enDe, enFr], keep) == [];
    assert [enDe, enFr, deEn][..2] == [enDe, enFr];
  }

  /** The keep filter of `putDictionary` compares exactly: a dictionary differing only in case survives. */
  lemma PutFilterIsCaseSensitive()
    ensures var lower := Dictionary("en", "de", "tsv", []);
      ReplaceDictionary([lower], Dictionary("EN", "DE", "tsv", [])) == [lower, Dictionary("EN", "DE", "tsv", [])]
  {
    var lower := Dictionary("en", "de", "tsv", []);
    assert [lower][..0] == [];
  }

  /**
   * The dictionary step of `patchGlossary`: the format, the source and the
   * target must be given, in that order (an absent field is the empty string
   * here, and these errors carry no status); the entries are read as TSV when
   * the format is `tsv` and as CSV otherwise, and the new dictionary replaces
   * those sharing a language with it.
   */
  function PatchDictionary(g: Glossary, d: DictionaryInput): (r: Result<Glossary, Util.HttpError>)
    ensures d.entriesFormat == "" ==> r == Err(Util.HttpError("Entries format for dictionary is required", None, None))
    ensures d.entriesFormat != "" && d.sourceLang == "" ==>
      r == Err(Util.HttpError("Source language for dictionary is required", None, None))
    ensures d.entriesFormat != "" && d.sourceLang != "" && d.targetLang == "" ==>
      r == Err(Util.HttpError("Target language for dictionary is required", None, None))
    ensures d.entriesFormat != "" && d.sourceLang != "" && d.targetLang != "" ==>
      (r.Ok? <==> ReadEntries(d.entriesFormat, d.entries, d.rows, d.sourceLang, d.targetLang).Ok?)
    ensures r.Ok? ==>
      var added := Dictionary(d.sourceLang, d.targetLang, d.entriesFormat,
                              ReadEntries(d.entriesFormat, d.entries, d.rows, d.sourceLang, d.targetLang).value);
      r.value == g.(dictionaries := ReplaceDictionary(g.dictionaries, added))
  {
    if d.entriesFormat == "" then Err(Util.HttpError("Entries format for dictionary is required", None, None))
    else if d.sourceLang == "" then Err(Util.HttpError("Source language for dictionary is required", None, None))
    else if d.targetLang == "" then Err(Util.HttpError("Target language for dictionary is required", None, None))
    else
      var read := ReadEntries(d.entriesFormat, d.entries, d.rows, d.sourceLang, d.targetLang);
      if read.Err? then Err(read.error.error)
      else Ok(g.(dictionaries := ReplaceDictionary(g.dictionaries, Dictionary(d.sourceLang, d.targetLang, d.entriesFormat, read.value))))
  }

  /** `PatchDictionary`, reading the entries with the imperative parsers. */
  method ApplyDictionary(g: Glossary, d: DictionaryInput) returns (r: Result<Glossary, Util.HttpError>)
    ensures r == PatchDictionary(g, d)
  {
    if d.entriesFormat == "" {
      return Err(Util.HttpError("Entries format for dictionary is required", None, None));
    }
    if d.sourceLang == "" {
      return Err(Util.HttpError("Source language for dictionary is required", None, None));
    }
    if d.targetLang == "" {
      return Err(Util.HttpError("Target language for dictionary is required", None, None));
    }
    var read := ReadEntriesOf(d.entriesFormat, d.entries, d.rows, d.sourceLang, d.targetLang);
    if read.Err? {
      return Err(read.error.error);
    }
    var added := Dictionary(d.sourceLang, d.targetLang, d.entriesFormat, read.value);
    return Ok(g.(dictionaries := ReplaceDictionary(g.dictionaries, added)));
  }

  /** `getDictionaryEntries` result: one dictionary, always in TSV. */
  datatype DictionaryEntries = DictionaryEntries(sourceLang: string, targetLang: string, entriesFormat: string, entries: string)

  /** The module-level `glossaries` map and the operations over it. */
  class GlossaryStore {
    var glossaries: OrderedMap<string, Glossary>

    ghost predicate Valid()
      reads this
    {
      glossaries.Valid() && forall k | k in glossaries.entries :: glossaries.entries[k].glossaryId == k
    }

    constructor ()
      ensures Valid() && glossaries == Empty()
    {
      glossaries := Empty();
    }

    /** The caller owns the glossary with this id. */
    ghost predicate Owns(glossaryId: string, authKey: string)
      reads this
    {
      glossaryId in glossaries.entries && glossaries.entries[glossaryId].authKey == authKey
    }

    /**
     * `createGlossary(name, authKey, dictionaries)`: refuses an absent or
     * empty list, then builds every dictionary; a glossary is stored only when
     * all are built. `dictionaries` is `None` when the value is not an array.
     */
    method CreateGlossary(name: string, authKey: string, dictionaries: Option<seq<DictionaryInput>>, supported: PairCheck,
                          glossaryId: string, now: int) returns (r: Result<GlossaryInfo, Util.HttpError>)
      requires Valid() && glossaryId !in glossaries.entries
      modifies this
      ensures Valid()
      ensures dictionaries.None? || dictionaries.value == [] ==> r == Err(NoDictionaries) && glossaries == old(glossaries)
      ensures dictionaries.Some? && dictionaries.value != [] ==>
        var built := CollectDictionaries(dictionaries.value, supported);
        && (built.Err? ==> r == Err(built.error) && glossaries == old(glossaries))
        && (built.Ok? ==>
             var g := Glossary(glossaryId, name, now, now, authKey, built.value, built.value);
             glossaries == old(glossaries).Put(glossaryId, g) && r == Ok(ExtractInfo(g)))
    {
      if dictionaries.None? || |dictionaries.value| == 0 {
        return Err(NoDictionaries);
      }
      var built := CollectDictionaries(dictionaries.value, supported);
      if built.Err? {
        return Err(built.error);
      }
      var g := Glossary(glossaryId, name, now, now, authKey, built.value, built.value);
      glossaries := glossaries.Put(glossaryId, g);
      return Ok(ExtractInfo(g));
    }

    /**
     * `getGlossary(glossaryId, authKey)`: the caller's glossary, with `used`
     * refreshed. A missing id and another account's id fail alike.
     */
    method GetGlossary(glossaryId: string, authKey: string, now: int) returns (r: Result<Glossary, Util.HttpError>)
      requires Valid()
      modifies this
      ensures Valid()
      ensures old(Owns(glossaryId, authKey)) ==>
        && r == Ok(old(glossaries.entries[glossaryId]).(used := now))
        && glossaries == old(glossaries).Put(glossaryId, r.value)
      ensures !old(Owns(glossaryId, authKey)) ==> r == Err(GlossaryNotFound) && glossaries == old(glossaries)
    {
      if glossaryId in glossaries.entries && glossaries.entries[glossaryId].authKey == authKey {
        var g := glossaries.entries[glossaryId].(used := now);
        glossaries := glossaries.Put(glossaryId, g);
        return Ok(g);
      }
      return Err(GlossaryNotFound);
    }

    /** `getGlossaryInfo(glossaryId, authKey)`. */
    method GetGlossaryInfo(glossaryId: string, authKey: string, now: int) returns (r: Result<GlossaryInfo, Util.HttpError>)
      requires Valid()
      modifies this
      ensures Valid()
      ensures old(Owns(glossaryId, authKey)) ==>
        && r == Ok(ExtractInfo(old(glossaries.entries[glossaryId])))
        && glossaries == old(glossaries).Put(glossaryId, old(glossaries.entries[glossaryId]).(used := now))
      ensures !old(Owns(glossaryId, authKey)) ==> r == Err(GlossaryNotFound) && glossaries == old(glossaries)
    {
      var g := GetGlossary(glossaryId, authKey, now);
      if g.Err? {
        return Err(g.error);
      }
      return Ok(ExtractInfo(g.value));
    }

    /** `getGlossaryInfoList(authKey)`: the caller's glossaries, in creation order. */
    method GetGlossaryInfoList(authKey: string) returns (r: seq<GlossaryInfo>)
      requires Valid()
      ensures r == Ownership.OwnedInfos(glossaries, OwnerOf, authKey, ExtractInfo, |glossaries.keys|)
    {
      r := Ownership.CollectOwned(glossaries, OwnerOf, authKey, ExtractInfo);
    }

    /**
     * `getDictionaryEntries(glossaryId, sourceLang, targetLang, authKey)`:
     * the first dictionary whose pair matches ignoring case, as TSV. An
     * unknown glossary, an unsupported pair and a missing dictionary are
     * three different errors, checked in that order.
     */
    method GetDictionaryEntries(glossaryId: string, sourceLang: string, targetLang: string, authKey: string,
                                supported: PairCheck, now: int) returns (r: Result<seq<DictionaryEntries>, Util.HttpError>)
      requires Valid()
      modifies this
      ensures Valid()
      ensures !old(Owns(glossaryId, authKey)) ==> r == Err(GlossaryNotFound) && glossaries == old(glossaries)
      ensures old(Owns(glossaryId, authKey)) ==>
        var g := old(glossaries.entries[glossaryId]);
        var i := MatchFrom(g.dictionaries, Upper(sourceLang), Upper(targetLang), 0);
        && glossaries == old(glossaries).Put(glossaryId, g.(used := now))
        && (!supported(sourceLang, targetLang) ==> r == Err(UnsupportedPair))
        && (supported(sourceLang, targetLang) && i < 0 ==> r == Err(DictionaryNotFound))
        && (supported(sourceLang, targetLang) && i >= 0 ==>
             r == Ok([DictionaryEntries(sourceLang, targetLang, "tsv", ToTsv(g.dictionaries[i].entries))]))
    {
      var found := GetGlossary(glossaryId, authKey, now);
      if found.Err? {
        return Err(found.error);
      }
      var g := found.value;
      if !supported(sourceLang, targetLang) {
        return Err(UnsupportedPair);
      }
      var i := MatchFrom(g.dictionaries, Upper(sourceLang), Upper(targetLang), 0);
      if i < 0 {
        return Err(DictionaryNotFound);
      }
      return Ok([DictionaryEntries(sourceLang, targetLang, "tsv", ToTsv(g.dictionaries[i].entries))]);
    }

    /** `removeGlossary(glossaryId, authKey)`: deletes the caller's glossary and nothing else. */
    method RemoveGlossary(glossaryId: string, authKey: string, now: int) returns (r: Result<(), Util.HttpError>)
      requires Valid()
      modifies this
      ensures Valid()
      ensures old(Owns(glossaryId, authKey)) ==> r == Ok(()) && glossaries == old(glossaries).Delete(glossaryId)
      ensures !old(Owns(glossaryId, authKey)) ==> r == Err(GlossaryNotFound) && glossaries == old(glossaries)
    {
      var g := GetGlossary(glossaryId, authKey, now);
      if g.Err? {
        return Err(g.error);
      }
      glossaries := glossaries.Delete(glossaryId);
      return Ok(());
    }

    /**
     * `removeDictionary(glossaryId, sourceLang, targetLang, authKey)`: fails
     * when no dictionary matches the pair ignoring case; otherwise keeps only
     * the dictionaries whose source and target both differ from the pair's.
     */
    method RemoveDictionary(glossaryId: string, sourceLang: string, targetLang: string, authKey: string,
                            supported: PairCheck, now: int) returns (r: Result<(), Util.HttpError>)
      requires Valid()
      modifies this
      ensures Valid()
      ensures !old(Owns(glossaryId, authKey)) ==> r == Err(GlossaryNotFound) && glossaries == old(glossaries)
      ensures old(Owns(glossaryId, authKey)) ==>
        var g := old(glossaries.entries[glossaryId]).(used := now);
        var found := MatchFrom(g.dictionaries, Upper(sourceLang), Upper(targetLang), 0) >= 0;
        && (!supported(sourceLang, targetLang) ==> r == Err(UnsupportedPair) && glossaries == old(glossaries).Put(glossaryId, g))
        && (supported(sourceLang, targetLang) && !found ==>
             r == Err(DictionaryNotFound) && glossaries == old(glossaries).Put(glossaryId, g))
        && (supported(sourceLang, targetLang) && found ==>
             && r == Ok(())
             && glossaries == old(glossaries).Put(glossaryId,
                  g.(dictionaries := Filter(g.dictionaries, KeepIgnoringCase(sourceLang, targetLang)))))
    {
      var got := GetGlossary(glossaryId, authKey, now);
      if got.Err? {
        return Err(got.error);
      }
      var g := got.value;
      if !supported(sourceLang, targetLang) {
        return Err(UnsupportedPair);
      }
      if MatchFrom(g.dictionaries, Upper(sourceLang), Upper(targetLang), 0) < 0 {
        return Err(DictionaryNotFound);
      }
      var keep := Filter(g.dictionaries, KeepIgnoringCase(sourceLang, targetLang));
      glossaries := glossaries.Put(glossaryId, g.(dictionaries := keep));
      return Ok(());
    }

    /**
     * `patchGlossary(glossaryId, name, dictionaries, authKey)`: a non-empty
     * name is applied first and stays applied whatever follows; more than one
     * dictionary is refused; one dictionary replaces those sharing its source
     * or its target (exactly), and is appended last. An absent field of the
     * dictionary is the empty string here.
     */
    method PatchGlossary(glossaryId: string, name: string, dictionaries: seq<DictionaryInput>, authKey: string, now: int)
      returns (r: Result<GlossaryInfo, Util.HttpError>)
      requires Valid()
      modifies this
      ensures Valid()
      ensures !old(Owns(glossaryId, authKey)) ==> r == Err(GlossaryNotFound) && glossaries == old(glossaries)
      ensures old(Owns(glossaryId, authKey)) ==>
        var before := old(glossaries.entries[glossaryId]);
        var named := before.(used := now, name := if name != "" then name else before.name);
        && (|dictionaries| == 0 ==> r == Ok(ExtractInfo(named)) && glossaries == old(glossaries).Put(glossaryId, named))
        && (|dictionaries| > 1 ==> r == Err(TooManyDictionaries) && glossaries == old(glossaries).Put(glossaryId, named))
        && (|dictionaries| == 1 ==>
             var patched := PatchDictionary(named, dictionaries[0]);
             && (patched.Err? ==> r == Err(patched.error) && glossaries == old(glossaries).Put(glossaryId, named))
             && (patched.Ok? ==> r == Ok(ExtractInfo(patched.value)) && glossaries == old(glossaries).Put(glossaryId, patched.value)))
    {
      var got := GetGlossary(glossaryId, authKey, now);
      if got.Err? {
        return Err(got.error);
      }
      var g := got.value;
      if name != "" {
        g := g.(name := name);
      }
      ghost var before := old(glossaries.entries[glossaryId]);
      assert g == before.(used := now, name := if name != "" then name else before.name);
      if |dictionaries| > 1 {
        r := Err(TooManyDictionaries);
      } else if |dictionaries| == 1 {
        var patched := ApplyDictionary(g, dictionaries[0]);
        if patched.Err? {
          r := Err(patched.error);
        } else {
          g := patched.value;
          r := Ok(ExtractInfo(g));
        }
      } else {
        r := Ok(ExtractInfo(g));
      }
      glossaries := glossaries.Put(glossaryId, g);
      OrderedMaps.PutTwice(old(glossaries), glossaryId, got.value, g);
    }

    /**
     * `putDictionary(glossaryId, sourceLang, targetLang, entries, entriesFormat, authKey)`:
     * replaces the dictionaries sharing the source or the target (exactly)
     * by the new one, appended last, and reports the new one. Any format
     * other than `tsv` is read as CSV.
     */
    method PutDictionary(glossaryId: string, sourceLang: string, targetLang: string, entries: string, entriesFormat: string,
                         rows: seq<seq<string>>, authKey: string, supported: PairCheck, now: int)
      returns (r: Result<DictionaryInfo, Util.HttpError>)
      requires Valid()
      modifies this
      ensures Valid()
      ensures !old(Owns(glossaryId, authKey)) ==> r == Err(GlossaryNotFound) && glossaries == old(glossaries)
      ensures old(Owns(glossaryId, authKey)) ==>
        var g := old(glossaries.entries[glossaryId]).(used := now);
        var read := ReadEntries(entriesFormat, entries, rows, sourceLang, targetLang);
        && (!supported(sourceLang, targetLang) || read.Err? ==> glossaries == old(glossaries).Put(glossaryId, g))
        && (!supported(sourceLang, targetLang) ==> r == Err(UnsupportedPair))
        && (supported(sourceLang, targetLang) && read.Err? ==> r == Err(read.error.error))
        && (supported(sourceLang, targetLang) && read.Ok? ==>
             var added := Dictionary(sourceLang, targetLang, entriesFormat, read.value);
             && r == Ok(ExtractDictionaryInfo(added))
             && glossaries == old(glossaries).Put(glossaryId, g.(dictionaries := ReplaceDictionary(g.dictionaries, added))))
    {
      var got := GetGlossary(glossaryId, authKey, now);
      if got.Err? {
        return Err(got.error);
      }
      var g := got.value;
      if !supported(sourceLang, targetLang) {
        return Err(UnsupportedPair);
      }
      var read := ReadEntriesOf(entriesFormat, entries, rows, sourceLang, targetLang);
      if read.Err? {
        return Err(read.error.error);
      }
      var added := Dictionary(sourceLang, targetLang, entriesFormat, read.value);
      glossaries := glossaries.Put(glossaryId, g.(dictionaries := ReplaceDictionary(g.dictionaries, added)));
      return Ok(ExtractDictionaryInfo(added));
    }

    /** The periodic sweep: glossaries idle for more than ten minutes are dropped. */
    method Sweep(now: int)
      requires Valid()
      modifies this
      ensures Valid()
      ensures glossaries == Util.Swept(old(glossaries), (g: Glossary) => g.used, now, Util.LifetimeMs)
    {
      var evicted;
      glossaries, evicted := Util.Cleanup(glossaries, (g: Glossary) => g.used, now, Util.LifetimeMs);
    }
  }

  /**
   * After a put, the new dictionary is the last one and the only one left
   * with its source or its target; every other dictionary kept shares
   * neither language with it.
   */
  lemma PutLeavesOneDictionaryPerLanguage(ds: seq<Dictionary>, added: Dictionary)
    ensures var after := ReplaceDictionary(ds, added);
      && |after| >= 1 && after[|after| - 1] == added
      && forall i | 0 <= i < |after| - 1 ::
           after[i] in ds && after[i].sourceLang != added.sourceLang && after[i].targetLang != added.targetLang
  {
    var kept := Filter(ds, KeepExact(added.sourceLang, added.targetLang));
    FilterMembers(ds, KeepExact(added.sourceLang, added.targetLang));
    var after := kept + [added];
    forall i | 0 <= i < |after| - 1
      ensures after[i] in ds && after[i].sourceLang != added.sourceLang && after[i].targetLang != added.targetLang
    {
      assert after[i] == kept[i] && kept[i] in kept;
    }
  }
}
