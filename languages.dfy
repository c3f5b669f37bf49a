/**
 * languages.js: the table of supported languages, the predicates over it,
 * source-language detection and the placeholder translator, which replaces
 * every non-empty line by a fixed text of the target language unless a
 * glossary knows the line.
 */
module Languages {
  import opened Wrappers
  import opened JsStrings

  /** Which side of a translation a language may be on (`type`). */
  datatype Kind = SourceOnly | TargetOnly | Both

  /** One row of the table. `name`, `source_name` and `target_name` may each be absent. */
  datatype Language = Language(
    code: string,
    kind: Kind,
    name: Option<string>,
    sourceName: Option<string>,
    targetName: Option<string>,
    formality: bool,
    text: Line)

  /** A string without a line break. */
  type Line = s: string | '\n' !in s witness ""

  function Plain(code: string, name: string, kind: Kind, text: Line): Language {
    Language(code, kind, Some(name), None, None, false, text)
  }

  function Formal(code: string, name: string, kind: Kind, text: Line): Language {
    Language(code, kind, Some(name), None, None, true, text)
  }

  /** The fixed text each language translates to; Danish and Swedish share one. */
  const BgText: Line := "протонен лъч"
  const CsText: Line := "protonový paprsek"
  const DaText: Line := "protonstråle"
  const DeText: Line := "Protonenstrahl"
  const ElText: Line := "δέσμη πρωτονίων"
  const EnText: Line := "proton beam"
  const EsText: Line := "haz de protones"
  const EtText: Line := "prootonikiirgus"
  const FiText: Line := "protonisäde"
  const FrText: Line := "faisceau de protons"
  const HuText: Line := "protonnyaláb"
  const ItText: Line := "fascio di protoni"
  const JaText: Line := "陽子ビーム"
  const LtText: Line := "protonų spindulys"
  const LvText: Line := "protonu staru kūlis"
  const NlText: Line := "protonenbundel"
  const PlText: Line := "wiązka protonów"
  const PtText: Line := "feixe de prótons"
  const RoText: Line := "fascicul de protoni"
  const RuText: Line := "протонный луч"
  const SkText: Line := "protónový lúč"
  const SlText: Line := "protonski žarek"
  const ZhText: Line := "质子束"

  /** The `languages` map, in insertion order. */
  const Table: seq<Language> := [
    Plain("BG", "Bulgarian", Both, BgText),
    Plain("CS", "Czech", Both, CsText),
    Plain("DA", "Danish", Both, DaText),
    Formal("DE", "German", Both, DeText),
    Plain("EL", "Greek", Both, ElText),
    Plain("EN", "English", SourceOnly, EnText),
    Plain("EN-GB", "English (British)", TargetOnly, EnText),
    Plain("EN-US", "English (American)", TargetOnly, EnText),
    Formal("ES", "Spanish", Both, EsText),
    Plain("ET", "Estonian", Both, EtText),
    Plain("FI", "Finnish", Both, FiText),
    Formal("FR", "French", Both, FrText),
    Plain("HU", "Hungarian", Both, HuText),
    Formal("IT", "Italian", Both, ItText),
    Plain("JA", "Japanese", Both, JaText),
    Plain("LT", "Lithuanian", Both, LtText),
    Plain("LV", "Latvian", Both, LvText),
    Formal("NL", "Dutch", Both, NlText),
    Formal("PL", "Polish", Both, PlText),
    Plain("PT", "Portuguese", SourceOnly, PtText),
    Formal("PT-BR", "Portuguese (Brazilian)", TargetOnly, PtText),
    Formal("PT-PT", "Portuguese (European)", TargetOnly, PtText),
    Plain("RO", "Romanian", Both, RoText),
    Formal("RU", "Russian", Both, RuText),
    Plain("SK", "Slovak", Both, SkText),
    Plain("SL", "Slovenian", Both, SlText),
    Plain("SV", "Swedish", Both, DaText),
    Language("ZH", Both, None, Some("Chinese"), Some("Chinese (simplified)"), false, ZhText)
  ]

  /** `languages.get(code)`: the first row from `i` on with that exact code. */
  function FindFrom(t: seq<Language>, code: string, i: nat): Option<Language>
    requires i <= |t|
    decreases |t| - i
  {
    if i == |t| then None
    else if t[i].code == code then Some(t[i])
    else FindFrom(t, code, i + 1)
  }

  function Find(t: seq<Language>, code: string): Option<Language> {
    FindFrom(t, code, 0)
  }

  /** The row found is the first with the code. */
  lemma {:induction false} FindFromFirst(t: seq<Language>, code: string, i: nat, k: nat)
    requires i <= k < |t| && t[k].code == code
    requires forall j | i <= j < k :: t[j].code != code
    ensures FindFrom(t, code, i) == Some(t[k])
    decreases k - i
  {
    if i < k {
      FindFromFirst(t, code, i + 1, k);
    }
  }

  /** `languages.has(code)`. */
  predicate Known(code: string) {
    Find(Table, code).Some?
  }

  predicate IsSourceKind(k: Kind) {
    k == SourceOnly || k == Both
  }

  predicate IsTargetKind(k: Kind) {
    k == TargetOnly || k == Both
  }

  /** `isSourceLanguage(langCode)`: an absent code means auto-detection and is accepted. */
  function IsSourceLanguage(code: Option<string>): (r: bool)
    ensures code.None? ==> r
  {
    match code
    case None => true
    case Some(c) =>
      var row := Find(Table, Upper(c));
      row.Some? && IsSourceKind(row.value.kind)
  }

  /** `isTargetLanguage(langCode)`: an absent code is refused. */
  function IsTargetLanguage(code: Option<string>): (r: bool)
    ensures code.None? ==> !r
  {
    match code
    case None => false
    case Some(c) =>
      var row := Find(Table, Upper(c));
      row.Some? && IsTargetKind(row.value.kind)
  }

  /** `isGlossaryLanguage(langCode)`. */
  function IsGlossaryLanguage(code: string): (r: bool)
    ensures r <==> Upper(code) in {"EN", "DE", "FR", "ES"}
  {
    Upper(code) in ["EN", "DE", "FR", "ES"]
  }

  /** `supportsFormality(langCode)`. */
  function SupportsFormality(code: Option<string>): (r: bool)
    ensures code.None? ==> !r
  {
    match code
    case None => false
    case Some(c) =>
      var row := Find(Table, Upper(c));
      row.Some? && row.value.formality
  }

  /** A code each predicate accepts is, upper-cased, a row of the table. */
  lemma AcceptedCodesAreKnown(code: string)
    ensures IsSourceLanguage(Some(code)) ==> Known(Upper(code))
    ensures IsTargetLanguage(Some(code)) ==> Known(Upper(code))
    ensures SupportsFormality(Some(code)) ==> Known(Upper(code))
  {
  }

  /** Upper-casing twice is upper-casing once. */
  lemma UpperIdempotent(s: string)
    ensures Upper(Upper(s)) == Upper(s)
  {
  }

  /** The predicates ignore the case of the code. */
  lemma PredicatesIgnoreCase(code: string)
    ensures IsSourceLanguage(Some(code)) == IsSourceLanguage(Some(Upper(code)))
    ensures IsTargetLanguage(Some(code)) == IsTargetLanguage(Some(Upper(code)))
    ensures SupportsFormality(Some(code)) == SupportsFormality(Some(Upper(code)))
  {
    UpperIdempotent(code);
  }

  /** An upper-case code found at row `i` gets the predicates' answers from that row. */
  lemma RowAnswers(code: string, i: nat)
    requires i < |Table| && Table[i].code == code && Upper(code) == code
    requires forall j | 0 <= j < i :: Table[j].code != code
    ensures IsSourceLanguage(Some(code)) == IsSourceKind(Table[i].kind)
    ensures IsTargetLanguage(Some(code)) == IsTargetKind(Table[i].kind)
    ensures SupportsFormality(Some(code)) == Table[i].formality
  {
    FindFromFirst(Table, code, 0, i);
  }

  /** English is source-only; its regional variants are target-only. */
  lemma EnglishVariants()
    ensures IsSourceLanguage(Some("EN")) && !IsTargetLanguage(Some("EN"))
    ensures IsTargetLanguage(Some("EN-GB")) && !IsSourceLanguage(Some("EN-GB"))
    ensures IsTargetLanguage(Some("EN-US")) && !IsSourceLanguage(Some("EN-US"))
  {
    RowAnswers("EN", 5);
    RowAnswers("EN-GB", 6);
    RowAnswers("EN-US", 7);
  }

  /** Portuguese is source-only; its regional variants are target-only and support formality. */
  lemma PortugueseVariants()
    ensures IsSourceLanguage(Some("PT")) && !IsTargetLanguage(Some("PT"))
    ensures IsTargetLanguage(Some("PT-BR")) && !IsSourceLanguage(Some("PT-BR")) && SupportsFormality(Some("PT-BR"))
    ensures IsTargetLanguage(Some("PT-PT")) && !IsSourceLanguage(Some("PT-PT")) && SupportsFormality(Some("PT-PT"))
  {
    RowAnswers("PT", 19);
    RowAnswers("PT-BR", 20);
    RowAnswers("PT-PT", 21);
  }

  /** One entry of `getSourceLanguages()`. */
  datatype SourceLanguageInfo = SourceLanguageInfo(language: string, name: Option<string>)

  /** One entry of `getTargetLanguages()`. */
  datatype TargetLanguageInfo = TargetLanguageInfo(language: string, name: Option<string>, supportsFormality: bool)

  /** `a ?? b`. */
  function Coalesce(a: Option<string>, b: Option<string>): Option<string> {
    if a.Some? then a else b
  }

  function SourceInfo(l: Language): SourceLanguageInfo {
    SourceLanguageInfo(l.code, Coalesce(l.sourceName, l.name))
  }

  function TargetInfo(l: Language): TargetLanguageInfo {
    TargetLanguageInfo(l.code, Coalesce(l.targetName, l.name), l.formality)
  }

  /** The source-language list of the rows `t`: those of a source kind, in table order. */
  function SourceList(t: seq<Language>): seq<SourceLanguageInfo> {
    if t == [] then []
    else SourceList(t[..|t| - 1]) + (if IsSourceKind(t[|t| - 1].kind) then [SourceInfo(t[|t| - 1])] else [])
  }

  /** The target-language list of the rows `t`: those of a target kind, in table order. */
  function TargetList(t: seq<Language>): seq<TargetLanguageInfo> {
    if t == [] then []
    else TargetList(t[..|t| - 1]) + (if IsTargetKind(t[|t| - 1].kind) then [TargetInfo(t[|t| - 1])] else [])
  }

  /** `getSourceLanguages()`: walks the table and collects the source languages. */
  method GetSourceLanguages() returns (r: seq<SourceLanguageInfo>)
    ensures r == SourceList(Table)
  {
    r := [];
    for i := 0 to |Table|
      invariant r == SourceList(Table[..i])
    {
      assert Table[..i + 1][..i] == Table[..i];
      if IsSourceKind(Table[i].kind) {
        r := r + [SourceInfo(Table[i])];
      }
    }
    assert Table[..|Table|] == Table;
  }

  /** `getTargetLanguages()`: walks the table and collects the target languages. */
  method GetTargetLanguages() returns (r: seq<TargetLanguageInfo>)
    ensures r == TargetList(Table)
  {
    r := [];
    for i := 0 to |Table|
      invariant r == TargetList(Table[..i])
    {
      assert Table[..i + 1][..i] == Table[..i];
      if IsTargetKind(Table[i].kind) {
        r := r + [TargetInfo(Table[i])];
      }
    }
    assert Table[..|Table|] == Table;
  }

  /** The source list holds exactly the rows of a source kind, each named by `source_name ?? name`. */
  lemma {:induction false} SourceListMembers(t: seq<Language>)
    ensures forall l | l in t && IsSourceKind(l.kind) :: SourceInfo(l) in SourceList(t)
    ensures forall x | x in SourceList(t) :: exists l | l in t :: IsSourceKind(l.kind) && x == SourceInfo(l)
  {
    if t != [] {
      SourceListMembers(t[..|t| - 1]);
      assert t == t[..|t| - 1] + [t[|t| - 1]];
    }
  }

  /** The target list holds exactly the rows of a target kind, each named by `target_name ?? name`. */
  lemma {:induction false} TargetListMembers(t: seq<Language>)
    ensures forall l | l in t && IsTargetKind(l.kind) :: TargetInfo(l) in TargetList(t)
    ensures forall x | x in TargetList(t) :: exists l | l in t :: IsTargetKind(l.kind) && x == TargetInfo(l)
  {
    if t != [] {
      TargetListMembers(t[..|t| - 1]);
      assert t == t[..|t| - 1] + [t[|t| - 1]];
    }
  }

  /** A glossary as the translator consults it: the target for a line, if it has one (`null` otherwise). */
  type Glossary = string -> Option<string>

  /**
   * `translateLine(input, targetLang, glossary)`: an empty line stays empty;
   * a non-empty glossary hit wins; anything else becomes the target's text.
   */
  function TranslateLine(input: string, target: string, glossary: Option<Glossary>): (r: string)
    requires Known(target)
    ensures input == "" ==> r == ""
    ensures input != "" && glossary.Some? && glossary.value(input).Some? && glossary.value(input).value != "" ==>
      r == glossary.value(input).value
    ensures input != "" && (glossary.None? || glossary.value(input).None? || glossary.value(input).value == "") ==>
      r == Find(Table, target).value.text
  {
    if input == "" then ""
    else if glossary.Some? && glossary.value(input).Some? && glossary.value(input).value != "" then glossary.value(input).value
    else Find(Table, target).value.text
  }

  /** The text of `translate`: each `\n`-separated line translated on its own, joined back. */
  function TranslateText(input: string, target: string, glossary: Option<Glossary>): string
    requires Known(target)
  {
    var lines := Split(input, '\n');
    Join(seq(|lines|, i requires 0 <= i < |lines| => TranslateLine(lines[i], target, glossary)), '\n')
  }

  /**
   * When the glossary's targets hold no line break, the translation has as
   * many lines as the input.
   */
  lemma TranslatePreservesLineCount(input: string, target: string, glossary: Option<Glossary>)
    requires Known(target)
    requires glossary.Some? ==> forall s :: glossary.value(s).Some? ==> '\n' !in glossary.value(s).value
    ensures |Split(TranslateText(input, target, glossary), '\n')| == |Split(input, '\n')|
  {
    var lines := Split(input, '\n');
    var out := seq(|lines|, i requires 0 <= i < |lines| => TranslateLine(lines[i], target, glossary));
    assert forall i | 0 <= i < |out| :: '\n' !in out[i];
    SplitJoin(out, '\n');
  }

  /** The code of the first row whose text starts the input, or `"EN"` when none does. */
  function FirstPrefixCode(input: string, t: seq<Language>): (r: string)
    ensures r == "EN" || exists i | 0 <= i < |t| :: r == t[i].code && StartsWith(input, t[i].text)
    ensures forall i | 0 <= i < |t| && StartsWith(input, t[i].text) ::
      exists j | 0 <= j <= i :: r == t[j].code && StartsWith(input, t[j].text)
  {
    if t == [] then "EN"
    else if StartsWith(input, t[0].text) then t[0].code
    else
      var r := FirstPrefixCode(input, t[1..]);
      assert forall i | 1 <= i < |t| :: t[1..][i - 1] == t[i];
      r
  }

  /** The result of `translate`. An absent detected language stays absent. */
  datatype Translation = Translation(detectedSourceLanguage: Option<string>, text: string)

  /** Whether `translate` detects the source: no source (or an empty one) and no glossary. */
  predicate Detects(source: Option<string>, glossary: Option<Glossary>) {
    (source.None? || source.value == "") && glossary.None?
  }

  /**
   * `translate(input, targetLang, sourceLang, glossary)`: detects the source
   * language by scanning the table when there is neither a source language
   * nor a glossary, then translates line by line.
   */
  method Translate(input: string, target: string, source: Option<string>, glossary: Option<Glossary>)
    returns (r: Translation)
    requires Known(target)
    ensures r.text == TranslateText(input, target, glossary)
    ensures Detects(source, glossary) ==> r.detectedSourceLanguage == Some(FirstPrefixCode(input, Table))
    ensures !Detects(source, glossary) ==> r.detectedSourceLanguage == source
  {
    var detected := source;
    if Detects(source, glossary) {
      var code := "EN";
      var i := 0;
      while i < |Table|
        invariant 0 <= i <= |Table|
        invariant FirstPrefixCode(input, Table[i..]) == FirstPrefixCode(input, Table)
      {
        if StartsWith(input, Table[i].text) {
          code := Table[i].code;
          break;
        }
        assert Table[i..][1..] == Table[i + 1..];
        i := i + 1;
      }
      detected := Some(code);
    }
    r := Translation(detected, TranslateText(input, target, glossary));
  }
}
