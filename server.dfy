/**
 * index.js: the logic of the text and document translation handlers. The
 * parameters are read in a fixed order, a test session can force `429`
 * answers, and the quota ledger is charged before any work is done.
 */
module Server {
  import opened Wrappers
  import opened Requests
  import JsStrings
  import Quota
  import Sessions
  import Languages
  import Documents
  import OrderedMaps

  /** A single-value validator sees a string or nothing; a list never reaches it. */
  function AsOption(v: Value): Option<string> {
    match v
    case Str(s) => Some(s)
    case _ => None
  }

  function TargetValidator(v: Value): Verdict {
    if Languages.IsTargetLanguage(AsOption(v)) then Accept else Refuse
  }

  function SourceValidator(v: Value): Verdict {
    if Languages.IsSourceLanguage(AsOption(v)) then Accept else Refuse
  }

  /** `target_lang`: upper-cased, and a target language. */
  const TargetOptions: Options := Options(false, false, None, false, true, Some(TargetValidator), None)

  /** `source_lang`: upper-cased, and absent or a source language. */
  const SourceOptions: Options := Options(false, false, None, false, true, Some(SourceValidator), None)

  /** `text`: one or more texts. */
  const TextOptions: Options := Options(true, true, None, false, false, None, None)

  /** The parameters validated but not used: name, default and allowed values. */
  const UnusedParams: seq<(string, string, seq<string>)> :=
    [("formality", "default", ["less", "more", "default"]), ("tag_handling", "xml", ["xml"]), ("outline_detection", "0", ["0"])]

  /** The language pair of a request. */
  datatype LanguagePair = LanguagePair(target: string, source: Option<string>)

  /** `target_lang` then `source_lang`, as both handlers read them. */
  function ReadLanguages(req: Request): (r: Result<LanguagePair, string>)
    ensures r.Ok? ==> Languages.Known(r.value.target)
    ensures r.Ok? ==> r.value.source.None? || Languages.IsSourceLanguage(r.value.source)
  {
    var target := GetParam(req, "target_lang", TargetOptions);
    if target.Err? then Err(target.error)
    else
      var source := GetParam(req, "source_lang", SourceOptions);
      if source.Err? then Err(source.error)
      else
        assert TargetValidator(target.value) == Accept;
        TargetIsKnown(req);
        Ok(LanguagePair(target.value.s, AsOption(source.value)))
  }

  /** An accepted target is an upper-case code of the table. */
  lemma TargetIsKnown(req: Request)
    requires GetParam(req, "target_lang", TargetOptions).Ok?
    ensures var t := GetParam(req, "target_lang", TargetOptions).value;
      t.Str? && Languages.Known(t.s)
  {
    var v := Lookup(if req.isGet then req.query else req.body, "target_lang");
    var t := GetParam(req, "target_lang", TargetOptions).value;
    assert TargetValidator(t) == Accept;
    var x: string;
    if v.Strs? && v.items != [] {
      x := v.items[0];
    } else if v.Str? {
      x := v.s;
    } else {
      x := "";
    }
    assert t == Str(JsStrings.Upper(x));
    Languages.AcceptedCodesAreKnown(t.s);
    Languages.UpperIdempotent(x);
  }

  /** The three parameters checked against their allowed values, from `i` on. */
  function CheckUnused(req: Request, i: nat): (r: Result<(), string>)
    requires i <= |UnusedParams|
    decreases |UnusedParams| - i
  {
    if i == |UnusedParams| then Ok(())
    else
      var (name, default, allowed) := UnusedParams[i];
      var v := GetParam(req, name, Options(false, false, Some(default), false, false, None, Some(allowed)));
      if v.Err? then Err(v.error) else CheckUnused(req, i + 1)
  }

  /** The parameters of a text translation. */
  datatype TranslateParams = TranslateParams(languages: LanguagePair, texts: seq<string>)

  /**
   * The parameters of `handle_translate`, read in order: `target_lang`,
   * `source_lang`, `text`, then `formality`, `tag_handling` and
   * `outline_detection`; the first failure is the answer.
   */
  function ReadTranslateParams(req: Request): (r: Result<TranslateParams, string>)
    ensures r.Ok? ==> Languages.Known(r.value.languages.target) && |r.value.texts| >= 1
    ensures ReadLanguages(req).Err? ==> r == Err(ReadLanguages(req).error)
  {
    var pair := ReadLanguages(req);
    if pair.Err? then Err(pair.error)
    else
      var text := GetParam(req, "text", TextOptions);
      if text.Err? then Err(text.error)
      else
        var unused := CheckUnused(req, 0);
        if unused.Err? then Err(unused.error)
        else Ok(TranslateParams(pair.value, text.value.items))
  }

  /** `textArray.reduce((total, text) => total + text.length, 0)`: the UTF-16 length of all texts. */
  function TotalCharacters(texts: seq<string>): nat {
    if texts == [] then 0 else TotalCharacters(texts[..|texts| - 1]) + JsStrings.Utf16Length(texts[|texts| - 1])
  }

  /** The charge of a request is the sum of the charges of its parts. */
  lemma {:induction false} TotalCharactersAppend(a: seq<string>, b: seq<string>)
    ensures TotalCharacters(a + b) == TotalCharacters(a) + TotalCharacters(b)
  {
    if b == [] {
      assert a + b == a;
    } else {
      var init := b[..|b| - 1];
      TotalCharactersAppend(a, init);
      assert (a + b)[..|a + b| - 1] == a + init;
    }
  }

  /** No single text of a request is charged more than the whole request. */
  lemma {:induction false} TotalCharactersBounds(texts: seq<string>)
    ensures forall i | 0 <= i < |texts| :: JsStrings.Utf16Length(texts[i]) <= TotalCharacters(texts)
  {
    if texts != [] {
      var init := texts[..|texts| - 1];
      TotalCharactersBounds(init);
      forall i | 0 <= i < |texts| ensures JsStrings.Utf16Length(texts[i]) <= TotalCharacters(texts) {
        if i < |init| {
          assert texts[i] == init[i];
        }
      }
    }
  }

  /** `languages.translate(text, target_lang, source_lang)` without a glossary, as a value. */
  function TranslationOf(text: string, languages: LanguagePair): Languages.Translation
    requires Languages.Known(languages.target)
  {
    Languages.Translation(
      if Languages.Detects(languages.source, None) then Some(Languages.FirstPrefixCode(text, Languages.Table)) else languages.source,
      Languages.TranslateText(text, languages.target, None))
  }

  /** What `handle_translate` answers. */
  datatype TranslateResponse =
    | BadRequest(message: string)
    | TooManyRequests
    | QuotaExceeded
    | Translated(translations: seq<Languages.Translation>)

  /**
   * `handle_translate`: a parameter error is a 400 and changes nothing; a
   * session with `429` answers left consumes one and no quota; otherwise the
   * character quota is charged with the total length, and only then are the
   * texts translated, one translation per text.
   */
  method HandleTranslate(req: Request, usage: Quota.Usage, session: Sessions.Fields)
    returns (response: TranslateResponse, after: Sessions.Fields)
    modifies usage
    ensures var params := ReadTranslateParams(req);
      && (params.Err? ==> response == BadRequest(params.error) && after == session && usage.counters == old(usage.counters))
      && (params.Ok? && Sessions.Positive(session, Sessions.Respond429Count) ==>
           && response == TooManyRequests
           && after == Sessions.CountDown(session, Sessions.Respond429Count)
           && usage.counters == old(usage.counters))
      && (params.Ok? && !Sessions.Positive(session, Sessions.Respond429Count) ==>
           && after == session
           && (response.QuotaExceeded? || response.Translated?)
           && Quota.Charged(response.Translated?, usage.counters)
              == Quota.Charge(old(usage.counters), Quota.Character, TotalCharacters(params.value.texts)))
      && (response.Translated? ==>
           params.Ok? && response.translations == TranslationsOf(params.value.texts, params.value.languages))
  {
    var params := ReadTranslateParams(req);
    if params.Err? {
      return BadRequest(params.error), session;
    }
    var languages := params.value.languages;
    var texts := params.value.texts;
    var totalCharacters := TotalCharacters(texts);
    if Sessions.Positive(session, Sessions.Respond429Count) {
      return TooManyRequests, Sessions.CountDown(session, Sessions.Respond429Count);
    }
    after := session;
    var ok := usage.CheckLimit(Quota.Character, totalCharacters);
    if !ok {
      return QuotaExceeded, after;
    }
    var translations := TranslateAll(texts, languages);
    response := Translated(translations);
  }

  /** The translations of `texts`, in order. */
  function TranslationsOf(texts: seq<string>, languages: LanguagePair): seq<Languages.Translation>
    requires Languages.Known(languages.target)
  {
    if texts == [] then []
    else TranslationsOf(texts[..|texts| - 1], languages) + [TranslationOf(texts[|texts| - 1], languages)]
  }

  /** One translation per text, each of its own text. */
  lemma {:induction false} TranslationsOfEach(texts: seq<string>, languages: LanguagePair)
    requires Languages.Known(languages.target)
    ensures |TranslationsOf(texts, languages)| == |texts|
    ensures forall i | 0 <= i < |texts| :: TranslationsOf(texts, languages)[i] == TranslationOf(texts[i], languages)
  {
    if texts != [] {
      var init := texts[..|texts| - 1];
      TranslationsOfEach(init, languages);
      var all := TranslationsOf(texts, languages);
      var before := TranslationsOf(init, languages);
      assert all == before + [TranslationOf(texts[|texts| - 1], languages)];
      forall i | 0 <= i < |init| ensures all[i] == TranslationOf(texts[i], languages) {
        assert all[i] == before[i] && texts[i] == init[i];
      }
    }
  }

  /** `textArray.map((text) => languages.translate(text, target_lang, source_lang))`. */
  method TranslateAll(texts: seq<string>, languages: LanguagePair) returns (translations: seq<Languages.Translation>)
    requires Languages.Known(languages.target)
    ensures translations == TranslationsOf(texts, languages)
  {
    translations := [];
    for i := 0 to |texts|
      invariant translations == TranslationsOf(texts[..i], languages)
    {
      var t := Languages.Translate(texts[i], languages.target, languages.source, None);
      assert texts[..i + 1][..i] == texts[..i];
      translations := translations + [t];
    }
    assert texts[..|texts|] == texts;
  }


  /** What `handle_document` answers. */
  datatype DocumentResponse =
    | DocumentBadRequest(message: string)
    | DocumentQuotaExceeded
    | DocumentRefused(status: int, message: string)
    | Uploaded(documentId: string, documentKey: string)

  /**
   * `handle_document`: the language pair is read first and the file must be
   * present; the rest is `Upload`.
   */
  method HandleDocument(req: Request, file: Option<Documents.File>, authKey: string, usage: Quota.Usage,
                        store: Documents.DocumentStore, session: Sessions.Fields,
                        idDraws: seq<nat>, keyDraws: seq<nat>, now: int)
    returns (response: DocumentResponse, after: Sessions.Fields)
    requires store.Valid()
    requires |idDraws| >= 32 && forall i | 0 <= i < |idDraws| :: idDraws[i] < 16
    requires |keyDraws| >= 64 && forall i | 0 <= i < |keyDraws| :: keyDraws[i] < 16
    modifies usage, store
    ensures store.Valid()
    ensures ReadLanguages(req).Err? ==> response == DocumentBadRequest(ReadLanguages(req).error)
    ensures ReadLanguages(req).Ok? && file.None? ==> response == DocumentBadRequest(Documents.InvalidFile.message)
    ensures ReadLanguages(req).Err? || file.None? ==>
      && usage.counters == old(usage.counters) && after == session
      && store.documents == old(store.documents) && store.artifacts == old(store.artifacts)
    ensures ReadLanguages(req).Ok? && file.Some? ==>
      && !response.DocumentBadRequest?
      && Quota.Charged(!response.DocumentQuotaExceeded?, usage.counters) == Quota.DocumentCharge(old(usage.counters), file.value.size)
    ensures ReadLanguages(req).Ok? && file.Some? && !response.Uploaded? ==>
      after == session && store.documents == old(store.documents) && store.artifacts == old(store.artifacts)
    ensures ReadLanguages(req).Ok? && file.Some? && !response.DocumentQuotaExceeded? ==>
      var extension := JsStrings.Lower(Documents.ExtName(file.value.name));
      && (extension !in Documents.Extensions ==> response == DocumentRefused(400, Documents.InvalidFile.message))
      && (extension in Documents.Extensions && extension != ".txt" ==>
            response == DocumentRefused(503, Documents.OnlyTxt.message))
      && (extension == ".txt" ==> response.Uploaded?)
    ensures ReadLanguages(req).Ok? && file.Some? && response.Uploaded? ==>
      var languages := ReadLanguages(req).value;
      var id := response.documentId;
      var d := Documents.Document(id, response.documentKey, "./documents/" + id, None, file.value.name,
                                  file.value.mimetype, now, now, authKey, languages.source, languages.target,
                                  file.value.size, Documents.Queued, None, None);
      && |id| == 32 && Documents.IsHex(id) && |response.documentKey| == 64 && Documents.IsHex(response.documentKey)
      && (Sessions.Positive(session, Sessions.DocFailure) ==>
           && after == Sessions.CountDown(session, Sessions.DocFailure)
           && store.documents == old(store.documents).Put(id, d.(error := Some(Documents.ErrorMessage)))
           && store.artifacts == old(store.artifacts) - {d.pathIn})
      && (!Sessions.Positive(session, Sessions.DocFailure) ==>
           && after == session
           && store.documents == old(store.documents).Put(id, d.(pathOut := Some(d.pathIn + ".result")))
           && store.artifacts == (old(store.artifacts) + {d.pathIn + ".result"}) - {d.pathIn})
  {
    after := session;
    var pair := ReadLanguages(req);
    if pair.Err? {
      return DocumentBadRequest(pair.error), after;
    }
    if file.None? {
      return DocumentBadRequest(Documents.InvalidFile.message), after;
    }
    response, after := Upload(pair.value, file.value, authKey, usage, store, session, idDraws, keyDraws, now);
  }

  /**
   * The upload once the file is present: the character, document and team
   * document quotas are charged in turn, and only then is the extension
   * checked, so a refused file has already been charged. An accepted file
   * is stored, answered with its id and key, and translated at once (or
   * failed, while the session asks for failures).
   */
  method Upload(languages: LanguagePair, file: Documents.File, authKey: string, usage: Quota.Usage,
                store: Documents.DocumentStore, session: Sessions.Fields,
                idDraws: seq<nat>, keyDraws: seq<nat>, now: int)
    returns (response: DocumentResponse, after: Sessions.Fields)
    requires store.Valid()
    requires |idDraws| >= 32 && forall i | 0 <= i < |idDraws| :: idDraws[i] < 16
    requires |keyDraws| >= 64 && forall i | 0 <= i < |keyDraws| :: keyDraws[i] < 16
    modifies usage, store
    ensures store.Valid()
    ensures !response.DocumentBadRequest?
    ensures Quota.Charged(!response.DocumentQuotaExceeded?, usage.counters) == Quota.DocumentCharge(old(usage.counters), file.size)
    ensures !response.Uploaded? ==>
      after == session && store.documents == old(store.documents) && store.artifacts == old(store.artifacts)
    ensures !response.DocumentQuotaExceeded? ==>
      var extension := JsStrings.Lower(Documents.ExtName(file.name));
      && (extension !in Documents.Extensions ==> response == DocumentRefused(400, Documents.InvalidFile.message))
      && (extension in Documents.Extensions && extension != ".txt" ==>
            response == DocumentRefused(503, Documents.OnlyTxt.message))
      && (extension == ".txt" ==> response.Uploaded?)
    ensures response.Uploaded? ==>
      var id := response.documentId;
      var d := Documents.Document(id, response.documentKey, "./documents/" + id, None, file.name,
                                  file.mimetype, now, now, authKey, languages.source, languages.target,
                                  file.size, Documents.Queued, None, None);
      && |id| == 32 && Documents.IsHex(id) && |response.documentKey| == 64 && Documents.IsHex(response.documentKey)
      && (Sessions.Positive(session, Sessions.DocFailure) ==>
           && after == Sessions.CountDown(session, Sessions.DocFailure)
           && store.documents == old(store.documents).Put(id, d.(error := Some(Documents.ErrorMessage)))
           && store.artifacts == old(store.artifacts) - {d.pathIn})
      && (!Sessions.Positive(session, Sessions.DocFailure) ==>
           && after == session
           && store.documents == old(store.documents).Put(id, d.(pathOut := Some(d.pathIn + ".result")))
           && store.artifacts == (old(store.artifacts) + {d.pathIn + ".result"}) - {d.pathIn})
  {
    after := session;
    var ok := usage.CheckDocumentLimits(file.size);
    if !ok {
      return DocumentQuotaExceeded, after;
    }
    var created := store.CreateDocument(file, authKey, languages.target, languages.source, idDraws, keyDraws, now);
    if created.Err? {
      return DocumentRefused(created.error.status, created.error.message), after;
    }
    var document := created.value;
    response := Uploaded(document.id, document.key);
    after := store.TranslateDocument(document.id, session);
    OrderedMaps.PutTwice(old(store.documents), document.id, document, store.documents.entries[document.id]);
  }
}
