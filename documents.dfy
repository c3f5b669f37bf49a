/**
 * documents.js: the document translation lifecycle. An uploaded `.txt` file
 * is stored under a random id and key, translated at once (or failed on
 * request of the test session), and reports a status derived from its age
 * and the session's queue and translation delays. Files on disk are an
 * abstract set of existing paths.
 */
module Documents {
  import opened Wrappers
  import opened OrderedMaps
  import opened JsStrings
  import Util
  import Sessions

  /** The alphabet of `generateRandomHexString`. */
  const HexDigits: string := "0123456789ABCDEF"

  predicate IsHex(s: string) {
    forall i | 0 <= i < |s| :: s[i] in HexDigits
  }

  /**
   * `generateRandomHexString(length)`. `draws` are the successive values of
   * `Math.floor(Math.random() * 16)`, each below 16.
   */
  method GenerateRandomHexString(length: nat, draws: seq<nat>) returns (output: string)
    requires |draws| >= length && forall i | 0 <= i < |draws| :: draws[i] < 16
    ensures |output| == length && IsHex(output)
    ensures forall i | 0 <= i < length :: output[i] == HexDigits[draws[i]]
  {
    output := "";
    for i := 0 to length
      invariant |output| == i
      invariant forall j | 0 <= j < i :: output[j] == HexDigits[draws[j]]
    {
      output := output + [HexDigits[draws[i]]];
    }
  }

  /** Different draws give different digits. */
  lemma HexDigitsDistinct(a: nat, b: nat)
    requires a < 16 && b < 16 && a != b
    ensures HexDigits[a] != HexDigits[b]
  {
  }

  /**
   * Two strings generated as `GenerateRandomHexString` promises differ as
   * soon as their draws differ at one position below the length.
   */
  lemma DifferentDrawsDifferentStrings(length: nat, da: seq<nat>, db: seq<nat>, a: string, b: string, i: nat)
    requires |da| >= length && forall j | 0 <= j < |da| :: da[j] < 16
    requires |db| >= length && forall j | 0 <= j < |db| :: db[j] < 16
    requires |a| == length && forall j | 0 <= j < length :: a[j] == HexDigits[da[j]]
    requires |b| == length && forall j | 0 <= j < length :: b[j] == HexDigits[db[j]]
    requires i < length && da[i] != db[i]
    ensures a != b
  {
    HexDigitsDistinct(da[i], db[i]);
    assert a[i] != b[i];
  }

  /** The status a document reports. */
  datatype Status = Queued | Translating | Done | Error

  /** How far a status is along the lifecycle. */
  function Rank(s: Status): nat {
    match s
    case Queued => 0
    case Translating => 1
    case Done => 2
    case Error => 3
  }

  /**
   * A stored document. `pathOut` is the translated file once written;
   * `msRemaining` is `seconds_remaining` kept in milliseconds; `error` is set
   * when the session forced a failure.
   */
  datatype Document = Document(
    id: string,
    key: string,
    pathIn: string,
    pathOut: Option<string>,
    name: string,
    mimetype: string,
    created: int,
    used: int,
    authKey: string,
    sourceLang: Option<string>,
    targetLang: string,
    billedCharacters: nat,
    status: Status,
    msRemaining: Option<int>,
    error: Option<string>)

  /** An uploaded file as the request carries it. */
  datatype File = File(name: string, mimetype: string, size: nat)

  /** The `{status, message}` object `createDocument` throws. */
  datatype Failure = Failure(status: int, message: string)

  /** The extensions a document may have. */
  const Extensions: seq<string> := [".txt", ".docx", ".pptx", ".htm", ".html"]

  const InvalidFile: Failure := Failure(400, "Invalid file data.")
  const OnlyTxt: Failure := Failure(503, "Mock server only implements document translation for .txt files.")
  const ErrorMessage: string := "Translation error triggered"

  /** The last index of `c` in `s` below `n`, or -1. */
  function LastIndexBelow(s: string, c: char, n: nat): (r: int)
    requires n <= |s|
    ensures -1 <= r < n
    ensures r >= 0 ==> s[r] == c
    ensures forall i | r < i < n :: s[i] != c
  {
    if n == 0 then -1
    else if s[n - 1] == c then n - 1
    else LastIndexBelow(s, c, n - 1)
  }

  /** `s.lastIndexOf(c)`. */
  function LastIndexOf(s: string, c: char): int {
    LastIndexBelow(s, c, |s|)
  }

  /**
   * `path.extname(name)`: from the last dot of the last path segment to the
   * end, or empty when that segment has no dot but a leading one, or is `..`.
   */
  function ExtName(name: string): string {
    var slash := LastIndexOf(name, '/');
    var dot := LastIndexOf(name, '.');
    if dot <= slash + 1 || name[slash + 1..] == ".." then ""
    else name[dot..]
  }

  /** An extension is a suffix of the name that starts with its only dot and crosses no path separator. */
  lemma ExtNameShape(name: string)
    ensures var e := ExtName(name);
      && |e| <= |name| && e == name[|name| - |e|..]
      && (e == "" || (e[0] == '.' && '.' !in e[1..]))
      && '/' !in e
  {
    var slash := LastIndexOf(name, '/');
    var dot := LastIndexOf(name, '.');
    if dot > slash + 1 && name[slash + 1..] != ".." {
      assert ExtName(name) == name[dot..];
      SuffixFromLastDot(name, slash, dot);
    } else {
      assert ExtName(name) == "";
    }
  }

  /** The suffix from the last dot, past the last separator, has one dot, first, and no separator. */
  lemma SuffixFromLastDot(name: string, slash: int, dot: int)
    requires -1 <= slash < dot < |name| && name[dot] == '.'
    requires forall i | dot < i < |name| :: name[i] != '.'
    requires forall i | slash < i < |name| :: name[i] != '/'
    ensures var r := name[dot..];
      && r == name[|name| - |r|..] && r[0] == '.' && '.' !in r[1..] && '/' !in r
  {
    var r := name[dot..];
    forall j | 0 <= j < |r| ensures r[j] != '/' {
      assert r[j] == name[dot + j];
    }
    forall j | 0 <= j < |r[1..]| ensures r[1..][j] != '.' {
      assert r[1..][j] == name[dot + 1 + j];
    }
  }

  /** Upper-case extensions count, and a name that only starts with a dot has none. */
  lemma ExtensionExamples()
    ensures Lower(ExtName("notes.TXT")) == ".txt"
    ensures ExtName(".txt") == ""
  {
    assert LastIndexOf("notes.TXT", '/') == -1;
    assert "notes.TXT"[5] == '.';
    assert LastIndexOf("notes.TXT", '.') == 5;
    assert "notes.TXT"[5..] == ".TXT";
    assert LastIndexOf(".txt", '/') == -1;
    assert ".txt"[0] == '.';
    assert LastIndexOf(".txt", '.') == 0;
  }

  /** `session?.x || 0` for a numeric session field. */
  function FieldOrZero(fields: Sessions.Fields, p: Sessions.Param): int {
    if p in fields then fields[p] else 0
  }

  /** `document.error` is truthy. */
  predicate Failed(d: Document) {
    d.error.Some? && d.error.value != ""
  }

  function Max(a: int, b: int): int {
    if a >= b then a else b
  }

  /**
   * The document as `getDocument` leaves it at `now`, for a queue delay
   * `queueMs` and a translation delay `translateMs`: `used` is refreshed and
   * the status derived, first from the error, then from the document's age.
   */
  function Observe(d: Document, queueMs: int, translateMs: int, now: int): (r: Document)
    ensures r == d.(used := now, status := r.status, msRemaining := r.msRemaining)
    ensures Failed(d) ==> r.status == Error && r.msRemaining == d.msRemaining
    ensures !Failed(d) && now - d.created < queueMs ==> r.status == Queued && r.msRemaining == d.msRemaining
    ensures !Failed(d) && now - d.created >= queueMs && (now - d.created < queueMs + translateMs || d.pathOut.None?) ==>
      r.status == Translating && r.msRemaining == Some(Max(queueMs + translateMs - (now - d.created), 0))
    ensures r.status == Done <==>
      !Failed(d) && d.pathOut.Some? && now - d.created >= queueMs && now - d.created >= queueMs + translateMs
    ensures r.status == Done ==> r.msRemaining == Some(0)
  {
    var age := now - d.created;
    var until := translateMs + queueMs;
    if Failed(d) then d.(used := now, status := Error)
    else if age < queueMs then d.(used := now, status := Queued)
    else if age < until || d.pathOut.None? then d.(used := now, status := Translating, msRemaining := Some(Max(until - age, 0)))
    else d.(used := now, status := Done, msRemaining := Some(0))
  }

  /** A document that reports `done` has its output, and waits no longer. */
  lemma DoneHasOutput(d: Document, queueMs: int, translateMs: int, now: int)
    ensures Observe(d, queueMs, translateMs, now).status == Done ==>
      Observe(d, queueMs, translateMs, now).pathOut.Some? && Observe(d, queueMs, translateMs, now).msRemaining == Some(0)
    ensures Observe(d, queueMs, translateMs, now).status == Translating ==>
      Observe(d, queueMs, translateMs, now).msRemaining.value >= 0
  {
  }

  /** Later observations of the same document never report an earlier status. */
  lemma StatusProgresses(d: Document, queueMs: int, translateMs: int, now: int, later: int)
    requires now <= later
    ensures Rank(Observe(d, queueMs, translateMs, now).status) <= Rank(Observe(d, queueMs, translateMs, later).status)
  {
  }

  /** Observing refreshes only `used`, `status` and the remaining time: the rest of the document is as stored. */
  lemma ObserveKeepsIdentity(d: Document, queueMs: int, translateMs: int, now: int)
    ensures var r := Observe(d, queueMs, translateMs, now);
      r.id == d.id && r.key == d.key && r.authKey == d.authKey && r.pathOut == d.pathOut && r.error == d.error
      && r.billedCharacters == d.billedCharacters
  {
  }

  /** The paths `cleanup` tries to delete for a dropped document. */
  function DocumentPaths(d: Document): set<string> {
    {d.pathIn} + (if d.pathOut.Some? then {d.pathOut.value} else {})
  }

  /** The paths of every dropped document. */
  function EvictedPaths(evicted: seq<Util.Eviction<string, Document>>): (r: set<string>)
    ensures forall e | e in evicted :: DocumentPaths(e.value) <= r
  {
    if evicted == [] then {}
    else EvictedPaths(evicted[..|evicted| - 1]) + DocumentPaths(evicted[|evicted| - 1].value)
  }

  /** Every deleted path belongs to one of the dropped documents. */
  lemma {:induction false} EvictedPathsOwners(evicted: seq<Util.Eviction<string, Document>>, p: string)
    requires p in EvictedPaths(evicted)
    ensures exists e | e in evicted :: p in DocumentPaths(e.value)
  {
    var init := evicted[..|evicted| - 1];
    var last := evicted[|evicted| - 1];
    if p in EvictedPaths(init) {
      EvictedPathsOwners(init, p);
      var e :| e in init && p in DocumentPaths(e.value);
      assert e in evicted;
    } else {
      assert p in DocumentPaths(last.value) && last in evicted;
    }
  }

  /** The input file of the document stored under `id`. */
  function InputPath(id: string): string {
    "./documents/" + id
  }

  /** Distinct ids of the same length give distinct output paths, and no output path is an input path. */
  lemma PathsDistinct(a: string, b: string)
    requires |a| == 32 && |b| == 32
    ensures InputPath(a) + ".result" != InputPath(b)
    ensures InputPath(a) + ".result" == InputPath(b) + ".result" ==> a == b
  {
    if InputPath(a) + ".result" == InputPath(b) + ".result" {
      assert a == (InputPath(a) + ".result")[12..44];
      assert b == (InputPath(b) + ".result")[12..44];
    }
  }

  /**
   * A stored document sits under its 32-digit id, its input at
   * `./documents/<id>`, and an output it has is `<input>.result` and exists.
   */
  ghost predicate Stored(k: string, d: Document, artifacts: set<string>) {
    && |k| == 32 && d.id == k && d.pathIn == InputPath(k)
    && (d.pathOut.Some? ==> d.pathOut.value == d.pathIn + ".result" && d.pathOut.value in artifacts)
  }

  /** The module-level `documents` map, and the files on disk. */
  class DocumentStore {
    var documents: OrderedMap<string, Document>
    var artifacts: set<string>

    ghost predicate Valid()
      reads this
    {
      documents.Valid() && forall k {:trigger Stored(k, documents.entries[k], artifacts)} | k in documents.entries :: Stored(k, documents.entries[k], artifacts)
    }

    constructor ()
      ensures Valid() && documents == Empty() && artifacts == {}
    {
      documents := Empty();
      artifacts := {};
    }

    /**
     * `createDocument(file, auth_key, target_lang, source_lang)`: the
     * lower-cased extension must be one of five, and only `.txt` is
     * translated; the upload is moved to `./documents/<id>` and stored as a
     * queued document billed at the file's size. `idDraws` and `keyDraws`
     * are the random draws for the id and the key.
     */
    method CreateDocument(file: File, authKey: string, targetLang: string, sourceLang: Option<string>,
                          idDraws: seq<nat>, keyDraws: seq<nat>, now: int) returns (r: Result<Document, Failure>)
      requires Valid()
      requires |idDraws| >= 32 && forall i | 0 <= i < |idDraws| :: idDraws[i] < 16
      requires |keyDraws| >= 64 && forall i | 0 <= i < |keyDraws| :: keyDraws[i] < 16
      modifies this
      ensures Valid()
      ensures Lower(ExtName(file.name)) !in Extensions ==>
        r == Err(InvalidFile) && documents == old(documents) && artifacts == old(artifacts)
      ensures Lower(ExtName(file.name)) in Extensions && Lower(ExtName(file.name)) != ".txt" ==>
        r == Err(OnlyTxt) && documents == old(documents) && artifacts == old(artifacts)
      ensures Lower(ExtName(file.name)) == ".txt" ==>
        && r.Ok?
        && |r.value.id| == 32 && IsHex(r.value.id) && |r.value.key| == 64 && IsHex(r.value.key)
        && r.value == Document(r.value.id, r.value.key, "./documents/" + r.value.id, None, file.name, file.mimetype,
                               now, now, authKey, sourceLang, targetLang, file.size, Queued, None, None)
        && documents == old(documents).Put(r.value.id, r.value)
        && artifacts == old(artifacts) + {r.value.pathIn}
    {
      var extname := Lower(ExtName(file.name));
      if extname !in Extensions {
        return Err(InvalidFile);
      }
      if extname != ".txt" {
        return Err(OnlyTxt);
      }
      var documentId := GenerateRandomHexString(32, idDraws);
      var documentKey := GenerateRandomHexString(64, keyDraws);
      var pathIn := "./documents/" + documentId;
      artifacts := artifacts + {pathIn};
      var document := Document(documentId, documentKey, pathIn, None, file.name, file.mimetype,
                               now, now, authKey, sourceLang, targetLang, file.size, Queued, None, None);
      documents := documents.Put(documentId, document);
      assert forall k | k in documents.entries :: Stored(k, documents.entries[k], artifacts) by {
        forall k | k in documents.entries ensures Stored(k, documents.entries[k], artifacts) {
          if k != documentId {
            assert Stored(k, old(documents.entries[k]), old(artifacts));
          }
        }
      }
      return Ok(document);
    }

    /** The caller names the document with its key, under its own account. */
    ghost predicate Reaches(documentId: string, documentKey: Option<string>, authKey: Option<string>)
      reads this
    {
      && documentId in documents.entries
      && documentKey == Some(documents.entries[documentId].key)
      && authKey == Some(documents.entries[documentId].authKey)
    }

    /**
     * `getDocument(document_id, document_key, auth_key, session)`: the
     * document, observed at `now` with the session's delays. An unknown id,
     * a wrong key and another account fail alike.
     */
    method GetDocument(documentId: string, documentKey: Option<string>, authKey: Option<string>,
                       session: Sessions.Fields, now: int) returns (r: Result<Document, string>)
      requires Valid()
      modifies this
      ensures Valid() && artifacts == old(artifacts)
      ensures !old(Reaches(documentId, documentKey, authKey)) ==> r == Err("not found") && documents == old(documents)
      ensures old(Reaches(documentId, documentKey, authKey)) ==>
        var queueMs := FieldOrZero(session, Sessions.DocQueueTime);
        var translateMs := FieldOrZero(session, Sessions.DocTranslateTime);
        && r == Ok(Observe(old(documents.entries[documentId]), queueMs, translateMs, now))
        && documents == old(documents).Put(documentId, r.value)
      ensures r.Ok? && r.value.status == Done ==> r.value.pathOut.Some? && r.value.pathOut.value in artifacts
    {
      var found := documents.Get(documentId);
      if found.Some? && documentKey == Some(found.value.key) && authKey == Some(found.value.authKey) {
        var queuedUntil := FieldOrZero(session, Sessions.DocQueueTime);
        var translatingUntil := FieldOrZero(session, Sessions.DocTranslateTime);
        var document := Observe(found.value, queuedUntil, translatingUntil, now);
        assert Stored(documentId, found.value, artifacts);
        documents := documents.Put(documentId, document);
        forall k | k in documents.entries
          ensures Stored(k, documents.entries[k], artifacts)
        {
          assert k != documentId ==> Stored(k, old(documents.entries[k]), artifacts);
        }
        return Ok(document);
      }
      return Err("not found");
    }

    /**
     * `translateDocument(document, session)`: while the session's
     * `doc_failure` is positive it drops by one and the document is marked
     * failed; otherwise the output is written next to the input. The input
     * file is removed either way. Returns the session's fields.
     */
    method TranslateDocument(documentId: string, session: Sessions.Fields) returns (after: Sessions.Fields)
      requires Valid() && documentId in documents.entries
      requires documents.entries[documentId].pathIn in artifacts
      modifies this
      ensures Valid()
      ensures var d := old(documents.entries[documentId]);
        && (Sessions.Positive(session, Sessions.DocFailure) ==>
             && after == Sessions.CountDown(session, Sessions.DocFailure)
             && documents == old(documents).Put(documentId, d.(error := Some(ErrorMessage)))
             && artifacts == old(artifacts) - {d.pathIn})
        && (!Sessions.Positive(session, Sessions.DocFailure) ==>
             && after == session
             && documents == old(documents).Put(documentId, d.(pathOut := Some(d.pathIn + ".result")))
             && artifacts == (old(artifacts) + {d.pathIn + ".result"}) - {d.pathIn})
    {
      var document := documents.entries[documentId];
      assert Stored(documentId, document, artifacts);
      var pathIn := document.pathIn;
      var pathOut := pathIn + ".result";
      if Sessions.Positive(session, Sessions.DocFailure) {
        after := Sessions.CountDown(session, Sessions.DocFailure);
        documents := documents.Put(documentId, document.(error := Some(ErrorMessage)));
      } else {
        after := session;
        artifacts := artifacts + {pathOut};
        documents := documents.Put(documentId, document.(pathOut := Some(pathOut)));
      }
      artifacts := artifacts - {pathIn};
      forall k | k in documents.entries
        ensures Stored(k, documents.entries[k], artifacts)
      {
        if k != documentId {
          assert Stored(k, old(documents.entries[k]), old(artifacts));
          PathsDistinct(k, documentId);
        }
      }
    }

    /**
     * `removeDocument(document)`: deletes the output file and then the
     * entry; when the output file is missing the deletion throws and the
     * entry stays.
     */
    method RemoveDocument(documentId: string) returns (removed: bool)
      requires Valid() && documentId in documents.entries
      modifies this
      ensures Valid()
      ensures var d := old(documents.entries[documentId]);
        removed <==> d.pathOut.Some? && d.pathOut.value in old(artifacts)
      ensures removed <==> old(documents.entries[documentId]).pathOut.Some?
      ensures removed ==>
        && documents == old(documents).Delete(documentId)
        && artifacts == old(artifacts) - {old(documents.entries[documentId]).pathOut.value}
      ensures !removed ==> documents == old(documents) && artifacts == old(artifacts)
    {
      var document := documents.entries[documentId];
      assert Stored(documentId, document, artifacts);
      if document.pathOut.None? || document.pathOut.value !in artifacts {
        return false;
      }
      artifacts := artifacts - {document.pathOut.value};
      documents := documents.Delete(documentId);
      forall k | k in documents.entries
        ensures Stored(k, documents.entries[k], artifacts)
      {
        assert Stored(k, old(documents.entries[k]), old(artifacts));
        PathsDistinct(k, documentId);
      }
      return true;
    }

    /**
     * The periodic `cleanup`: documents idle for more than ten minutes are
     * dropped, and their input and output files deleted where they exist.
     */
    method Sweep(now: int)
      requires Valid()
      modifies this
      ensures Valid()
      ensures documents == Util.Swept(old(documents), (d: Document) => d.used, now, Util.LifetimeMs)
      ensures artifacts == old(artifacts) - EvictedPaths(Util.Evictions(old(documents).keys, old(documents).entries,
                                                                         (d: Document) => d.used, now, Util.LifetimeMs,
                                                                         |old(documents).keys|))
    {
      var evicted;
      var usedOf := (d: Document) => d.used;
      documents, evicted := Util.Cleanup(documents, usedOf, now, Util.LifetimeMs);
      artifacts := artifacts - EvictedPaths(evicted);
      forall k | k in documents.entries
        ensures Stored(k, documents.entries[k], artifacts)
      {
        KeptFilesStay(old(documents), old(artifacts), now, k);
      }
    }
  }

  /** The output of a kept document is no file of the dropped documents, whose ids all differ from its own. */
  lemma OutputNotEvicted(evicted: seq<Util.Eviction<string, Document>>, k: string, d: Document, artifacts: set<string>)
    requires Stored(k, d, artifacts) && d.pathOut.Some?
    requires forall e | e in evicted :: e.key != k && Stored(e.key, e.value, artifacts)
    ensures d.pathOut.value !in EvictedPaths(evicted)
  {
    if d.pathOut.value in EvictedPaths(evicted) {
      EvictedPathsOwners(evicted, d.pathOut.value);
      var e :| e in evicted && d.pathOut.value in DocumentPaths(e.value);
      PathsDistinct(k, e.key);
      assert false;
    }
  }

  /** A sweep deletes no file of a document it keeps. */
  lemma KeptFilesStay(m: OrderedMap<string, Document>, artifacts: set<string>, now: int, k: string)
    requires m.Valid() && forall j | j in m.entries :: Stored(j, m.entries[j], artifacts)
    requires k in m.entries && !Util.Expired(m.entries[k].used, now, Util.LifetimeMs)
    ensures Stored(k, m.entries[k], artifacts - EvictedPaths(Util.Evictions(m.keys, m.entries,
                                                                (d: Document) => d.used, now, Util.LifetimeMs, |m.keys|)))
  {
    var usedOf := (d: Document) => d.used;
    var evicted := Util.Evictions(m.keys, m.entries, usedOf, now, Util.LifetimeMs, |m.keys|);
    var d := m.entries[k];
    if d.pathOut.Some? {
      Util.EvictionsMembers(m.keys, m.entries, usedOf, now, Util.LifetimeMs, |m.keys|);
      assert m.keys[..|m.keys|] == m.keys;
      OutputNotEvicted(evicted, k, d, artifacts);
    }
  }

  /** After a sweep, no file of a dropped document is left. */
  lemma SweptFilesGone(m: OrderedMap<string, Document>, artifacts: set<string>, now: int, k: string)
    requires m.Valid() && k in m.entries && Util.Expired(m.entries[k].used, now, Util.LifetimeMs)
    ensures DocumentPaths(m.entries[k]) !! artifacts - EvictedPaths(Util.Evictions(m.keys, m.entries,
                                                                        (d: Document) => d.used, now, Util.LifetimeMs, |m.keys|))
  {
    var usedOf := (d: Document) => d.used;
    Util.EvictionsMembers(m.keys, m.entries, usedOf, now, Util.LifetimeMs, |m.keys|);
    assert m.keys[..|m.keys|] == m.keys;
    assert Util.Eviction(m.entries[k], k) in Util.Evictions(m.keys, m.entries, usedOf, now, Util.LifetimeMs, |m.keys|);
  }
}
