/**
 * glossariesCsvParser.js `convertGlossaryEntriesCsvToList`: keeps the CSV
 * rows that carry a source and a target and that are not marked for another
 * language pair. The tokenisation itself is done by a CSV library; here the
 * rows arrive already split into cells (a row has as many cells as it has
 * columns, so `data[k]` is undefined exactly when `k` is past its end).
 */
module GlossaryCsv {
  import opened Wrappers
  import opened JsStrings
  import opened GlossaryEntries
  import Util

  /**
   * Why the conversion fails: the input text is empty (thrown before the
   * returned promise exists), or no row was kept (the promise is rejected).
   */
  datatype CsvError = EmptyInput | NoEntries

  /** A row is dropped when it lacks a source or a target cell, or when both of its language cells name other languages. */
  predicate KeptRow(row: seq<string>, sourceLang: string, targetLang: string) {
    && |row| >= 2
    && !(|row| >= 4 && Upper(row[2]) != Upper(sourceLang) && Upper(row[3]) != Upper(targetLang))
  }

  /** The entries of the kept rows among the first `n`, in row order. */
  function KeptEntries(rows: seq<seq<string>>, sourceLang: string, targetLang: string, n: nat): seq<Entry>
    requires n <= |rows|
  {
    if n == 0 then []
    else
      var row := rows[n - 1];
      KeptEntries(rows, sourceLang, targetLang, n - 1)
        + (if KeptRow(row, sourceLang, targetLang) then [Entry(row[0], row[1])] else [])
  }

  /**
   * The outcome of the conversion: an empty input fails outright; otherwise
   * the kept rows' entries, unless there are none.
   */
  function CsvEntries(input: string, rows: seq<seq<string>>, sourceLang: string, targetLang: string): (r: Result<seq<Entry>, CsvError>)
    ensures input == "" <==> r == Err(EmptyInput)
    ensures r.Ok? ==> r.value != [] && r.value == KeptEntries(rows, sourceLang, targetLang, |rows|)
    ensures input != "" && KeptEntries(rows, sourceLang, targetLang, |rows|) == [] ==> r == Err(NoEntries)
  {
    if input == "" then Err(EmptyInput)
    else
      var kept := KeptEntries(rows, sourceLang, targetLang, |rows|);
      if kept == [] then Err(NoEntries) else Ok(kept)
  }

  /**
   * The conversion: refuses an empty input, then visits the rows in order,
   * pushing the entry of each kept row, and refuses an empty result.
   */
  method ConvertCsvToList(input: string, rows: seq<seq<string>>, sourceLang: string, targetLang: string)
    returns (r: Result<seq<Entry>, CsvError>)
    ensures r == CsvEntries(input, rows, sourceLang, targetLang)
  {
    if |input| == 0 {
      return Err(EmptyInput);
    }
    var results: seq<Entry> := [];
    for i := 0 to |rows|
      invariant results == KeptEntries(rows, sourceLang, targetLang, i)
    {
      var row := rows[i];
      if |row| < 2 {
        continue;
      }
      if |row| >= 4 && Upper(row[2]) != Upper(sourceLang) && Upper(row[3]) != Upper(targetLang) {
        continue;
      }
      results := results + [Entry(row[0], row[1])];
    }
    if |results| == 0 {
      return Err(NoEntries);
    }
    return Ok(results);
  }

  /**
   * An entry is kept exactly when some row among the first `n` is kept and
   * carries it as its first two cells.
   */
  lemma {:induction false} KeptEntriesMembers(rows: seq<seq<string>>, sourceLang: string, targetLang: string, n: nat)
    requires n <= |rows|
    ensures |KeptEntries(rows, sourceLang, targetLang, n)| <= n
    ensures forall e :: e in KeptEntries(rows, sourceLang, targetLang, n) <==>
      exists i | 0 <= i < n :: KeptRow(rows[i], sourceLang, targetLang) && e == Entry(rows[i][0], rows[i][1])
  {
    if n > 0 {
      KeptEntriesMembers(rows, sourceLang, targetLang, n - 1);
    }
  }

  /** Language cells are compared ignoring case, and a row with fewer than four cells is never dropped for its languages. */
  lemma LanguageCellsRule(row: seq<string>, sourceLang: string, targetLang: string)
    requires |row| >= 2
    ensures |row| < 4 ==> KeptRow(row, sourceLang, targetLang)
    ensures |row| >= 4 && EqualsIgnoreCase(row[2], sourceLang) ==> KeptRow(row, sourceLang, targetLang)
    ensures |row| >= 4 && EqualsIgnoreCase(row[3], targetLang) ==> KeptRow(row, sourceLang, targetLang)
    ensures |row| >= 4 && !EqualsIgnoreCase(row[2], sourceLang) && !EqualsIgnoreCase(row[3], targetLang) ==>
      !KeptRow(row, sourceLang, targetLang)
  {
  }

  /** Unlike the TSV parser, the CSV conversion keeps repeated sources. */
  lemma DuplicatesKept()
    ensures CsvEntries("a,x\na,y", [["a", "x"], ["a", "y"]], "EN", "DE") == Ok([Entry("a", "x"), Entry("a", "y")])
  {
    var rows := [["a", "x"], ["a", "y"]];
    assert KeptRow(rows[0], "EN", "DE") && KeptRow(rows[1], "EN", "DE");
    assert KeptEntries(rows, "EN", "DE", 1) == [Entry("a", "x")];
    assert KeptEntries(rows, "EN", "DE", 2) == [Entry("a", "x"), Entry("a", "y")];
  }

  /** Whether the failure happens before the conversion returns its promise. */
  predicate Synchronous(err: CsvError) {
    err.EmptyInput?
  }

  /** The `HttpError` each failure carries. */
  function CsvHttpError(err: CsvError): (e: Util.HttpError)
    ensures e.Status() == 400
  {
    match err
    case EmptyInput => Util.HttpError("Bad request", Some(400), Some("Missing or invalid argument: entries"))
    case NoEntries => Util.HttpError("Invalid glossary entries provided", Some(400), None)
  }
}
