/**
 * What the three glossary versions share: entry lists, the first-match
 * lookup (`findEntry`, `findEntryIndex`, `translateWithGlossary`), the TSV
 * entry parser (`convertGlossaryTsvToList`,
 * `convertGlossaryDictionaryTsvToList`) and the TSV serialiser
 * (`convertListToGlossaryTsv`, `convertListToGlossaryDictionaryTsv`).
 */
module GlossaryEntries {
  import opened Wrappers
  import opened JsStrings
  import Util

  /** One glossary entry: `{ source, target }`. */
  datatype Entry = Entry(source: string, target: string)

  /** No two entries share a source. */
  predicate DistinctSources(entries: seq<Entry>) {
    forall i, j | 0 <= i < j < |entries| :: entries[i].source != entries[j].source
  }

  /** The position of the first entry from `i` on whose source is exactly `source`, or -1. */
  function FirstIndexFrom(entries: seq<Entry>, source: string, i: nat): (r: int)
    requires i <= |entries|
    ensures r == -1 || i <= r < |entries|
    ensures r == -1 <==> forall j | i <= j < |entries| :: entries[j].source != source
    ensures r >= 0 ==> entries[r].source == source && forall j | i <= j < r :: entries[j].source != source
    decreases |entries| - i
  {
    if i == |entries| then -1
    else if entries[i].source == source then i
    else FirstIndexFrom(entries, source, i + 1)
  }

  /** The position of the first entry whose source is exactly `source`, or -1. */
  function FirstIndex(entries: seq<Entry>, source: string): (r: int)
    ensures -1 <= r < |entries|
    ensures r == -1 <==> forall j | 0 <= j < |entries| :: entries[j].source != source
    ensures r >= 0 ==> entries[r].source == source && forall j | 0 <= j < r :: entries[j].source != source
  {
    FirstIndexFrom(entries, source, 0)
  }

  /**
   * The target of the first entry whose source is exactly `source`; absent
   * (`undefined`, or `null` in `translateWithGlossary`) when there is none.
   */
  function Lookup(entries: seq<Entry>, source: string): (r: Option<string>)
    ensures r.None? <==> forall j | 0 <= j < |entries| :: entries[j].source != source
    ensures r.Some? ==> exists j | 0 <= j < |entries| ::
      entries[j] == Entry(source, r.value) && forall k | 0 <= k < j :: entries[k].source != source
  {
    var i := FirstIndex(entries, source);
    if i < 0 then None else Some(entries[i].target)
  }

  /** With distinct sources, every entry is what a lookup of its source finds. */
  lemma LookupDistinct(entries: seq<Entry>, k: nat)
    requires DistinctSources(entries) && k < |entries|
    ensures Lookup(entries, entries[k].source) == Some(entries[k].target)
  {
    var i := FirstIndex(entries, entries[k].source);
    assert i == k by {
      if i < k {
        assert entries[i].source == entries[k].source;
      }
    }
  }

  /** `findEntryIndex(entryList, sourceEntry)`: scans the list from the front. */
  method FindEntryIndex(entries: seq<Entry>, source: string) returns (r: int)
    ensures r == FirstIndex(entries, source)
  {
    var i := 0;
    while i < |entries|
      invariant 0 <= i <= |entries|
      invariant forall j | 0 <= j < i :: entries[j].source != source
    {
      if entries[i].source == source {
        return i;
      }
      i := i + 1;
    }
    return -1;
  }

  /** `findEntry(entryList, sourceEntry)` and `translateWithGlossary(entryList, input)`: the same scan, returning the target. */
  method FindEntry(entries: seq<Entry>, source: string) returns (r: Option<string>)
    ensures r == Lookup(entries, source)
  {
    var i := 0;
    while i < |entries|
      invariant 0 <= i <= |entries|
      invariant forall j | 0 <= j < i :: entries[j].source != source
    {
      if entries[i].source == source {
        return Some(entries[i].target);
      }
      i := i + 1;
    }
    return None;
  }

  /** The line of one entry: source, a tab, target. */
  function EntryLine(e: Entry): string {
    e.source + "\t" + e.target
  }

  /** `convertListToGlossaryTsv(entriesList)`: one line per entry, joined by `\n`. */
  function ToTsv(entries: seq<Entry>): string {
    Join(seq(|entries|, i requires 0 <= i < |entries| => EntryLine(entries[i])), '\n')
  }

  /** Why a TSV text is refused: the line at `index` has no tab, or repeats the source of entry `earlier`. */
  datatype TsvError = MissingTab(index: nat) | Duplicate(index: nat, earlier: nat)

  /** What the parser makes of one line: a blank line is skipped; any other needs a tab. */
  datatype LineReading = Skip | NoTab | Pair(entry: Entry)

  /** One line, trimmed: blank, without a tab, or split at its first tab (the target may hold further tabs). */
  function ReadLine(line: string): (r: LineReading)
    ensures r.Skip? <==> Trim(line) == ""
    ensures r.NoTab? <==> Trim(line) != "" && '\t' !in Trim(line)
    ensures r.Pair? ==> '\t' !in r.entry.source && Trim(line) == r.entry.source + "\t" + r.entry.target
  {
    var t := Trim(line);
    if t == "" then Skip
    else
      var k := IndexOf(t, '\t');
      if k < 0 then NoTab
      else
        assert t == t[..k] + "\t" + t[k + 1..];
        Pair(Entry(t[..k], t[k + 1..]))
  }

  /** The readings of the lines of a text. */
  function ReadLines(text: string): (rs: seq<LineReading>)
    ensures |rs| == |Split(text, '\n')|
  {
    var lines := Split(text, '\n');
    seq(|lines|, i requires 0 <= i < |lines| => ReadLine(lines[i]))
  }

  /**
   * The parser loop from line `i` on, with the entries `acc` found so far:
   * blank lines are skipped, a line without a tab is refused, a source seen
   * before is refused, and every other line adds its entry at the end.
   */
  function ParseFrom(rs: seq<LineReading>, i: nat, acc: seq<Entry>): Result<seq<Entry>, TsvError>
    requires i <= |rs|
    decreases |rs| - i
  {
    if i == |rs| then Ok(acc)
    else match rs[i]
      case Skip => ParseFrom(rs, i + 1, acc)
      case NoTab => Err(MissingTab(i))
      case Pair(e) =>
        var found := FirstIndex(acc, e.source);
        if found >= 0 then Err(Duplicate(i, found))
        else ParseFrom(rs, i + 1, acc + [e])
  }

  /** The entry list of a TSV text, or the first reason to refuse it. */
  function ParseTsv(text: string): Result<seq<Entry>, TsvError> {
    ParseFrom(ReadLines(text), 0, [])
  }

  /** The loop body's reading of one line: trim, then split at the first tab. */
  method ReadLineOf(line: string) returns (r: LineReading)
    ensures r == ReadLine(line)
  {
    var trimmed := Trim(line);
    if trimmed == "" {
      return Skip;
    }
    var tab := IndexOf(trimmed, '\t');
    if tab == -1 {
      return NoTab;
    }
    return Pair(Entry(trimmed[..tab], trimmed[tab + 1..]));
  }

  /**
   * `convertGlossaryTsvToList(entriesTsv)`: splits at `\n` and walks the
   * lines, pushing one entry per non-blank line. (The source's check for
   * an empty split result can never fire: a split has at least one piece.)
   */
  method ConvertTsvToList(text: string) returns (r: Result<seq<Entry>, TsvError>)
    ensures r == ParseTsv(text)
  {
    var lines := Split(text, '\n');
    assert Readings(lines) == ReadLines(text);
    r := ParseLines(lines);
  }

  /** The readings of a list of lines. */
  ghost function Readings(lines: seq<string>): (rs: seq<LineReading>)
    ensures |rs| == |lines|
    ensures forall j | 0 <= j < |lines| :: rs[j] == ReadLine(lines[j])
  {
    seq(|lines|, j requires 0 <= j < |lines| => ReadLine(lines[j]))
  }

  /** The loop of `convertGlossaryTsvToList` over the split lines. */
  method ParseLines(lines: seq<string>) returns (r: Result<seq<Entry>, TsvError>)
    ensures r == ParseFrom(Readings(lines), 0, [])
  {
    ghost var rs := Readings(lines);
    ghost var goal := ParseFrom(rs, 0, []);
    var entries: seq<Entry> := [];
    var i := 0;
    while i < |lines|
      invariant 0 <= i <= |lines|
      invariant ParseFrom(rs, i, entries) == goal
    {
      var reading := ReadLineOf(lines[i]);
      assert reading == rs[i];
      if reading.NoTab? {
        return Err(MissingTab(i));
      }
      if reading.Pair? {
        var found := FindEntryIndex(entries, reading.entry.source);
        if found != -1 {
          return Err(Duplicate(i, found));
        }
        entries := entries + [reading.entry];
      }
      i := i + 1;
    }
    return Ok(entries);
  }

  /** Every reading among the first `n` is a skip or an entry. */
  predicate TabbedUpTo(rs: seq<LineReading>, n: nat) {
    forall i | 0 <= i < n && i < |rs| :: !rs[i].NoTab?
  }

  /** The reference reading of the first `n` lines: the entry of each non-blank line, in line order. */
  function LineEntries(rs: seq<LineReading>, n: nat): seq<Entry>
    requires n <= |rs| && TabbedUpTo(rs, n)
  {
    if n == 0 then []
    else LineEntries(rs, n - 1) + (if rs[n - 1].Pair? then [rs[n - 1].entry] else [])
  }

  /** Reading fewer lines gives a prefix of the entries. */
  lemma {:induction false} LineEntriesPrefix(rs: seq<LineReading>, n: nat, m: nat)
    requires n <= m <= |rs| && TabbedUpTo(rs, m)
    ensures LineEntries(rs, n) <= LineEntries(rs, m)
    decreases m - n
  {
    if n < m {
      LineEntriesPrefix(rs, n, m - 1);
    }
  }

  /** A list with a repeated source stays so when extended. */
  lemma PrefixNotDistinct(a: seq<Entry>, b: seq<Entry>)
    requires a <= b && !DistinctSources(a)
    ensures !DistinctSources(b)
  {
    var i, j :| 0 <= i < j < |a| && a[i].source == a[j].source;
    assert b[i] == a[i] && b[j] == a[j];
  }

  /** The parser loop, started after `i` lines that have been read correctly, meets the reference reading. */
  lemma {:induction false} ParseFromMeetsReference(rs: seq<LineReading>, i: nat, acc: seq<Entry>)
    requires i <= |rs| && TabbedUpTo(rs, i)
    requires acc == LineEntries(rs, i) && DistinctSources(acc)
    ensures ParseFrom(rs, i, acc).Ok? <==> TabbedUpTo(rs, |rs|) && DistinctSources(LineEntries(rs, |rs|))
    ensures ParseFrom(rs, i, acc).Ok? ==> ParseFrom(rs, i, acc).value == LineEntries(rs, |rs|)
    decreases |rs| - i
  {
    if i < |rs| {
      match rs[i]
      case Skip =>
        ParseFromMeetsReference(rs, i + 1, acc);
      case NoTab =>
      case Pair(e) =>
        var found := FirstIndex(acc, e.source);
        assert LineEntries(rs, i + 1) == acc + [e];
        if found >= 0 {
          assert (acc + [e])[found].source == (acc + [e])[|acc|].source;
          if TabbedUpTo(rs, |rs|) {
            LineEntriesPrefix(rs, i + 1, |rs|);
            PrefixNotDistinct(acc + [e], LineEntries(rs, |rs|));
          }
        } else {
          ParseFromMeetsReference(rs, i + 1, acc + [e]);
        }
    }
  }

  /**
   * A TSV text is accepted exactly when every non-blank line holds a tab and
   * no source repeats; the entries are then those of the non-blank lines,
   * each split at its first tab, in line order.
   */
  lemma ParseTsvReference(text: string)
    ensures var rs := ReadLines(text);
      && (ParseTsv(text).Ok? <==> TabbedUpTo(rs, |rs|) && DistinctSources(LineEntries(rs, |rs|)))
      && (ParseTsv(text).Ok? ==> ParseTsv(text).value == LineEntries(rs, |rs|))
  {
    ParseFromMeetsReference(ReadLines(text), 0, []);
  }

  /**
   * Where the parse stops: a `MissingTab` names a non-blank line without a
   * tab, and a `Duplicate` names a line whose source is that of the entry
   * `earlier` read from the lines before it.
   */
  lemma {:induction false} ParseFromErrors(rs: seq<LineReading>, i: nat, acc: seq<Entry>)
    requires i <= |rs| && TabbedUpTo(rs, i) && acc == LineEntries(rs, i)
    ensures var r := ParseFrom(rs, i, acc);
      && (r.Err? && r.error.MissingTab? ==>
           var k := r.error.index; i <= k < |rs| && rs[k].NoTab? && TabbedUpTo(rs, k))
      && (r.Err? && r.error.Duplicate? ==>
           var k := r.error.index;
           && i <= k < |rs| && rs[k].Pair? && TabbedUpTo(rs, k)
           && r.error.earlier < |LineEntries(rs, k)|
           && LineEntries(rs, k)[r.error.earlier].source == rs[k].entry.source)
    decreases |rs| - i
  {
    if i < |rs| {
      match rs[i]
      case Skip =>
        ParseFromErrors(rs, i + 1, acc);
      case NoTab =>
      case Pair(e) =>
        if FirstIndex(acc, e.source) < 0 {
          ParseFromErrors(rs, i + 1, acc + [e]);
        }
    }
  }

  /** The errors of a whole text, stated over its lines. */
  lemma ParseTsvErrors(text: string)
    ensures var rs := ReadLines(text); var r := ParseTsv(text);
      && (r.Err? && r.error.MissingTab? ==> var k := r.error.index; k < |rs| && rs[k].NoTab? && TabbedUpTo(rs, k))
      && (r.Err? && r.error.Duplicate? ==>
           var k := r.error.index;
           && k < |rs| && rs[k].Pair? && TabbedUpTo(rs, k)
           && r.error.earlier < |LineEntries(rs, k)|
           && LineEntries(rs, k)[r.error.earlier].source == rs[k].entry.source)
  {
    ParseFromErrors(ReadLines(text), 0, []);
  }

  /** An accepted list never repeats a source, and no source holds a tab. */
  lemma {:induction false} ParseFromDistinct(rs: seq<LineReading>, i: nat, acc: seq<Entry>)
    requires i <= |rs| && DistinctSources(acc)
    requires forall j | 0 <= j < |rs| && rs[j].Pair? :: '\t' !in rs[j].entry.source
    requires forall j | 0 <= j < |acc| :: '\t' !in acc[j].source
    ensures ParseFrom(rs, i, acc).Ok? ==>
      && DistinctSources(ParseFrom(rs, i, acc).value)
      && forall j | 0 <= j < |ParseFrom(rs, i, acc).value| :: '\t' !in ParseFrom(rs, i, acc).value[j].source
    decreases |rs| - i
  {
    if i < |rs| {
      match rs[i]
      case Skip =>
        ParseFromDistinct(rs, i + 1, acc);
      case NoTab =>
      case Pair(e) =>
        if FirstIndex(acc, e.source) < 0 {
          ParseFromDistinct(rs, i + 1, acc + [e]);
        }
    }
  }

  /** An accepted TSV text gives entries with distinct, tab-free sources. */
  lemma ParsedSourcesDistinct(text: string)
    ensures ParseTsv(text).Ok? ==>
      && DistinctSources(ParseTsv(text).value)
      && forall j | 0 <= j < |ParseTsv(text).value| :: '\t' !in ParseTsv(text).value[j].source
  {
    ParseFromDistinct(ReadLines(text), 0, []);
  }

  /**
   * An entry whose line survives the parser unchanged: a non-empty source
   * with no tab and no leading white space, a non-empty target with no
   * trailing white space, and no line break in either.
   */
  predicate Serialisable(e: Entry) {
    && e.source != "" && '\t' !in e.source && '\n' !in e.source && !IsJsWhitespace(e.source[0])
    && e.target != "" && '\n' !in e.target && !IsJsWhitespace(e.target[|e.target| - 1])
  }

  /** The line of a serialisable entry reads back as that entry. */
  lemma EntryLineReadsBack(e: Entry)
    requires Serialisable(e)
    ensures ReadLine(EntryLine(e)) == Pair(e)
    ensures '\n' !in EntryLine(e)
  {
    var l := EntryLine(e);
    assert l[0] == e.source[0] && l[|l| - 1] == e.target[|e.target| - 1];
    TrimOfTrimmed(l);
    assert l[|e.source|] == '\t';
    IndexOfAfterPrefix(e.source, '\t', e.target);
    assert l[..|e.source|] == e.source;
    assert l[|e.source| + 1..] == e.target;
  }

  /** The loop over the readings of a serialised list reads the list back. */
  lemma {:induction false} ParseReadingsOfEntries(entries: seq<Entry>, rs: seq<LineReading>, i: nat)
    requires |rs| == |entries| && i <= |entries|
    requires forall k | 0 <= k < |entries| :: rs[k] == Pair(entries[k])
    requires DistinctSources(entries)
    ensures ParseFrom(rs, i, entries[..i]) == Ok(entries)
    decreases |entries| - i
  {
    if i == |entries| {
      assert entries[..i] == entries;
    } else {
      assert FirstIndex(entries[..i], entries[i].source) < 0 by {
        forall j | 0 <= j < i ensures entries[..i][j].source != entries[i].source {
          assert entries[..i][j] == entries[j];
        }
      }
      assert entries[..i] + [entries[i]] == entries[..i + 1];
      ParseReadingsOfEntries(entries, rs, i + 1);
    }
  }

  /** The lines of a serialised non-empty list read as its entries, one per line. */
  lemma ReadingsOfTsv(entries: seq<Entry>)
    requires entries != []
    requires forall k | 0 <= k < |entries| :: Serialisable(entries[k])
    ensures |ReadLines(ToTsv(entries))| == |entries|
    ensures forall k | 0 <= k < |entries| :: ReadLines(ToTsv(entries))[k] == Pair(entries[k])
  {
    var lines := seq(|entries|, i requires 0 <= i < |entries| => EntryLine(entries[i]));
    forall k | 0 <= k < |lines| ensures '\n' !in lines[k] {
      EntryLineReadsBack(entries[k]);
    }
    SplitJoin(lines, '\n');
    forall k | 0 <= k < |entries| ensures ReadLines(ToTsv(entries))[k] == Pair(entries[k]) {
      EntryLineReadsBack(entries[k]);
    }
  }

  /**
   * Serialising a list and parsing the text gives the list back, when the
   * sources are distinct and every entry is serialisable.
   */
  lemma TsvRoundTrip(entries: seq<Entry>)
    requires DistinctSources(entries)
    requires forall k | 0 <= k < |entries| :: Serialisable(entries[k])
    ensures ParseTsv(ToTsv(entries)) == Ok(entries)
  {
    if entries == [] {
      assert ToTsv(entries) == "";
      assert Split("", '\n') == [""];
      assert ReadLines("") == [Skip];
    } else {
      ReadingsOfTsv(entries);
      ParseReadingsOfEntries(entries, ReadLines(ToTsv(entries)), 0);
      assert entries[..0] == [];
    }
  }

  /** `Key with the index <i> (starting at position 0)`: the start of every TSV error detail. */
  function KeyAt(index: nat): string {
    "Key with the index " + NatToString(index) + " (starting at position 0)"
  }

  /**
   * The `HttpError` a TSV parse error is thrown as. Glossary versions 1 and
   * 2 leave the earlier entry's index as a literal `{}`; version 3 fills it in.
   */
  function TsvHttpError(err: TsvError, withEarlierIndex: bool): (e: Util.HttpError)
    ensures e.Status() == 400 && e.message == "Invalid glossary entries provided" && e.detail.Some?
    ensures err.MissingTab? ==> e.detail.value == KeyAt(err.index) + " misses tab separator"
    ensures err.Duplicate? && withEarlierIndex ==>
      e.detail.value == KeyAt(err.index) + " duplicates key with the index " + NatToString(err.earlier) + " (starting at position {})"
    ensures err.Duplicate? && !withEarlierIndex ==>
      e.detail.value == KeyAt(err.index) + " duplicates key with the index {} (starting at position {})"
  {
    var detail := match err
      case MissingTab(i) => KeyAt(i) + " misses tab separator"
      case Duplicate(i, j) =>
        if withEarlierIndex then KeyAt(i) + " duplicates key with the index " + NatToString(j) + " (starting at position {})"
        else KeyAt(i) + " duplicates key with the index {} (starting at position {})";
    Util.HttpError("Invalid glossary entries provided", Some(400), Some(detail))
  }
}
