/** The vocabulary page (src/pages/Vocab.tsx): the CSV reader, the choice of
    a catalog mode by its word target, and the cut of the loaded rows. */
module VocabPage {
  import opened Seqs
  import opened Numbers
  import opened Strings

  /** One vocabulary row: term, Russian translation, example. */
  datatype Row = Row(term: string, ru: string, example: string)

  /** A line of `split(/\r?\n/)` is a piece of `split('\n')` without one
      carriage return before the line break. */
  function DropCR(piece: string): string
  {
    if piece != [] && piece[|piece| - 1] == '\r' then piece[..|piece| - 1] else piece
  }

  /** Carriage returns dropped before every line break. */
  function StripCRs(pieces: seq<string>): (lines: seq<string>)
    ensures |lines| == |pieces|
  {
    if |pieces| <= 1 then pieces else [DropCR(pieces[0])] + StripCRs(pieces[1..])
  }

  /** The lines of the trimmed text. */
  function CsvLines(text: string): (lines: seq<string>)
    ensures |lines| >= 1
  {
    StripCRs(Split(Trim(text), '\n'))
  }

  /** The `k`-th comma field, `''` when the line has fewer. */
  function Field(fields: seq<string>, k: nat): string
  {
    if k < |fields| then fields[k] else []
  }

  /** The row of one line: its first three comma fields, trimmed; none
      when the term is empty. */
  function ParseRow(line: string): (r: Option<Row>)
    ensures r.None? <==> Trim(Field(Split(line, ','), 0)) == []
    ensures r.Some? ==> r.value.term != [] && Trimmed(r.value.term) && Trimmed(r.value.ru) && Trimmed(r.value.example)
  {
    var fields := Split(line, ',');
    var row := Row(Trim(Field(fields, 0)), Trim(Field(fields, 1)), Trim(Field(fields, 2)));
    if row.term == [] then None else Some(row)
  }

  /** `parseCSV(text)` as a value: no rows for at most one line, otherwise
      the rows of every line after the header. */
  function CsvRows(text: string): seq<Row>
  {
    var lines := CsvLines(text);
    if |lines| <= 1 then [] else FilterMap(lines[1..], ParseRow)
  }

  /** `parseCSV(text)`. */
  method ParseCSV(text: string) returns (rows: seq<Row>)
    ensures rows == CsvRows(text)
  {
    var lines := CsvLines(text);
    if |lines| <= 1 {
      return [];
    }
    rows := CollectRows(lines, ParseRow);
  }

  /** The loop of `parseCSV` from line 1 on. */
  method CollectRows(lines: seq<string>, parse: string -> Option<Row>) returns (rows: seq<Row>)
    requires |lines| >= 1
    ensures rows == FilterMap(lines[1..], parse)
  {
    rows := [];
    var i := 1;
    while i < |lines|
      invariant 1 <= i <= |lines|
      invariant rows == FilterMap(lines[1..i], parse)
    {
      var r := parse(lines[i]);
      assert lines[1..i + 1][..i - 1] == lines[1..i];
      if r.Some? {
        rows := rows + [r.value];
      }
      i := i + 1;
    }
    assert lines[1..i] == lines[1..];
  }

  /** Text with at most one line after trimming has no rows. */
  lemma SingleLineNoRows(text: string)
    ensures |CsvLines(text)| <= 1 ==> CsvRows(text) == []
    ensures '\n' !in Trim(text) ==> CsvRows(text) == []
  {
  }

  /** There is at most one row per line after the header, each the row of
      one such line, so with a non-empty trimmed term. */
  lemma CsvRowsBounds(text: string)
    ensures |CsvRows(text)| <= |CsvLines(text)| - 1
    ensures forall k :: 0 <= k < |CsvRows(text)| ==>
      exists i :: 1 <= i < |CsvLines(text)| && ParseRow(CsvLines(text)[i]) == Some(CsvRows(text)[k])
  {
    var lines := CsvLines(text);
    if |lines| > 1 {
      RowsFromLines(lines);
    }
  }

  lemma RowsFromLines(lines: seq<string>)
    requires |lines| > 1
    ensures forall k :: 0 <= k < |FilterMap(lines[1..], ParseRow)| ==>
      exists i :: 1 <= i < |lines| && ParseRow(lines[i]) == Some(FilterMap(lines[1..], ParseRow)[k])
  {
    var rows := FilterMap(lines[1..], ParseRow);
    forall k | 0 <= k < |rows|
      ensures exists i :: 1 <= i < |lines| && ParseRow(lines[i]) == Some(rows[k])
    {
      var i :| 0 <= i < |lines| - 1 && ParseRow(lines[1..][i]) == Some(rows[k]);
      assert lines[1..][i] == lines[i + 1];
    }
  }

  /** The header line is never read: two texts that differ only in it give
      the same rows. */
  lemma HeaderIgnored(h1: string, h2: string, body: string)
    requires '\n' !in h1 && '\n' !in h2
    requires h1 != [] && !IsSpace(h1[0]) && h2 != [] && !IsSpace(h2[0])
    requires body != [] && !IsSpace(body[|body| - 1])
    ensures CsvRows(h1 + "\n" + body) == CsvRows(h2 + "\n" + body)
  {
    HeaderSplit(h1, body);
    HeaderSplit(h2, body);
    var q := Split(body, '\n');
    StripCRsTail(h1, q);
    StripCRsTail(h2, q);
  }

  lemma StripCRsTail(h: string, q: seq<string>)
    requires q != []
    ensures StripCRs([h] + q)[1..] == StripCRs(q)
  {
    assert ([h] + q)[1..] == q;
  }

  lemma HeaderSplit(h: string, body: string)
    requires '\n' !in h && h != [] && !IsSpace(h[0])
    requires body != [] && !IsSpace(body[|body| - 1])
    ensures Split(Trim(h + "\n" + body), '\n') == [h] + Split(body, '\n')
  {
    var s := h + "\n" + body;
    assert s[0] == h[0] && s[|s| - 1] == body[|body| - 1];
    TrimOfTrimmed(s);
    SplitFirst(h, body, '\n');
  }

  /** A line written from comma-free fields, the first three trimmed and
      the first non-empty, reads back as those three fields; any further
      fields are ignored. */
  lemma RowRoundTrip(fields: seq<string>)
    requires |fields| >= 3 && fields[0] != []
    requires Trimmed(fields[0]) && Trimmed(fields[1]) && Trimmed(fields[2])
    requires forall k :: 0 <= k < |fields| ==> ',' !in fields[k]
    ensures ParseRow(Join(fields, [','])) == Some(Row(fields[0], fields[1], fields[2]))
  {
    SplitJoin(fields, ',');
    RowOfFields(Join(fields, [',']), fields);
  }

  lemma RowOfFields(line: string, fields: seq<string>)
    requires Split(line, ',') == fields && |fields| >= 3
    requires fields[0] != [] && Trimmed(fields[0]) && Trimmed(fields[1]) && Trimmed(fields[2])
    ensures ParseRow(line) == Some(Row(fields[0], fields[1], fields[2]))
  {
    TrimOfTrimmed(fields[0]);
    TrimOfTrimmed(fields[1]);
    TrimOfTrimmed(fields[2]);
  }

  /** A line holding only a term gives empty translation and example. */
  lemma TermOnlyRow(term: string)
    requires term != [] && Trimmed(term) && ',' !in term
    ensures ParseRow(term) == Some(Row(term, [], []))
  {
    TrimOfTrimmed(term);
    assert Trim([]) == [];
  }

  /** The three catalog modes, in the order they are tried. */
  datatype Mode = Light | Standard | Intense

  const Modes: seq<Mode> := [Light, Standard, Intense]

  function Rank(m: Mode): nat
    ensures Rank(m) < 3 && Modes[Rank(m)] == m
  {
    match m
    case Light => 0
    case Standard => 1
    case Intense => 2
  }

  /** The targets a style node gives, or the defaults 100, 150 and 250. */
  function TargetsOf(given: Option<map<Mode, Number>>): map<Mode, Number>
  {
    if given.Some? then given.value
    else map[Light := Num(100.0), Standard := Num(150.0), Intense := Num(250.0)]
  }

  /** A mode whose target is a number; `NaN` counts as none, since no
      comparison with it succeeds. */
  predicate Numeric(targets: map<Mode, Number>, m: Mode)
  {
    m in targets && targets[m].Num?
  }

  function Abs(x: real): real { if x < 0.0 then -x else x }

  function Diff(targets: map<Mode, Number>, m: Mode, targetWords: int): real
    requires Numeric(targets, m)
  {
    Abs(targets[m].value - targetWords as real)
  }

  /** The choice after trying the first `n` modes: the mode so far and its
      distance (`None` for `Infinity`). */
  function Scan(targets: map<Mode, Number>, targetWords: int, n: nat): (r: (Mode, Option<real>))
    requires n <= 3
  {
    if n == 0 then (Standard, None)
    else
      var prev := Scan(targets, targetWords, n - 1);
      var m := Modes[n - 1];
      if Numeric(targets, m) && (prev.1.None? || Diff(targets, m, targetWords) < prev.1.value)
      then (m, Some(Diff(targets, m, targetWords)))
      else prev
  }

  /** The mode nearest to the word target. */
  function Nearest(targets: map<Mode, Number>, targetWords: int): Mode
  {
    Scan(targets, targetWords, 3).0
  }

  /** The mode-selection loop. */
  method NearestMode(targets: map<Mode, Number>, targetWords: int) returns (best: Mode)
    ensures best == Nearest(targets, targetWords)
  {
    best := Standard;
    var bestDiff: Option<real> := None;
    for i := 0 to 3
      invariant (best, bestDiff) == Scan(targets, targetWords, i)
    {
      var m := Modes[i];
      if Numeric(targets, m) {
        var diff := Abs(targets[m].value - targetWords as real);
        if bestDiff.None? || diff < bestDiff.value {
          bestDiff := Some(diff);
          best := m;
        }
      }
    }
  }

  /** What the scan keeps: no numeric target yet means `Standard`;
      otherwise the kept mode is numeric, no tried mode is nearer, and every
      earlier tried mode is strictly farther. */
  lemma {:induction false} ScanFacts(targets: map<Mode, Number>, targetWords: int, n: nat)
    requires n <= 3
    ensures var r := Scan(targets, targetWords, n);
      && (r.1.None? <==> forall k :: 0 <= k < n ==> !Numeric(targets, Modes[k]))
      && (r.1.None? ==> r.0 == Standard)
      && (r.1.Some? ==> Numeric(targets, r.0) && Rank(r.0) < n && r.1.value == Diff(targets, r.0, targetWords))
      && (r.1.Some? ==> forall k :: 0 <= k < n && Numeric(targets, Modes[k]) ==>
            Diff(targets, r.0, targetWords) <= Diff(targets, Modes[k], targetWords)
            && (k < Rank(r.0) ==> Diff(targets, Modes[k], targetWords) > Diff(targets, r.0, targetWords)))
  {
    if n > 0 {
      ScanFacts(targets, targetWords, n - 1);
    }
  }

  /** The nearest mode has the smallest distance, ties going to the mode
      tried first; with no numeric target it is `Standard`. */
  lemma NearestIsClosest(targets: map<Mode, Number>, targetWords: int)
    ensures (forall m :: !Numeric(targets, m)) ==> Nearest(targets, targetWords) == Standard
    ensures forall m :: Numeric(targets, m) ==>
      && Numeric(targets, Nearest(targets, targetWords))
      && Diff(targets, Nearest(targets, targetWords), targetWords) <= Diff(targets, m, targetWords)
      && (Rank(m) < Rank(Nearest(targets, targetWords)) ==>
            Diff(targets, m, targetWords) > Diff(targets, Nearest(targets, targetWords), targetWords))
  {
    ScanFacts(targets, targetWords, 3);
    var best := Nearest(targets, targetWords);
    forall m | Numeric(targets, m)
      ensures Numeric(targets, best)
      ensures Diff(targets, best, targetWords) <= Diff(targets, m, targetWords)
      ensures Rank(m) < Rank(best) ==> Diff(targets, m, targetWords) > Diff(targets, best, targetWords)
    {
      assert Modes[Rank(m)] == m;
      assert Scan(targets, targetWords, 3).1.Some?;
    }
  }

  /** With the default targets, 125 words sit halfway between light and
      standard and 200 halfway between standard and intense: the earlier
      mode wins each tie. */
  lemma DefaultTies()
    ensures Nearest(TargetsOf(None), 125) == Light
    ensures Nearest(TargetsOf(None), 200) == Standard
    ensures Nearest(TargetsOf(None), 150) == Standard
    ensures Nearest(TargetsOf(None), 400) == Intense
  {
  }

  /** `onboarding?.words || 150`: a missing or zero count means 150. */
  function TargetWords(words: Option<int>): int
  {
    if words.Some? && words.value != 0 then words.value else 150
  }

  /** `onboarding?.words || node.target || 120`. */
  function Target60(words: Option<int>, nodeTarget: Option<int>): int
  {
    if words.Some? && words.value != 0 then words.value
    else if nodeTarget.Some? && nodeTarget.value != 0 then nodeTarget.value
    else 120
  }

  /** `if (rows.length > target) rows = rows.slice(0, target)`. */
  function Truncate(rows: seq<Row>, target: int): (r: seq<Row>)
    ensures IsPrefix(r, rows)
    ensures target >= 0 ==> |r| == Min(|rows|, target)
    ensures |rows| <= target ==> r == rows
  {
    if |rows| > target then SliceTo(rows, target) else rows
  }

  /** `names.some((name) => p.endsWith(name))`. */
  predicate AnyEndsWith(p: string, names: seq<string>)
    ensures AnyEndsWith(p, names) <==> exists k :: 0 <= k < |names| && EndsWith(p, names[k])
  {
    if names == [] then false
    else EndsWith(p, names[0]) || AnyEndsWith(p, names[1..])
  }

  function EndsWithSome(names: seq<string>): string -> bool
  {
    p => AnyEndsWith(p, names)
  }

  /** The recommended theme paths of the 60+ catalog: the themes, in theme
      order, whose path ends with one of the recommended file names. */
  function RecommendedPaths(themes: seq<string>, names: seq<string>): (r: seq<string>)
    ensures forall p :: p in r <==> p in themes && exists k :: 0 <= k < |names| && EndsWith(p, names[k])
    ensures |r| <= |themes|
  {
    Filter(themes, EndsWithSome(names))
  }
}
