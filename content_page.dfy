/** The reading page (src/pages/Content.tsx): a text is normalised, the
    vocabulary terms in it are found, and gap-fill and multiple-choice
    exercises are built from it and checked. */
module ContentPage {
  import opened Seqs
  import opened Numbers
  import opened Strings
  import opened Shuffling
  import TextWords
  import VocabPage

  // ---------------------------------------------------------------------
  // normalizeText

  /** `s.replace(/\s+/g, ' ')`: every run of white space becomes one space. */
  function Collapse(s: string): (r: string)
    ensures |r| <= |s|
    ensures s != [] ==> r != [] && r[0] == (if IsSpace(s[0]) then ' ' else s[0])
    decreases |s|
  {
    if s == [] then []
    else if IsSpace(s[0]) then
      var rest := TrimStart(s);
      assert |rest| < |s| by { assert rest == s[|s| - |rest|..]; }
      [' '] + Collapse(rest)
    else [s[0]] + Collapse(s[1..])
  }

  /** Every white-space character is a plain space, and no two are adjacent. */
  ghost predicate Collapsed(s: string)
  {
    forall i :: 0 <= i < |s| && IsSpace(s[i]) ==> s[i] == ' ' && (i + 1 < |s| ==> !IsSpace(s[i + 1]))
  }

  lemma {:induction false} CollapseIsCollapsed(s: string)
    ensures Collapsed(Collapse(s))
    decreases |s|
  {
    if s != [] {
      if IsSpace(s[0]) {
        var rest := TrimStart(s);
        assert rest == s[|s| - |rest|..];
        CollapseIsCollapsed(rest);
        assert Collapse(s) == [' '] + Collapse(rest);
        ConsCollapsed(' ', Collapse(rest));
      } else {
        CollapseIsCollapsed(s[1..]);
        assert Collapse(s) == [s[0]] + Collapse(s[1..]);
        ConsCollapsed(s[0], Collapse(s[1..]));
      }
    }
  }

  /** A character in front of a collapsed string keeps it collapsed unless
      it is white space other than a space, or a space before white space. */
  lemma ConsCollapsed(c: char, t: string)
    requires Collapsed(t)
    requires IsSpace(c) ==> c == ' ' && (t == [] || !IsSpace(t[0]))
    ensures Collapsed([c] + t)
  {
    var r := [c] + t;
    assert forall i :: 1 <= i < |r| ==> r[i] == t[i - 1];
  }

  lemma {:induction false} CollapseOfCollapsed(s: string)
    requires Collapsed(s)
    ensures Collapse(s) == s
    decreases |s|
  {
    if s != [] {
      var tail := s[1..];
      SliceCollapsed(s, 1, |s|);
      CollapseOfCollapsed(tail);
      assert s == [s[0]] + tail;
      if IsSpace(s[0]) {
        assert s[0] == ' ';
        assert tail == [] || !IsSpace(tail[0]);
        assert TrimStart(s) == TrimStart(tail) == tail;
        assert Collapse(s) == [' '] + Collapse(tail);
      } else {
        assert Collapse(s) == [s[0]] + Collapse(tail);
      }
    }
  }

  /** A piece of a collapsed string is collapsed. */
  lemma SliceCollapsed(s: string, a: nat, b: nat)
    requires a <= b <= |s| && Collapsed(s)
    ensures Collapsed(s[a..b])
  {
    assert forall i :: 0 <= i < b - a ==> s[a..b][i] == s[a + i];
  }

  lemma TrimKeepsCollapsed(c: string)
    requires Collapsed(c)
    ensures Collapsed(Trim(c))
  {
    var t := TrimStart(c);
    SliceCollapsed(c, |c| - |t|, |c|);
    SliceCollapsed(t, 0, |TrimEnd(t)|);
  }

  /** `normalizeText(s)`. */
  function NormalizeText(s: string): (r: string)
    ensures Collapsed(r) && Trimmed(r)
  {
    CollapseIsCollapsed(s);
    TrimKeepsCollapsed(Collapse(s));
    Trim(Collapse(s))
  }

  /** Normalising twice is normalising once. */
  lemma NormalizeIdempotent(s: string)
    ensures NormalizeText(NormalizeText(s)) == NormalizeText(s)
  {
    var t := NormalizeText(s);
    CollapseOfCollapsed(t);
    TrimOfTrimmed(t);
  }

  /** The run of non-white-space characters at the front of `t`. */
  function LeadingWord(t: string): (w: string)
    ensures |w| <= |t| && w == t[..|w|]
    ensures forall i :: 0 <= i < |w| ==> !IsSpace(w[i])
    ensures |w| == |t| || IsSpace(t[|w|])
    ensures t != [] && !IsSpace(t[0]) ==> w != []
  {
    if t == [] || IsSpace(t[0]) then [] else [t[0]] + LeadingWord(t[1..])
  }

  /** The maximal runs of non-white-space characters of `s`, in order: an
      independent description of what `normalizeText` keeps. */
  function Fields(s: string): (f: seq<string>)
    ensures forall k :: 0 <= k < |f| ==> IsWord(f[k])
    decreases |s|
  {
    if s == [] then []
    else if IsSpace(s[0]) then Fields(s[1..])
    else
      var w := LeadingWord(s);
      var g := Fields(s[|w|..]);
      assert IsWord(w);
      var f := [w] + g;
      assert forall k :: 1 <= k < |f| ==> f[k] == g[k - 1];
      f
  }

  /** A string has no fields exactly when it is all white space. */
  lemma {:induction false} FieldsBlank(s: string)
    ensures Fields(s) == [] <==> AllSpace(s)
    decreases |s|
  {
    if s != [] && IsSpace(s[0]) {
      FieldsBlank(s[1..]);
      assert AllSpace(s) <==> AllSpace(s[1..]) by {
        assert forall i :: 0 < i < |s| ==> s[i] == s[1..][i - 1];
      }
    }
  }

  /** A non-empty string without white space. */
  predicate IsWord(w: string)
  {
    w != [] && forall i :: 0 <= i < |w| ==> !IsSpace(w[i])
  }

  /** Collapsing a string that starts with a word emits the word first. */
  lemma {:induction false} CollapseWord(t: string)
    ensures Collapse(t) == LeadingWord(t) + Collapse(t[|LeadingWord(t)|..])
    decreases |t|
  {
    if t != [] && !IsSpace(t[0]) {
      var u := t[1..];
      var w := LeadingWord(u);
      assert LeadingWord(t) == [t[0]] + w;
      assert Collapse(t) == [t[0]] + Collapse(u);
      CollapseWord(u);
      assert u[|w|..] == t[1 + |w|..];
    }
  }

  /** Fields of a string are those after its leading white space. */
  lemma {:induction false} FieldsTrimStart(s: string)
    ensures Fields(TrimStart(s)) == Fields(s)
    decreases |s|
  {
    if s != [] && IsSpace(s[0]) {
      FieldsTrimStart(s[1..]);
    }
  }

  /** One space when `b` holds, otherwise nothing. */
  function Pad(b: bool): string
  {
    if b then " " else ""
  }

  /** A space between the fields, and one more at either end where the
      input has white space there: what `replace(/\s+/g, ' ')` produces. */
  lemma {:induction false} CollapseFields(s: string)
    ensures Collapse(s) ==
      Pad(s != [] && IsSpace(s[0])) + Join(Fields(s), " ") + Pad(Fields(s) != [] && IsSpace(s[|s| - 1]))
    decreases |s|, 1
  {
    if s == [] {
    } else if IsSpace(s[0]) {
      var t := TrimStart(s);
      assert |t| < |s| by { assert t == s[|s| - |t|..]; }
      FieldsTrimStart(s);
      CollapseFields(t);
      LeadSpacePads(s, t);
      CollapseSpace(s);
      SpliceLead(Collapse(s), Collapse(t), Pad(t != [] && IsSpace(t[0])), Join(Fields(s), " "),
        Pad(Fields(t) != [] && IsSpace(t[|t| - 1])), Pad(Fields(s) != [] && IsSpace(s[|s| - 1])));
    } else if |LeadingWord(s)| == |s| {
      WordOnly(s);
    } else {
      CollapseFieldsWord(s);
    }
  }

  /** `CollapseFields` for a string that is one word. */
  lemma WordOnly(s: string)
    requires s != [] && !IsSpace(s[0]) && |LeadingWord(s)| == |s|
    ensures Collapse(s) == Pad(false) + Join(Fields(s), " ") + Pad(Fields(s) != [] && IsSpace(s[|s| - 1]))
  {
    OneWord(s);
    var w := LeadingWord(s);
    SpliceOne(Collapse(s), Join([w], " "), w, Pad(false), Pad(Fields(s) != [] && IsSpace(s[|s| - 1])));
  }

  /** A string that is one word collapses to itself and is its one field. */
  lemma OneWord(s: string)
    requires s != [] && !IsSpace(s[0]) && |LeadingWord(s)| == |s|
    ensures Collapse(s) == LeadingWord(s) && Fields(s) == [LeadingWord(s)]
    ensures !IsSpace(s[|s| - 1])
  {
    var w := LeadingWord(s);
    assert s == w;
    CollapseWord(s);
    FieldsWord(s);
    assert s[|w|..] == [];
    assert s[|s| - 1] == w[|w| - 1];
  }

  /** The sequence algebra of the one-word case of `CollapseFields`. */
  lemma SpliceOne(cs: string, j: string, w: string, a: string, q: string)
    requires cs == w && j == w && a == "" && q == ""
    ensures cs == a + j + q
  {
  }

  /** `CollapseFields` for a word followed by white space. */
  lemma {:induction false} CollapseFieldsWord(s: string)
    requires s != [] && !IsSpace(s[0]) && |LeadingWord(s)| < |s|
    ensures Collapse(s) == Pad(false) + Join(Fields(s), " ") + Pad(Fields(s) != [] && IsSpace(s[|s| - 1]))
    decreases |s|, 0
  {
    var w := LeadingWord(s);
    var rest := s[|w|..];
    assert s == w + rest by { assert w == s[..|w|]; }
    CollapseWord(s);
    FieldsWord(s);
    CollapseFields(rest);
    WordSpacePads(s, w, rest);
    var f := Fields(rest);
    SpliceWord(Collapse(s), w, Collapse(rest), Join(f, " "), Join([w] + f, " "), f == [],
      Pad(f != [] && IsSpace(rest[|rest| - 1])), Pad(IsSpace(s[|s| - 1])));
  }

  /** The unfolding of `Collapse` over leading white space. */
  lemma CollapseSpace(s: string)
    requires s != [] && IsSpace(s[0])
    ensures Collapse(s) == " " + Collapse(TrimStart(s))
  {
  }

  /** The unfolding of `Fields` over a leading word. */
  lemma FieldsWord(s: string)
    requires s != [] && !IsSpace(s[0])
    ensures Fields(s) == [LeadingWord(s)] + Fields(s[|LeadingWord(s)|..])
  {
  }

  /** The sequence algebra of the leading-space step of `CollapseFields`. */
  lemma SpliceLead(cs: string, ct: string, a: string, j: string, p: string, q: string)
    requires cs == " " + ct && ct == a + j + p && a == "" && p == q
    ensures cs == Pad(true) + j + q
  {
  }

  /** The sequence algebra of the word step of `CollapseFields`. */
  lemma SpliceWord(cs: string, w: string, cr: string, jr: string, j: string, noMore: bool, p: string, q: string)
    requires cs == w + cr && cr == " " + jr + p
    requires noMore ==> jr == [] && p == [] && j == w && q == " "
    requires !noMore ==> j == w + " " + jr && p == q
    ensures cs == Pad(false) + j + q
  {
  }

  /** The pads around the fields of a string with leading white space are
      those of the string after it, with one space in front. */
  lemma LeadSpacePads(s: string, t: string)
    requires s != [] && IsSpace(s[0]) && t == TrimStart(s)
    requires Fields(t) == Fields(s)
    ensures Pad(t != [] && IsSpace(t[0])) == ""
    ensures Pad(Fields(t) != [] && IsSpace(t[|t| - 1])) == Pad(Fields(s) != [] && IsSpace(s[|s| - 1]))
  {
    if t != [] {
      assert t[|t| - 1] == s[|s| - 1];
    }
  }

  /** The pads and separators around a word followed by white space. */
  lemma WordSpacePads(s: string, w: string, rest: string)
    requires w != [] && rest != [] && s == w + rest
    ensures Fields(rest) == [] ==> AllSpace(rest) && IsSpace(s[|s| - 1]) && Join([w] + Fields(rest), " ") == w
    ensures Fields(rest) != [] ==>
      Join([w] + Fields(rest), " ") == w + " " + Join(Fields(rest), " ")
    ensures Pad(Fields(rest) != [] && IsSpace(rest[|rest| - 1])) == Pad(Fields(rest) != [] && IsSpace(s[|s| - 1]))
  {
    var f := Fields(rest);
    assert s[|s| - 1] == rest[|rest| - 1];
    FieldsBlank(rest);
    assert ([w] + f)[1..] == f;
  }

  /** Words joined by single spaces neither start nor end with white space. */
  lemma {:induction false} JoinFieldsTrimmed(f: seq<string>)
    requires forall k :: 0 <= k < |f| ==> IsWord(f[k])
    ensures Join(f, " ") == [] <==> f == []
    ensures Trimmed(Join(f, " "))
  {
    if |f| == 1 {
      assert IsWord(f[0]);
    } else if |f| > 1 {
      assert IsWord(f[0]);
      JoinFieldsTrimmed(f[1..]);
      var j := Join(f, " ");
      var rest := Join(f[1..], " ");
      assert j == f[0] + " " + rest;
      assert j[0] == f[0][0];
      assert j[|j| - 1] == rest[|rest| - 1];
    }
  }

  /** `normalizeText(s)` is the fields of `s` joined by single spaces. */
  lemma NormalizeFields(s: string)
    ensures NormalizeText(s) == Join(Fields(s), " ")
  {
    var f := Fields(s);
    var lead := Pad(s != [] && IsSpace(s[0]));
    var trail := Pad(f != [] && IsSpace(s[|s| - 1]));
    CollapseFields(s);
    JoinFieldsTrimmed(f);
    PadAllSpace(s != [] && IsSpace(s[0]));
    PadAllSpace(f != [] && IsSpace(s[|s| - 1]));
    TrimPadded(lead, Join(f, " "), trail);
    assert NormalizeText(s) == Trim(lead + Join(f, " ") + trail);
  }

  lemma PadAllSpace(b: bool)
    ensures AllSpace(Pad(b))
  {
  }

  /** `tokenizeWords(s)`: the maximal runs of `[a-zа-яё'-]` in the
      lower-cased text. */
  function Words(s: string): seq<string>
  {
    TextWords.TokensFrom(Lower(s), 0, 1)
  }

  // ---------------------------------------------------------------------
  // buildGapFill

  predicate IsStop(c: char) { c == '.' || c == '!' || c == '?' }

  /** Index of the first `[.!?]` followed by white space, from `p` on. */
  function FirstStop(s: string, p: nat): (k: Option<nat>)
    requires p <= |s|
    ensures k.Some? ==> p <= k.value && k.value + 1 < |s| && IsStop(s[k.value]) && IsSpace(s[k.value + 1])
    decreases |s| - p
  {
    if p + 1 >= |s| then None
    else if IsStop(s[p]) && IsSpace(s[p + 1]) then Some(p)
    else FirstStop(s, p + 1)
  }

  /** The sentences of `text.split(/([.!?]\s+)/)` after the reduce: each
      piece with the stop and the white space after it, trimmed; empty
      pieces dropped. */
  function Sentences(s: string): (r: seq<string>)
    ensures forall i :: 0 <= i < |r| ==> r[i] != []
    decreases |s|
  {
    match FirstStop(s, 0)
    case None => if Trim(s) == [] then [] else [Trim(s)]
    case Some(k) =>
      var rest := TrimStart(s[k + 1..]);
      var piece := Trim(s[..|s| - |rest|]);
      (if piece == [] then [] else [piece]) + Sentences(rest)
  }

  /** A sentence chosen for the gap-fill: its text with blanks, and the
      words blanked out. */
  datatype GapItem = GapItem(sentence: string, blanks: seq<string>)

  const Blank: string := "____"

  function InSet(terms: set<string>): string -> bool
  {
    w => w in terms
  }

  /** The terms among `tokens`, each once, in order of first occurrence:
      the `blanks` array the `tokens.map` fills. */
  function BlanksIn(tokens: seq<string>, terms: set<string>): seq<string>
  {
    if tokens == [] then []
    else
      var b := BlanksIn(tokens[..|tokens| - 1], terms);
      var w := tokens[|tokens| - 1];
      if w in terms && w !in b then b + [w] else b
  }

  /** The array `tokens.map` returns: a term not seen before becomes the
      blank, every other token stays. */
  function ReplacedIn(tokens: seq<string>, terms: set<string>): (r: seq<string>)
    ensures |r| == |tokens|
  {
    if tokens == [] then []
    else
      var p := tokens[..|tokens| - 1];
      var w := tokens[|tokens| - 1];
      ReplacedIn(p, terms) + [if w in terms && w !in BlanksIn(p, terms) then Blank else w]
  }

  /** The blanks are the distinct terms of the sentence in first-seen order. */
  lemma {:induction false} BlanksInIsDedupe(tokens: seq<string>, terms: set<string>)
    ensures BlanksIn(tokens, terms) == Dedupe(Filter(tokens, InSet(terms)))
    decreases |tokens|
  {
    if tokens != [] {
      var p := tokens[..|tokens| - 1];
      assert tokens == p + [tokens[|tokens| - 1]];
      BlanksInIsDedupe(p, terms);
      DedupeFilterSnoc(p, tokens[|tokens| - 1], InSet(terms));
    }
  }

  /** The replaced list keeps the length and every token that is not a
      term; a token becomes the blank exactly at the first occurrence of a
      term. */
  lemma {:induction false} ReplacedInFacts(tokens: seq<string>, terms: set<string>)
    ensures |ReplacedIn(tokens, terms)| == |tokens|
    ensures forall i :: 0 <= i < |tokens| ==>
      ReplacedIn(tokens, terms)[i] ==
        if tokens[i] in terms && tokens[i] !in tokens[..i] then Blank else tokens[i]
    decreases |tokens|
  {
    if tokens != [] {
      var n := |tokens| - 1;
      var p := tokens[..n];
      var r := ReplacedIn(tokens, terms);
      ReplacedInFacts(p, terms);
      assert r == ReplacedIn(p, terms) + [r[n]];
      ReplacedLast(tokens, terms);
      forall i | 0 <= i < n
        ensures r[i] == if tokens[i] in terms && tokens[i] !in tokens[..i] then Blank else tokens[i]
      {
        assert r[i] == ReplacedIn(p, terms)[i];
        assert p[i] == tokens[i] && p[..i] == tokens[..i];
      }
    }
  }

  /** The last token is blanked exactly when it is a term not seen before. */
  lemma ReplacedLast(tokens: seq<string>, terms: set<string>)
    requires tokens != []
    ensures var n := |tokens| - 1;
      ReplacedIn(tokens, terms)[n] == if tokens[n] in terms && tokens[n] !in tokens[..n] then Blank else tokens[n]
  {
    var n := |tokens| - 1;
    var p, w := tokens[..n], tokens[n];
    BlanksInIsDedupe(p, terms);
    DedupeFilterSnoc(p, w, InSet(terms));
    assert w in BlanksIn(p, terms) <==> w in p && w in terms;
    var last := if w in terms && w !in BlanksIn(p, terms) then Blank else w;
    assert ReplacedIn(tokens, terms) == ReplacedIn(p, terms) + [last];
  }

  /** The `tokens.map` with its `blanks.push`. */
  method BlanksOf(tokens: seq<string>, terms: set<string>) returns (blanks: seq<string>, replaced: seq<string>)
    ensures blanks == BlanksIn(tokens, terms)
    ensures replaced == ReplacedIn(tokens, terms)
  {
    blanks, replaced := [], [];
    for i := 0 to |tokens|
      invariant blanks == BlanksIn(tokens[..i], terms)
      invariant replaced == ReplacedIn(tokens[..i], terms)
    {
      var w := tokens[i];
      assert tokens[..i + 1][..i] == tokens[..i];
      if w in terms && w !in blanks {
        blanks := blanks + [w];
        replaced := replaced + [Blank];
      } else {
        replaced := replaced + [w];
      }
    }
    assert tokens[..|tokens|] == tokens;
  }

  /** `s.replace(/[a-zа-яё'-]+/gi, () => replaced.shift() || '')` from
      position `p`: each run of word characters (tested on the lower-cased
      text `low`) gives way to the next item, or to nothing once they run out. */
  function Refill(s: string, low: string, p: nat, items: seq<string>): string
    requires |low| == |s| && p <= |s|
    decreases |s| - p
  {
    if p == |s| then []
    else if !TextWords.IsTokenChar(low[p]) then [s[p]] + Refill(s, low, p + 1, items)
    else
      var n := TextWords.RunLen(low, p);
      (if items == [] then [] else items[0]) + Refill(s, low, p + n, if items == [] then [] else items[1..])
  }

  /** Refilling with the words themselves gives the lower-cased sentence:
      the rebuilt sentence differs from its lower-case form only where a
      blank was put. */
  lemma RefillWithWords(s: string, p: nat)
    requires p <= |s|
    ensures Refill(s, Lower(s), p, TextWords.TokensFrom(Lower(s), p, 1)) == Lower(s)[p..]
  {
    var low := Lower(s);
    forall k | p <= k < |s| && !TextWords.IsTokenChar(low[k]) ensures s[k] == low[k] {
      assert low[k] == LowerChar(s[k]);
    }
    RefillWithTokens(s, low, p);
  }

  /** The same for any text `low` that agrees with `s` outside the word runs. */
  lemma {:induction false} RefillWithTokens(s: string, low: string, p: nat)
    requires |low| == |s| && p <= |s|
    requires forall k :: p <= k < |s| && !TextWords.IsTokenChar(low[k]) ==> s[k] == low[k]
    ensures Refill(s, low, p, TextWords.TokensFrom(low, p, 1)) == low[p..]
    decreases |s| - p
  {
    if p < |s| {
      var n := if TextWords.IsTokenChar(low[p]) then TextWords.RunLen(low, p) else 1;
      RefillWithTokens(s, low, p + n);
      RefillStep(s, low, p);
    }
  }

  /** One step of `RefillWithTokens`: a character outside the runs, or one
      whole run, from position `p`. */
  lemma RefillStep(s: string, low: string, p: nat)
    requires |low| == |s| && p < |s|
    requires !TextWords.IsTokenChar(low[p]) ==> s[p] == low[p]
    requires var n := if TextWords.IsTokenChar(low[p]) then TextWords.RunLen(low, p) else 1;
      Refill(s, low, p + n, TextWords.TokensFrom(low, p + n, 1)) == low[p + n..]
    ensures Refill(s, low, p, TextWords.TokensFrom(low, p, 1)) == low[p..]
  {
    if !TextWords.IsTokenChar(low[p]) {
      RefillSkip(s, low, p);
    } else {
      RefillRun(s, low, p);
    }
  }

  lemma RefillSkip(s: string, low: string, p: nat)
    requires |low| == |s| && p < |s| && !TextWords.IsTokenChar(low[p]) && s[p] == low[p]
    requires Refill(s, low, p + 1, TextWords.TokensFrom(low, p + 1, 1)) == low[p + 1..]
    ensures Refill(s, low, p, TextWords.TokensFrom(low, p, 1)) == low[p..]
  {
    var ts := TextWords.TokensFrom(low, p + 1, 1);
    assert TextWords.TokensFrom(low, p, 1) == ts;
    assert Refill(s, low, p, ts) == [s[p]] + Refill(s, low, p + 1, ts);
    assert low[p..] == [low[p]] + low[p + 1..];
  }

  lemma RefillRun(s: string, low: string, p: nat)
    requires |low| == |s| && p < |s| && TextWords.IsTokenChar(low[p])
    requires var n := TextWords.RunLen(low, p);
      Refill(s, low, p + n, TextWords.TokensFrom(low, p + n, 1)) == low[p + n..]
    ensures Refill(s, low, p, TextWords.TokensFrom(low, p, 1)) == low[p..]
  {
    var n := TextWords.RunLen(low, p);
    var w, ts := low[p..p + n], TextWords.TokensFrom(low, p + n, 1);
    assert TextWords.TokensFrom(low, p, 1) == [w] + ts;
    assert ([w] + ts)[1..] == ts;
    assert Refill(s, low, p, [w] + ts) == w + Refill(s, low, p + n, ts);
    assert low[p..] == w + low[p + n..];
  }

  /** The gap-fill item of one sentence; none when no term occurs in it. */
  function GapItemFor(s: string, terms: set<string>): Option<GapItem>
  {
    var tokens := Words(s);
    var blanks := BlanksIn(tokens, terms);
    if blanks == [] then None
    else Some(GapItem(Refill(s, Lower(s), 0, ReplacedIn(tokens, terms)), blanks))
  }

  function GapOf(terms: set<string>): string -> Option<GapItem>
  {
    s => GapItemFor(s, terms)
  }

  /** The lower-cased terms. */
  function TermSet(vocabTerms: seq<string>): set<string>
  {
    set i | 0 <= i < |vocabTerms| :: Lower(vocabTerms[i])
  }

  /** `buildGapFill(text, vocabTerms)` as a value: the first five
      sentences that contain a term. */
  function GapFill(text: string, vocabTerms: seq<string>): seq<GapItem>
  {
    SliceTo(FilterMap(Sentences(text), GapOf(TermSet(vocabTerms))), 5)
  }

  /** `buildGapFill(text, vocabTerms)`. */
  method BuildGapFill(text: string, vocabTerms: seq<string>) returns (selected: seq<GapItem>)
    ensures selected == GapFill(text, vocabTerms)
  {
    selected := SelectGaps(Sentences(text), TermSet(vocabTerms));
  }

  /** The loop over the sentences: stop once five items are kept. */
  method SelectGaps(sentences: seq<string>, terms: set<string>) returns (selected: seq<GapItem>)
    ensures selected == SliceTo(FilterMap(sentences, GapOf(terms)), 5)
  {
    ghost var f := GapOf(terms);
    selected := [];
    var i := 0;
    while i < |sentences|
      invariant 0 <= i <= |sentences|
      invariant selected == FilterMap(sentences[..i], f)
      invariant |selected| < 5
    {
      selected := SelectStep(sentences, i, terms, selected);
      if |selected| >= 5 {
        FilterMapLimit(sentences, i + 1, f, 5);
        return;
      }
      i := i + 1;
    }
    assert sentences[..i] == sentences;
  }

  /** One turn of that loop: the item of sentence `i`, if any, is kept. */
  method SelectStep(sentences: seq<string>, i: nat, terms: set<string>, selected: seq<GapItem>)
    returns (selected': seq<GapItem>)
    requires i < |sentences| && selected == FilterMap(sentences[..i], GapOf(terms))
    ensures selected' == FilterMap(sentences[..i + 1], GapOf(terms))
    ensures |selected'| <= |selected| + 1
  {
    var item := GapItemOf(sentences[i], terms);
    GapStep(sentences, i, terms);
    selected' := if item.Some? then selected + [item.value] else selected;
  }

  /** One sentence of the loop: its tokens, blanks and rebuilt text. */
  method GapItemOf(s: string, terms: set<string>) returns (item: Option<GapItem>)
    ensures item == GapOf(terms)(s)
  {
    var tokens := Words(s);
    var blanks, replaced := BlanksOf(tokens, terms);
    if blanks == [] {
      item := None;
    } else {
      item := Some(GapItem(Refill(s, Lower(s), 0, replaced), blanks));
    }
  }

  lemma GapStep(sentences: seq<string>, i: nat, terms: set<string>)
    requires i < |sentences|
    ensures FilterMap(sentences[..i + 1], GapOf(terms)) ==
      FilterMap(sentences[..i], GapOf(terms)) +
      (if GapOf(terms)(sentences[i]).Some? then [GapOf(terms)(sentences[i]).value] else [])
  {
    assert sentences[..i + 1][..i] == sentences[..i];
  }

  /** What the gap-fill promises: at most five items; each item's blanks
      are distinct lower-case terms, and there is at least one. */
  lemma GapFillFacts(text: string, vocabTerms: seq<string>)
    ensures |GapFill(text, vocabTerms)| <= 5
    ensures forall k :: 0 <= k < |GapFill(text, vocabTerms)| ==>
      var b := GapFill(text, vocabTerms)[k].blanks;
      && b != [] && NoDup(b)
      && forall j :: 0 <= j < |b| ==> b[j] in TermSet(vocabTerms) && b[j] != [] && Lower(b[j]) == b[j]
  {
    var terms := TermSet(vocabTerms);
    var sentences := Sentences(text);
    var all := FilterMap(sentences, GapOf(terms));
    var g := GapFill(text, vocabTerms);
    forall k | 0 <= k < |g|
      ensures var b := g[k].blanks;
        && b != [] && NoDup(b)
        && forall j :: 0 <= j < |b| ==> b[j] in terms && b[j] != [] && Lower(b[j]) == b[j]
    {
      assert g[k] == all[k];
      var i :| 0 <= i < |sentences| && GapOf(terms)(sentences[i]) == Some(all[k]);
      assert GapItemFor(sentences[i], terms) == Some(all[k]);
      BlanksInIsDedupe(Words(sentences[i]), terms);
      TermBlanks(Words(sentences[i]), terms);
    }
  }

  /** The blanks drawn from lower-case tokens. */
  lemma TermBlanks(tokens: seq<string>, terms: set<string>)
    requires forall i :: 0 <= i < |tokens| ==>
      tokens[i] != [] && forall k :: 0 <= k < |tokens[i]| ==> TextWords.IsTokenChar(tokens[i][k])
    ensures var b := Dedupe(Filter(tokens, InSet(terms)));
      && NoDup(b)
      && forall j :: 0 <= j < |b| ==> b[j] in terms && b[j] != [] && Lower(b[j]) == b[j]
  {
    var f := Filter(tokens, InSet(terms));
    var b := Dedupe(f);
    forall j | 0 <= j < |b| ensures b[j] in terms && b[j] != [] && Lower(b[j]) == b[j] {
      assert b[j] in f;
      var m := IndexOf(f, b[j]);
      var t := IndexOf(tokens, b[j]);
      TextWords.TokenLower(tokens[t]);
    }
  }

  /** Blanks appear in the order their terms first occur in the sentence. */
  lemma BlanksInOrder(tokens: seq<string>, terms: set<string>)
    ensures var b := BlanksIn(tokens, terms); var f := Filter(tokens, InSet(terms));
      forall i, j :: 0 <= i < j < |b| ==> b[i] in f && b[j] in f && IndexOf(f, b[i]) < IndexOf(f, b[j])
  {
    BlanksInIsDedupe(tokens, terms);
    DedupeFirstSeenOrder(Filter(tokens, InSet(terms)));
  }

  // ---------------------------------------------------------------------
  // buildMCQ

  /** A multiple-choice question: the prompt, the term, its translation and
      the options shown. */
  datatype McqItem = McqItem(question: string, term: string, correct: string, options: seq<string>)

  const MaxQuestions: nat := 6
  const MaxRows: nat := 50

  function LowerTerm(r: VocabPage.Row): string { Lower(r.term) }

  function RuOf(r: VocabPage.Row): string { r.ru }

  /** The rows questions are asked about: among the first fifty rows, the
      first of every lower-cased term, at most six of them. */
  function Picked(vocab: seq<VocabPage.Row>): seq<VocabPage.Row>
  {
    SliceTo(DedupeBy(SliceTo(vocab, MaxRows), LowerTerm), MaxQuestions)
  }

  /** `terms.map((t) => t.ru)`: the translations of the first fifty rows. */
  function Translations(vocab: seq<VocabPage.Row>): (r: seq<string>)
    ensures |r| == |SliceTo(vocab, MaxRows)|
  {
    KeysOf(SliceTo(vocab, MaxRows), RuOf)
  }

  function Question(term: string): string
  {
    "Выберите перевод слова: \"" + term + "\""
  }

  function NotEq(correct: string): string -> bool
  {
    x => x != correct
  }

  /** What an item built for row `r` is: its question, term and answer
      come from `r`; the answer is among the options exactly once; every
      other option is one of the translations; there are as many options as
      one plus the distractors available, up to three. */
  ghost predicate ItemFor(item: McqItem, r: VocabPage.Row, translations: seq<string>)
  {
    && item.question == Question(r.term)
    && item.term == r.term
    && item.correct == r.ru
    && multiset(item.options)[r.ru] == 1
    && (forall k :: 0 <= k < |item.options| ==> item.options[k] == r.ru || item.options[k] in translations)
    && |item.options| == 1 + Min(3, |Filter(translations, NotEq(r.ru))|)
  }

  /** One item of `picked.map(...)`: three shuffled distractors and the
      answer, shuffled again. */
  method MakeItem(r: VocabPage.Row, translations: seq<string>) returns (item: McqItem)
    ensures ItemFor(item, r, translations)
  {
    var others := Filter(translations, NotEq(r.ru));
    var shuffled := Shuffle(others);
    var distractors := SliceTo(shuffled, 3);
    var options := Shuffle(distractors + [r.ru]);
    forall k | 0 <= k < |distractors| ensures distractors[k] != r.ru {
      assert distractors[k] == shuffled[k];
      assert shuffled[k] in multiset(others);
    }
    assert multiset(options) == multiset(distractors) + multiset{r.ru};
    forall k | 0 <= k < |options| ensures options[k] == r.ru || options[k] in translations {
      assert options[k] in multiset(distractors + [r.ru]);
      if options[k] != r.ru {
        assert options[k] in distractors;
        assert options[k] in multiset(others);
      }
    }
    item := McqItem(Question(r.term), r.term, r.ru, options);
  }

  /** One item per picked row, in order. */
  ghost predicate McqFor(items: seq<McqItem>, vocab: seq<VocabPage.Row>)
  {
    && |items| == |Picked(vocab)|
    && forall k :: 0 <= k < |items| ==> ItemFor(items[k], Picked(vocab)[k], Translations(vocab))
  }

  /** `buildMCQ(text, vocabList)`; the text is not used. */
  method BuildMCQ(vocab: seq<VocabPage.Row>) returns (items: seq<McqItem>)
    ensures McqFor(items, vocab)
  {
    var rows := SliceTo(vocab, MaxRows);
    var picked := TakeDistinct(rows, LowerTerm, MaxQuestions);
    var translations := Translations(vocab);
    items := [];
    for i := 0 to |picked|
      invariant |items| == i
      invariant forall k :: 0 <= k < i ==> ItemFor(items[k], picked[k], translations)
    {
      var item := MakeItem(picked[i], translations);
      items := items + [item];
    }
  }

  /** At most six rows are picked, their lower-cased terms are distinct,
      each comes from the first fifty rows, and they keep the order of the
      vocabulary. */
  lemma PickedFacts(vocab: seq<VocabPage.Row>)
    ensures |Picked(vocab)| <= MaxQuestions
    ensures NoDup(KeysOf(Picked(vocab), LowerTerm))
    ensures forall k :: 0 <= k < |Picked(vocab)| ==> Picked(vocab)[k] in SliceTo(vocab, MaxRows)
    ensures IsPrefix(Picked(vocab), DedupeBy(SliceTo(vocab, MaxRows), LowerTerm))
  {
    var rows := SliceTo(vocab, MaxRows);
    var d := DedupeBy(rows, LowerTerm);
    var p := Picked(vocab);
    DedupeByFacts(rows, LowerTerm);
    assert forall k :: 0 <= k < |p| ==> p[k] == d[k];
    assert forall k :: 0 <= k < |p| ==> KeysOf(p, LowerTerm)[k] == KeysOf(d, LowerTerm)[k];
  }

  /** Every term of the first fifty rows is asked about, once, when there
      are at most six distinct terms. */
  lemma FewTermsAllAsked(vocab: seq<VocabPage.Row>)
    requires |DedupeBy(SliceTo(vocab, MaxRows), LowerTerm)| <= MaxQuestions
    ensures forall i :: 0 <= i < |SliceTo(vocab, MaxRows)| ==>
      Lower(SliceTo(vocab, MaxRows)[i].term) in KeysOf(Picked(vocab), LowerTerm)
  {
    var rows := SliceTo(vocab, MaxRows);
    DedupeByFacts(rows, LowerTerm);
    assert Picked(vocab) == DedupeBy(rows, LowerTerm);
  }

  // ---------------------------------------------------------------------
  // checkAll

  /** `answers[key] || ''`. */
  function Answer<K>(answers: map<K, string>, key: K): string
  {
    if key in answers then answers[key] else ""
  }

  /** A gap answer is right when, trimmed and lower-cased, it is the
      lower-cased blank. */
  predicate GapRight(answers: map<(nat, nat), string>, idx: nat, j: nat, b: string)
  {
    Lower(Trim(Answer(answers, (idx, j)))) == Lower(b)
  }

  /** How many of `blanks` (with their positions) pass `ok`. */
  function Hits(blanks: seq<string>, ok: (nat, string) -> bool): nat
  {
    if blanks == [] then 0
    else
      var j := |blanks| - 1;
      Hits(blanks[..j], ok) + (if ok(j, blanks[j]) then 1 else 0)
  }

  function RightIn(answers: map<(nat, nat), string>, idx: nat): (nat, string) -> bool
  {
    (j: nat, b: string) => GapRight(answers, idx, j, b)
  }

  /** Right answers for the blanks `blanks` of item `idx`. */
  function RowHits(blanks: seq<string>, answers: map<(nat, nat), string>, idx: nat): nat
  {
    Hits(blanks, RightIn(answers, idx))
  }

  /** `okGap`: right answers over all items. */
  function GapHits(items: seq<GapItem>, answers: map<(nat, nat), string>): nat
  {
    if items == [] then 0
    else
      var i := |items| - 1;
      GapHits(items[..i], answers) + RowHits(items[i].blanks, answers, i)
  }

  /** `totalGap`: the number of blanks. */
  function TotalBlanks(items: seq<GapItem>): nat
  {
    if items == [] then 0 else TotalBlanks(items[..|items| - 1]) + |items[|items| - 1].blanks|
  }

  /** `okMCQ`: questions whose chosen option is exactly the answer; an
      unanswered question counts as the empty string. */
  function McqHits(items: seq<McqItem>, answers: map<nat, string>): nat
  {
    if items == [] then 0
    else
      var i := |items| - 1;
      McqHits(items[..i], answers) + (if Answer(answers, i) == items[i].correct then 1 else 0)
  }

  /** The two `forEach` loops of `checkAll`. */
  method CheckAnswers(gapItems: seq<GapItem>, mcqItems: seq<McqItem>,
                      answersGap: map<(nat, nat), string>, answersMcq: map<nat, string>)
    returns (okGap: nat, totalGap: nat, okMcq: nat)
    ensures okGap == GapHits(gapItems, answersGap)
    ensures totalGap == TotalBlanks(gapItems)
    ensures okMcq == McqHits(mcqItems, answersMcq)
  {
    okGap, totalGap := CheckGaps(gapItems, answersGap);
    okMcq := CheckMcq(mcqItems, answersMcq);
  }

  /** The first loop of `checkAll`, over the gap-fill items. */
  method CheckGaps(gapItems: seq<GapItem>, answersGap: map<(nat, nat), string>) returns (okGap: nat, totalGap: nat)
    ensures okGap == GapHits(gapItems, answersGap)
    ensures totalGap == TotalBlanks(gapItems)
  {
    okGap, totalGap := 0, 0;
    for idx := 0 to |gapItems|
      invariant okGap == GapHits(gapItems[..idx], answersGap)
      invariant totalGap == TotalBlanks(gapItems[..idx])
    {
      var row, count := CheckRow(gapItems[idx].blanks, answersGap, idx);
      assert gapItems[..idx + 1][..idx] == gapItems[..idx];
      okGap, totalGap := okGap + row, totalGap + count;
    }
    assert gapItems[..|gapItems|] == gapItems;
  }

  /** The second loop of `checkAll`, over the multiple-choice items. */
  method CheckMcq(mcqItems: seq<McqItem>, answersMcq: map<nat, string>) returns (okMcq: nat)
    ensures okMcq == McqHits(mcqItems, answersMcq)
  {
    okMcq := 0;
    for i := 0 to |mcqItems|
      invariant okMcq == McqHits(mcqItems[..i], answersMcq)
    {
      assert mcqItems[..i + 1][..i] == mcqItems[..i];
      if Answer(answersMcq, i) == mcqItems[i].correct {
        okMcq := okMcq + 1;
      }
    }
    assert mcqItems[..|mcqItems|] == mcqItems;
  }

  /** The inner `it.blanks.forEach` of `checkAll` for item `idx`. */
  method CheckRow(blanks: seq<string>, answers: map<(nat, nat), string>, idx: nat) returns (row: nat, count: nat)
    ensures row == RowHits(blanks, answers, idx)
    ensures count == |blanks|
  {
    row, count := 0, 0;
    for j := 0 to |blanks|
      invariant row == Hits(blanks[..j], RightIn(answers, idx))
      invariant count == j
    {
      assert blanks[..j + 1][..j] == blanks[..j];
      count := count + 1;
      if Lower(Trim(Answer(answers, (idx, j)))) == Lower(blanks[j]) {
        row := row + 1;
      }
    }
    assert blanks[..|blanks|] == blanks;
  }

  lemma {:induction false} HitsBounded(blanks: seq<string>, ok: (nat, string) -> bool)
    ensures Hits(blanks, ok) <= |blanks|
    decreases |blanks|
  {
    if blanks != [] {
      HitsBounded(blanks[..|blanks| - 1], ok);
    }
  }

  /** All blanks pass: all are counted; none passes: none is. */
  lemma {:induction false} HitsAllOrNone(blanks: seq<string>, ok: (nat, string) -> bool)
    ensures (forall j :: 0 <= j < |blanks| ==> ok(j, blanks[j])) ==> Hits(blanks, ok) == |blanks|
    ensures (forall j :: 0 <= j < |blanks| ==> !ok(j, blanks[j])) ==> Hits(blanks, ok) == 0
    decreases |blanks|
  {
    if blanks != [] {
      HitsAllOrNone(blanks[..|blanks| - 1], ok);
    }
  }

  /** No more gap answers are right than there are blanks, and no more
      questions than there are items. */
  lemma {:induction false} CheckBounded(gapItems: seq<GapItem>, mcqItems: seq<McqItem>,
                                       answersGap: map<(nat, nat), string>, answersMcq: map<nat, string>)
    ensures GapHits(gapItems, answersGap) <= TotalBlanks(gapItems)
    ensures McqHits(mcqItems, answersMcq) <= |mcqItems|
    decreases |gapItems| + |mcqItems|
  {
    if gapItems != [] {
      var i := |gapItems| - 1;
      HitsBounded(gapItems[i].blanks, RightIn(answersGap, i));
      CheckBounded(gapItems[..i], mcqItems, answersGap, answersMcq);
    } else if mcqItems != [] {
      CheckBounded(gapItems, mcqItems[..|mcqItems| - 1], answersGap, answersMcq);
    }
  }

  /** Typing each blank, in any case and with white space around it, gets
      every blank right. */
  lemma {:induction false} GapAllRight(items: seq<GapItem>, answers: map<(nat, nat), string>)
    requires forall i, j :: 0 <= i < |items| && 0 <= j < |items[i].blanks| ==>
      (i, j) in answers && Lower(Trim(answers[(i, j)])) == Lower(items[i].blanks[j])
    ensures GapHits(items, answers) == TotalBlanks(items)
    decreases |items|
  {
    if items != [] {
      var n := |items| - 1;
      var b := items[n].blanks;
      forall j | 0 <= j < |b| ensures RightIn(answers, n)(j, b[j]) {
        assert GapRight(answers, n, j, b[j]);
      }
      HitsAllOrNone(b, RightIn(answers, n));
      GapAllRight(items[..n], answers);
    }
  }

  /** With no answers typed, no non-empty blank is right. */
  lemma {:induction false} GapNoneRight(items: seq<GapItem>)
    requires forall i, j :: 0 <= i < |items| && 0 <= j < |items[i].blanks| ==> items[i].blanks[j] != []
    ensures GapHits(items, map[]) == 0
    decreases |items|
  {
    if items != [] {
      var n := |items| - 1;
      var b := items[n].blanks;
      TrimOfTrimmed("");
      forall j | 0 <= j < |b| ensures !RightIn(map[], n)(j, b[j]) {
        assert Answer(map[], (n, j)) == "";
        assert |Lower(b[j])| > 0;
      }
      HitsAllOrNone(b, RightIn(map[], n));
      var front := items[..n];
      assert forall i :: 0 <= i < n ==> front[i] == items[i];
      GapNoneRight(front);
    }
  }

  /** Choosing every answer scores every question; choosing none scores
      exactly the questions whose answer is the empty string. */
  lemma McqAnswers(items: seq<McqItem>, answers: map<nat, string>)
    ensures (forall i :: 0 <= i < |items| ==> i in answers && answers[i] == items[i].correct) ==>
      McqHits(items, answers) == |items|
    ensures McqHits(items, map[]) == |Filter(KeysOf(items, CorrectOf), IsEmpty)|
  {
    if forall i :: 0 <= i < |items| ==> i in answers && answers[i] == items[i].correct {
      McqAllRight(items, answers);
    }
    McqNoneChosen(items);
  }

  lemma {:induction false} McqAllRight(items: seq<McqItem>, answers: map<nat, string>)
    requires forall i :: 0 <= i < |items| ==> i in answers && answers[i] == items[i].correct
    ensures McqHits(items, answers) == |items|
    decreases |items|
  {
    if items != [] {
      var n := |items| - 1;
      var front := items[..n];
      assert forall i :: 0 <= i < n ==> front[i] == items[i];
      McqAllRight(front, answers);
    }
  }

  lemma {:induction false} McqNoneChosen(items: seq<McqItem>)
    ensures McqHits(items, map[]) == |Filter(KeysOf(items, CorrectOf), IsEmpty)|
    decreases |items|
  {
    if items != [] {
      var n := |items| - 1;
      McqNoneChosen(items[..n]);
      var ks := KeysOf(items, CorrectOf);
      assert ks == KeysOf(items[..n], CorrectOf) + [items[n].correct];
      FilterConcat(KeysOf(items[..n], CorrectOf), [items[n].correct], IsEmpty);
    }
  }

  function CorrectOf(q: McqItem): string { q.correct }

  predicate IsEmpty(s: string) { s == [] }

  // ---------------------------------------------------------------------
  // processText: the vocabulary terms found in the text

  /** `Array.from(new Set(vocab.map((v) => v.term.toLowerCase())))`. */
  function VocabTerms(vocab: seq<VocabPage.Row>): seq<string>
  {
    Dedupe(KeysOf(vocab, LowerTerm))
  }

  function InSeq(terms: seq<string>): string -> bool
  {
    w => w in terms
  }

  /** The `found` set, in insertion order: the distinct lower-cased words
      that are vocabulary terms. */
  function Found(words: seq<string>, vocabTerms: seq<string>): seq<string>
  {
    Dedupe(Filter(KeysOf(words, Lower), InSeq(vocabTerms)))
  }

  /** The loop filling `found`. */
  method CollectFound(words: seq<string>, vocabTerms: seq<string>) returns (found: seq<string>)
    ensures found == Found(words, vocabTerms)
  {
    found := [];
    for i := 0 to |words|
      invariant found == Found(words[..i], vocabTerms)
    {
      var lw := Lower(words[i]);
      FoundStep(words, i, vocabTerms);
      if lw in vocabTerms && lw !in found {
        found := found + [lw];
      }
    }
    assert words[..|words|] == words;
  }

  lemma FoundStep(words: seq<string>, i: nat, vocabTerms: seq<string>)
    requires i < |words|
    ensures var before := Found(words[..i], vocabTerms); var lw := Lower(words[i]);
      Found(words[..i + 1], vocabTerms) ==
        if lw in vocabTerms && lw !in before then before + [lw] else before
  {
    var ks := KeysOf(words[..i], Lower);
    assert KeysOf(words[..i + 1], Lower) == ks + [Lower(words[i])];
    DedupeFilterSnoc(ks, Lower(words[i]), InSeq(vocabTerms));
  }

  /** The found terms of a text are distinct; each is a word of the text
      and the lower-cased term of some row; and every word of the text that
      is such a term is found. */
  lemma FoundFacts(text: string, vocab: seq<VocabPage.Row>)
    ensures var found := Found(Words(text), VocabTerms(vocab));
      && NoDup(found)
      && (forall k :: 0 <= k < |found| ==>
            found[k] in Words(text) && exists r :: r in vocab && Lower(r.term) == found[k])
      && (forall w :: w in Words(text) && (exists r :: r in vocab && Lower(r.term) == w) ==> w in found)
  {
    var words := Words(text);
    var terms := VocabTerms(vocab);
    var ks := KeysOf(words, Lower);
    var found := Found(words, terms);
    assert ks == words by {
      forall i | 0 <= i < |words| ensures ks[i] == words[i] {
        TextWords.TokenLower(words[i]);
      }
    }
    forall k | 0 <= k < |found|
      ensures found[k] in words && exists r :: r in vocab && Lower(r.term) == found[k]
    {
      var f := Filter(ks, InSeq(terms));
      assert found[k] in f;
      assert found[k] in terms;
      var m := IndexOf(KeysOf(vocab, LowerTerm), found[k]);
      assert vocab[m] in vocab && Lower(vocab[m].term) == found[k];
    }
    forall w | w in words && (exists r :: r in vocab && Lower(r.term) == w) ensures w in found {
      var r :| r in vocab && Lower(r.term) == w;
      var m :| 0 <= m < |vocab| && vocab[m] == r;
      assert KeysOf(vocab, LowerTerm)[m] == w;
      assert w in terms;
      var i := IndexOf(words, w);
      assert ks[i] == w;
    }
  }

  /** The found terms and both exercises for a normalised text. */
  method Exercises(clean: string, vocab: seq<VocabPage.Row>)
    returns (found: seq<string>, gaps: seq<GapItem>, mcq: seq<McqItem>)
    ensures found == Found(Words(clean), VocabTerms(vocab))
    ensures gaps == GapFill(clean, found)
    ensures McqFor(mcq, vocab)
  {
    found := CollectFound(Words(clean), VocabTerms(vocab));
    gaps := BuildGapFill(clean, found);
    mcq := BuildMCQ(vocab);
  }

  // ---------------------------------------------------------------------
  // The page state

  const Rejected: string := "Этот текст не подходит для обучения. Пожалуйста, выберите другой текст."

  /** The state of the reading page that `processText`, the answer inputs,
      the clear button and `checkAll` update. The highlighted HTML is not
      part of this model. */
  class ContentState {
    var chosenText: string
    var matchCount: nat
    var gapItems: seq<GapItem>
    var mcqItems: seq<McqItem>
    var answersGap: map<(nat, nat), string>
    var answersMcq: map<nat, string>
    var checkResult: Option<(nat, nat)>
    var error: string

    constructor()
      ensures chosenText == [] && matchCount == 0 && gapItems == [] && mcqItems == []
      ensures answersGap == map[] && answersMcq == map[] && checkResult == None && error == []
    {
      chosenText, matchCount, gapItems, mcqItems := [], 0, [], [];
      answersGap, answersMcq, checkResult, error := map[], map[], None, [];
    }

    /** `processText(raw)`; `allowed` is the verdict of the moderation,
        which fetches a block list. */
    method ProcessText(raw: string, vocab: seq<VocabPage.Row>, allowed: bool)
      modifies this
      ensures NormalizeText(raw) == [] ==>
        && error == []
        && chosenText == [] && matchCount == 0 && gapItems == [] && mcqItems == [] && checkResult == None
        && answersGap == old(answersGap) && answersMcq == old(answersMcq)
      ensures NormalizeText(raw) != [] && !allowed ==>
        && error == Rejected
        && chosenText == old(chosenText) && matchCount == old(matchCount)
        && gapItems == old(gapItems) && mcqItems == old(mcqItems) && checkResult == old(checkResult)
        && answersGap == old(answersGap) && answersMcq == old(answersMcq)
      ensures NormalizeText(raw) != [] && allowed ==>
        var clean := NormalizeText(raw);
        var found := Found(Words(clean), VocabTerms(vocab));
        && error == []
        && chosenText == clean
        && matchCount == |found|
        && gapItems == GapFill(clean, found)
        && McqFor(mcqItems, vocab)
        && answersGap == map[] && answersMcq == map[] && checkResult == None
    {
      var clean := NormalizeText(raw);
      if clean == [] {
        Clear();
      } else if !allowed {
        Reject();
      } else {
        Show(clean, vocab);
      }
    }

    /** The part of `processText` after moderation: the text is shown with
        the number of terms found in it, the gap-fill over those terms and
        the questions over the whole vocabulary, with no answers yet. */
    method Show(clean: string, vocab: seq<VocabPage.Row>)
      modifies this
      ensures McqFor(mcqItems, vocab)
      ensures chosenText == clean && error == []
      ensures matchCount == |Found(Words(clean), VocabTerms(vocab))|
      ensures gapItems == GapFill(clean, Found(Words(clean), VocabTerms(vocab)))
      ensures answersGap == map[] && answersMcq == map[] && checkResult == None
    {
      var found, gaps, mcq := Exercises(clean, vocab);
      Store(clean, |found|, gaps, mcq);
    }

    method Store(clean: string, count: nat, gaps: seq<GapItem>, mcq: seq<McqItem>)
      modifies this
      ensures chosenText == clean && matchCount == count && gapItems == gaps && mcqItems == mcq && error == []
      ensures answersGap == map[] && answersMcq == map[] && checkResult == None
    {
      chosenText, matchCount, gapItems, mcqItems, error := clean, count, gaps, mcq, [];
      answersGap, answersMcq, checkResult := map[], map[], None;
    }

    /** The moderation's refusal: only the message changes. */
    method Reject()
      modifies this
      ensures error == Rejected
      ensures chosenText == old(chosenText) && matchCount == old(matchCount)
      ensures gapItems == old(gapItems) && mcqItems == old(mcqItems) && checkResult == old(checkResult)
      ensures answersGap == old(answersGap) && answersMcq == old(answersMcq)
    {
      error := Rejected;
    }

    /** Typing into the input of blank `j` of item `idx`. */
    method TypeGapAnswer(idx: nat, j: nat, value: string)
      modifies this
      ensures answersGap == old(answersGap)[(idx, j) := value]
      ensures chosenText == old(chosenText) && matchCount == old(matchCount)
      ensures gapItems == old(gapItems) && mcqItems == old(mcqItems)
      ensures answersMcq == old(answersMcq) && checkResult == old(checkResult) && error == old(error)
    {
      answersGap := answersGap[(idx, j) := value];
    }

    /** Choosing option `opt` of question `i`. */
    method ChooseMcqAnswer(i: nat, opt: string)
      modifies this
      ensures answersMcq == old(answersMcq)[i := opt]
      ensures chosenText == old(chosenText) && matchCount == old(matchCount)
      ensures gapItems == old(gapItems) && mcqItems == old(mcqItems)
      ensures answersGap == old(answersGap) && checkResult == old(checkResult) && error == old(error)
    {
      answersMcq := answersMcq[i := opt];
    }

    /** The clear button: the text, the exercises, the count, the message
        and the result go; the answers stay. */
    method Clear()
      modifies this
      ensures chosenText == [] && matchCount == 0 && gapItems == [] && mcqItems == []
      ensures checkResult == None && error == []
      ensures answersGap == old(answersGap) && answersMcq == old(answersMcq)
    {
      chosenText, gapItems, mcqItems, matchCount, error, checkResult := [], [], [], 0, [], None;
    }

    /** `checkAll()`: records the right gap answers and the right choices,
        and changes nothing else. */
    method CheckAll()
      modifies this
      ensures checkResult == Some((GapHits(gapItems, answersGap), McqHits(mcqItems, answersMcq)))
      ensures chosenText == old(chosenText) && matchCount == old(matchCount)
      ensures gapItems == old(gapItems) && mcqItems == old(mcqItems)
      ensures answersGap == old(answersGap) && answersMcq == old(answersMcq) && error == old(error)
    {
      var okGap, totalGap, okMcq := CheckAnswers(gapItems, mcqItems, answersGap, answersMcq);
      checkResult := Some((okGap, okMcq));
    }
  }

  /** Right after a text is processed, checking scores nothing on the
      gap-fill, since every blank is a non-empty word. */
  lemma FreshGapsScoreZero(clean: string, found: seq<string>)
    ensures GapHits(GapFill(clean, found), map[]) == 0
  {
    var g := GapFill(clean, found);
    GapFillFacts(clean, found);
    GapNoneRight(g);
  }
}
