/** The word extractor of src/lib/text/extractWords.ts: tokens of the
    lower-cased text, counted, and ranked by frequency. */
module TextWords {
  import opened Seqs
  import opened Strings

  /** The characters of `[a-zа-яё\-']`. */
  predicate IsTokenChar(c: char)
  {
    ('a' <= c <= 'z') || ('а' <= c <= 'я') || c == 'ё' || c == '-' || c == '\''
  }

  /** Length of the run of token characters starting at `p`. */
  function RunLen(s: string, p: nat): (n: nat)
    requires p <= |s|
    ensures p + n <= |s|
    ensures forall k :: p <= k < p + n ==> IsTokenChar(s[k])
    ensures p + n == |s| || !IsTokenChar(s[p + n])
    decreases |s| - p
  {
    if p < |s| && IsTokenChar(s[p]) then 1 + RunLen(s, p + 1) else 0
  }

  /** The matches of `[a-zа-яё\-']{minLen,}` (`+` being `{1,}`) from
      position `p`: every maximal run of token characters at least
      `minLen` long, left to right. */
  function TokensFrom(s: string, p: nat, minLen: nat): (ts: seq<string>)
    requires p <= |s|
    ensures forall i :: 0 <= i < |ts| ==>
      ts[i] != [] && |ts[i]| >= minLen && forall k :: 0 <= k < |ts[i]| ==> IsTokenChar(ts[i][k])
    decreases |s| - p
  {
    if p == |s| then []
    else if !IsTokenChar(s[p]) then TokensFrom(s, p + 1, minLen)
    else
      var n := RunLen(s, p);
      (if n >= minLen then [s[p..p + n]] else []) + TokensFrom(s, p + n, minLen)
  }

  /** `text.toLowerCase().match(/[a-zа-яё\-']{2,}/gi) || []`. */
  function Tokens(text: string): seq<string>
  {
    TokensFrom(Lower(text), 0, 2)
  }

  /** Tokens are already lower case. */
  lemma TokenLower(t: string)
    requires forall k :: 0 <= k < |t| ==> IsTokenChar(t[k])
    ensures Lower(t) == t
  {
  }

  /** How often each token occurs. */
  function FreqTable(tokens: seq<string>): (freq: map<string, nat>)
    ensures forall w :: w in freq <==> w in tokens
  {
    map w | w in tokens :: Count(tokens, w)
  }

  /** The frequency of `w`, 0 when absent. */
  function FreqOf(freq: map<string, nat>, w: string): nat
  {
    if w in freq then freq[w] else 0
  }

  /** The `for (const t of tokens) freq.set(...)` loop: a map from token to
      count, whose keys in insertion order are the distinct tokens in order
      of first appearance. */
  method CountFrequencies(tokens: seq<string>) returns (keys: seq<string>, freq: map<string, nat>)
    ensures keys == Dedupe(tokens)
    ensures freq == FreqTable(tokens)
  {
    keys, freq := [], map[];
    var i := 0;
    while i < |tokens|
      invariant 0 <= i <= |tokens|
      invariant keys == Dedupe(tokens[..i])
      invariant Tallied(freq, tokens[..i])
    {
      keys, freq := CountToken(tokens, i, keys, freq);
      i := i + 1;
    }
    assert tokens[..i] == tokens;
    TalliedTable(freq, tokens);
  }

  /** One turn of that loop: token `i` is added to the keys when new, and
      its count goes up by one. */
  method CountToken(tokens: seq<string>, i: nat, keys: seq<string>, freq: map<string, nat>)
    returns (keys': seq<string>, freq': map<string, nat>)
    requires i < |tokens| && keys == Dedupe(tokens[..i]) && Tallied(freq, tokens[..i])
    ensures keys' == Dedupe(tokens[..i + 1]) && Tallied(freq', tokens[..i + 1])
  {
    var t := tokens[i];
    assert tokens[..i + 1] == tokens[..i] + [t];
    CountStep(tokens[..i], t, keys, freq);
    keys' := if t !in freq then keys + [t] else keys;
    freq' := freq[t := FreqOf(freq, t) + 1];
  }

  lemma CountStep(seen: seq<string>, t: string, keys: seq<string>, freq: map<string, nat>)
    requires keys == Dedupe(seen) && Tallied(freq, seen)
    ensures (if t !in freq then keys + [t] else keys) == Dedupe(seen + [t])
    ensures Tallied(freq[t := FreqOf(freq, t) + 1], seen + [t])
  {
    DedupeSnoc(seen, t);
    TallyStep(freq, seen, t);
  }

  /** `freq` counts the tokens seen so far. */
  ghost predicate Tallied(freq: map<string, nat>, seen: seq<string>)
  {
    && (forall w :: w in freq <==> w in seen)
    && (forall w :: w in freq ==> freq[w] == Count(seen, w))
  }

  lemma TallyStep(freq: map<string, nat>, seen: seq<string>, t: string)
    requires Tallied(freq, seen)
    ensures Tallied(freq[t := FreqOf(freq, t) + 1], seen + [t])
    ensures t in freq <==> t in seen
  {
    forall w ensures Count(seen + [t], w) == Count(seen, w) + (if t == w then 1 else 0) {
      CountSnoc(seen, t, w);
    }
  }

  lemma TalliedTable(freq: map<string, nat>, tokens: seq<string>)
    requires Tallied(freq, tokens)
    ensures freq == FreqTable(tokens)
  {
  }

  /** Inserts `x` before the first element of lower frequency: after every
      element at least as frequent. */
  function InsertByFreq(r: seq<string>, x: string, freq: map<string, nat>): seq<string>
  {
    if r == [] then [x]
    else if FreqOf(freq, r[0]) < FreqOf(freq, x) then [x] + r
    else [r[0]] + InsertByFreq(r[1..], x, freq)
  }

  /** Insertion adds exactly `x`. */
  lemma {:induction false} InsertPerm(r: seq<string>, x: string, freq: map<string, nat>)
    ensures multiset(InsertByFreq(r, x, freq)) == multiset(r) + multiset{x}
  {
    if r != [] && FreqOf(freq, r[0]) >= FreqOf(freq, x) {
      InsertPerm(r[1..], x, freq);
      assert r == [r[0]] + r[1..];
    }
  }

  /** The stable `sort((a, b) => b[1] - a[1])`, as an insertion sort. */
  function SortByFreq(s: seq<string>, freq: map<string, nat>): (r: seq<string>)
    ensures multiset(r) == multiset(s)
  {
    if s == [] then []
    else
      assert s == s[..|s| - 1] + [s[|s| - 1]];
      InsertPerm(SortByFreq(s[..|s| - 1], freq), s[|s| - 1], freq);
      InsertByFreq(SortByFreq(s[..|s| - 1], freq), s[|s| - 1], freq)
  }

  /** Non-increasing frequency. */
  ghost predicate ByFreq(r: seq<string>, freq: map<string, nat>)
  {
    forall i, j :: 0 <= i < j < |r| ==> FreqOf(freq, r[i]) >= FreqOf(freq, r[j])
  }

  /** The elements of frequency `k`, in order. */
  function WithFreq(s: seq<string>, freq: map<string, nat>, k: nat): seq<string>
  {
    if s == [] then []
    else (if FreqOf(freq, s[0]) == k then [s[0]] else []) + WithFreq(s[1..], freq, k)
  }

  /** Exactly the elements of frequency `k` are kept. */
  lemma {:induction false} WithFreqMember(s: seq<string>, freq: map<string, nat>, k: nat)
    ensures forall x :: x in WithFreq(s, freq, k) <==> x in s && FreqOf(freq, x) == k
  {
    if s != [] {
      WithFreqMember(s[1..], freq, k);
      assert s == [s[0]] + s[1..];
    }
  }

  lemma {:induction false} WithFreqConcat(a: seq<string>, b: seq<string>, freq: map<string, nat>, k: nat)
    ensures WithFreq(a + b, freq, k) == WithFreq(a, freq, k) + WithFreq(b, freq, k)
  {
    if a == [] {
      assert a + b == b;
    } else {
      assert (a + b)[1..] == a[1..] + b;
      WithFreqConcat(a[1..], b, freq, k);
    }
  }

  lemma {:induction false} WithFreqNone(r: seq<string>, freq: map<string, nat>, k: nat)
    requires forall i :: 0 <= i < |r| ==> FreqOf(freq, r[i]) < k
    ensures WithFreq(r, freq, k) == []
  {
    if r != [] {
      WithFreqNone(r[1..], freq, k);
    }
  }

  /** Elements of `InsertByFreq(r, x, freq)` are `x` and those of `r`. */
  lemma InsertMember(r: seq<string>, x: string, freq: map<string, nat>, y: string)
    requires y in InsertByFreq(r, x, freq)
    ensures y == x || y in r
  {
    InsertPerm(r, x, freq);
    assert y in multiset(InsertByFreq(r, x, freq));
  }

  /** Insertion keeps a sequence sorted by non-increasing frequency. */
  lemma {:induction false} InsertSorted(r: seq<string>, x: string, freq: map<string, nat>)
    requires ByFreq(r, freq)
    ensures ByFreq(InsertByFreq(r, x, freq), freq)
  {
    if r != [] && FreqOf(freq, r[0]) >= FreqOf(freq, x) {
      var rest := r[1..];
      assert ByFreq(rest, freq) by {
        assert forall i :: 0 <= i < |rest| ==> rest[i] == r[i + 1];
      }
      InsertSorted(rest, x, freq);
      var ins := InsertByFreq(rest, x, freq);
      forall j | 0 <= j < |ins| ensures FreqOf(freq, r[0]) >= FreqOf(freq, ins[j]) {
        InsertMember(rest, x, freq, ins[j]);
        if ins[j] != x {
          var m := IndexOf(rest, ins[j]);
          assert rest[m] == r[m + 1];
        }
      }
      assert InsertByFreq(r, x, freq) == [r[0]] + ins;
    }
  }

  /** Insertion into a sorted sequence puts `x` after every element of
      its own frequency. */
  lemma {:induction false} InsertWithFreq(r: seq<string>, x: string, freq: map<string, nat>, k: nat)
    requires ByFreq(r, freq)
    ensures WithFreq(InsertByFreq(r, x, freq), freq, k) ==
              WithFreq(r, freq, k) + (if FreqOf(freq, x) == k then [x] else [])
  {
    if r == [] {
      assert InsertByFreq(r, x, freq) == [x];
      WithFreqCons(x, [], freq, k);
    } else if FreqOf(freq, r[0]) < FreqOf(freq, x) {
      ByFreqTail(r, freq);
      InsertFrontWithFreq(r, x, freq, k);
    } else {
      ByFreqTail(r, freq);
      InsertWithFreq(r[1..], x, freq, k);
      InsertLaterWithFreq(r, x, freq, k);
    }
  }

  /** `x` is more frequent than the head of `r`, so it goes in front. */
  lemma InsertFrontWithFreq(r: seq<string>, x: string, freq: map<string, nat>, k: nat)
    requires r != [] && FreqOf(freq, r[0]) < FreqOf(freq, x)
    requires forall i :: 0 <= i < |r| ==> FreqOf(freq, r[i]) <= FreqOf(freq, r[0])
    ensures WithFreq(InsertByFreq(r, x, freq), freq, k) ==
              WithFreq(r, freq, k) + (if FreqOf(freq, x) == k then [x] else [])
  {
    assert InsertByFreq(r, x, freq) == [x] + r;
    WithFreqCons(x, r, freq, k);
    if FreqOf(freq, x) == k {
      WithFreqNone(r, freq, k);
      assert WithFreq(r, freq, k) + [x] == [x];
    }
  }

  /** `x` goes after the head of `r`, into its tail. */
  lemma InsertLaterWithFreq(r: seq<string>, x: string, freq: map<string, nat>, k: nat)
    requires r != [] && FreqOf(freq, r[0]) >= FreqOf(freq, x)
    requires WithFreq(InsertByFreq(r[1..], x, freq), freq, k) ==
               WithFreq(r[1..], freq, k) + (if FreqOf(freq, x) == k then [x] else [])
    ensures WithFreq(InsertByFreq(r, x, freq), freq, k) ==
              WithFreq(r, freq, k) + (if FreqOf(freq, x) == k then [x] else [])
  {
    var rest := r[1..];
    var ins := InsertByFreq(rest, x, freq);
    var head := if FreqOf(freq, r[0]) == k then [r[0]] else [];
    var tail := if FreqOf(freq, x) == k then [x] else [];
    assert r == [r[0]] + rest;
    calc {
      WithFreq(InsertByFreq(r, x, freq), freq, k);
      { assert InsertByFreq(r, x, freq) == [r[0]] + ins; }
      WithFreq([r[0]] + ins, freq, k);
      { WithFreqCons(r[0], ins, freq, k); }
      head + WithFreq(ins, freq, k);
      head + (WithFreq(rest, freq, k) + tail);
      (head + WithFreq(rest, freq, k)) + tail;
      { WithFreqCons(r[0], rest, freq, k); }
      WithFreq(r, freq, k) + tail;
    }
  }

  /** The tail of a sorted sequence is sorted, and its head is the most frequent. */
  lemma ByFreqTail(r: seq<string>, freq: map<string, nat>)
    requires ByFreq(r, freq) && r != []
    ensures ByFreq(r[1..], freq)
    ensures forall i :: 0 <= i < |r| ==> FreqOf(freq, r[i]) <= FreqOf(freq, r[0])
  {
    forall i, j | 0 <= i < j < |r[1..]| ensures FreqOf(freq, r[1..][i]) >= FreqOf(freq, r[1..][j]) {
      assert r[1..][i] == r[i + 1] && r[1..][j] == r[j + 1];
    }
  }

  lemma WithFreqCons(x: string, s: seq<string>, freq: map<string, nat>, k: nat)
    ensures WithFreq([x] + s, freq, k) == (if FreqOf(freq, x) == k then [x] else []) + WithFreq(s, freq, k)
  {
    assert ([x] + s)[1..] == s;
  }

  /** The ranking is sorted by non-increasing frequency. */
  lemma {:induction false} SortSorted(s: seq<string>, freq: map<string, nat>)
    ensures ByFreq(SortByFreq(s, freq), freq)
  {
    if s != [] {
      SortSorted(s[..|s| - 1], freq);
      InsertSorted(SortByFreq(s[..|s| - 1], freq), s[|s| - 1], freq);
    }
  }

  /** Within one frequency the ranking keeps the input order: the sort is
      stable. */
  lemma {:induction false} SortStable(s: seq<string>, freq: map<string, nat>, k: nat)
    ensures WithFreq(SortByFreq(s, freq), freq, k) == WithFreq(s, freq, k)
  {
    if s != [] {
      var p := s[..|s| - 1];
      var x := s[|s| - 1];
      assert s == p + [x];
      var sp := SortByFreq(p, freq);
      assert SortByFreq(s, freq) == InsertByFreq(sp, x, freq);
      SortStable(p, freq, k);
      SortSorted(p, freq);
      InsertWithFreq(sp, x, freq, k);
      WithFreqConcat(p, [x], freq, k);
      WithFreqCons(x, [], freq, k);
      assert [x] + [] == [x];
    }
  }

  lemma SortByFreqFacts(s: seq<string>, freq: map<string, nat>)
    ensures ByFreq(SortByFreq(s, freq), freq)
    ensures forall k: nat :: WithFreq(SortByFreq(s, freq), freq, k) == WithFreq(s, freq, k)
  {
    SortSorted(s, freq);
    forall k: nat ensures WithFreq(SortByFreq(s, freq), freq, k) == WithFreq(s, freq, k) {
      SortStable(s, freq, k);
    }
  }

  /** `extractWords(text)` as a value: empty text gives none; otherwise
      the distinct tokens ranked by frequency. */
  function Ranked(text: string): seq<string>
  {
    if text == [] then []
    else
      var tokens := Tokens(text);
      SortByFreq(Dedupe(tokens), FreqTable(tokens))
  }

  /** `extractWords(text)`. */
  method ExtractWords(text: string) returns (words: seq<string>)
    ensures words == Ranked(text)
  {
    if |text| == 0 {
      return [];
    }
    var tokens := Tokens(text);
    var keys, freq := CountFrequencies(tokens);
    words := SortByFreq(keys, freq);
  }

  /** What the ranking promises: every distinct token exactly once, each
      a lower-case token of the text, by non-increasing frequency, with
      equally frequent words in order of first appearance. */
  lemma RankedFacts(text: string)
    ensures text == [] ==> Ranked(text) == []
    ensures var tokens := Tokens(text); var r := Ranked(text);
      && NoDup(r)
      && (text != [] ==> forall w :: w in r <==> w in tokens)
      && (forall i :: 0 <= i < |r| ==> Lower(r[i]) == r[i] && |r[i]| >= 2)
      && (forall i, j :: 0 <= i < j < |r| ==> Count(tokens, r[i]) >= Count(tokens, r[j]))
      && (text != [] ==> forall k: nat :: WithFreq(r, FreqTable(tokens), k) == WithFreq(Dedupe(tokens), FreqTable(tokens), k))
  {
    var tokens := Tokens(text);
    var r := Ranked(text);
    if text != [] {
      var d := Dedupe(tokens);
      var freq := FreqTable(tokens);
      SortByFreqFacts(d, freq);
      PermutationNoDup(d, r);
      forall w ensures w in r <==> w in tokens {
        assert w in r <==> w in multiset(d);
      }
      forall i | 0 <= i < |r| ensures Lower(r[i]) == r[i] && |r[i]| >= 2 {
        assert r[i] in multiset(d);
        var k := IndexOf(tokens, r[i]);
        TokenLower(r[i]);
      }
      forall i, j | 0 <= i < j < |r| ensures Count(tokens, r[i]) >= Count(tokens, r[j]) {
        assert r[i] in multiset(d) && r[j] in multiset(d);
        assert FreqOf(freq, r[i]) >= FreqOf(freq, r[j]);
      }
    }
  }

  lemma IndexOfSkip<T>(a: seq<T>, b: seq<T>, x: T)
    requires x !in a && x in b
    ensures IndexOf(a + b, x) == |a| + IndexOf(b, x)
  {
    var m := IndexOf(a + b, x);
    var n := IndexOf(b, x);
    assert (a + b)[|a| + n] == x;
    assert (a + b)[m] == b[m - |a|];
  }

  /** The elements of frequency `k` around a position holding one. */
  lemma WithFreqAround(s: seq<string>, freq: map<string, nat>, k: nat, i: int)
    requires 0 <= i < |s| && FreqOf(freq, s[i]) == k
    ensures WithFreq(s, freq, k) == WithFreq(s[..i], freq, k) + ([s[i]] + WithFreq(s[i + 1..], freq, k))
  {
    assert s == s[..i] + ([s[i]] + s[i + 1..]);
    WithFreqConcat(s[..i], [s[i]] + s[i + 1..], freq, k);
    WithFreqConcat([s[i]], s[i + 1..], freq, k);
    assert WithFreq([s[i]], freq, k) == [s[i]];
  }

  /** In a duplicate-free sequence, two elements of frequency `k` keep
      their relative order in the elements of frequency `k`. */
  lemma WithFreqOrder(s: seq<string>, freq: map<string, nat>, k: nat, i: int, j: int)
    requires NoDup(s) && 0 <= i < j < |s|
    requires FreqOf(freq, s[i]) == k && FreqOf(freq, s[j]) == k
    ensures s[i] in WithFreq(s, freq, k) && s[j] in WithFreq(s, freq, k)
    ensures IndexOf(WithFreq(s, freq, k), s[i]) < IndexOf(WithFreq(s, freq, k), s[j])
  {
    var w1 := WithFreq(s[..i], freq, k);
    var w3 := WithFreq(s[i + 1..], freq, k);
    WithFreqAround(s, freq, k, i);
    WithFreqMember(s[..i], freq, k);
    WithFreqMember(s[i + 1..], freq, k);
    assert s[i] !in w1 && s[j] !in w1 by {
      assert s[i] !in s[..i] && s[j] !in s[..i];
    }
    assert s[j] in w3 by {
      assert s[j] == s[i + 1..][j - i - 1];
    }
    IndexOfSkip(w1, [s[i]] + w3, s[i]);
    IndexOfSkip(w1, [s[i]] + w3, s[j]);
    assert s[j] != s[i];
  }

  /** Equally frequent words come out in order of first appearance. */
  lemma TiesInFirstSeenOrder(text: string, i: int, j: int)
    requires text != [] && 0 <= i < j < |Ranked(text)|
    requires Count(Tokens(text), Ranked(text)[i]) == Count(Tokens(text), Ranked(text)[j])
    ensures Ranked(text)[i] in Tokens(text) && Ranked(text)[j] in Tokens(text)
    ensures IndexOf(Tokens(text), Ranked(text)[i]) < IndexOf(Tokens(text), Ranked(text)[j])
  {
    var tokens := Tokens(text);
    var r := Ranked(text);
    var d := Dedupe(tokens);
    var freq := FreqTable(tokens);
    RankedFacts(text);
    var k := Count(tokens, r[i]);
    assert FreqOf(freq, r[i]) == k && FreqOf(freq, r[j]) == k;
    WithFreqOrder(r, freq, k, i, j);
    var w := WithFreq(d, freq, k);
    assert WithFreq(r, freq, k) == w;
    var i', j' := IndexOf(d, r[i]), IndexOf(d, r[j]);
    assert i' != j';
    if j' < i' {
      WithFreqOrder(d, freq, k, j', i');
    }
    DedupeFirstSeenOrder(tokens);
    assert IndexOf(tokens, d[i']) < IndexOf(tokens, d[j']);
  }
}
