/** The mini-session of exercises (src/features/learn/ExercisesAdapter.tsx):
    task list, the string helpers behind the options and hints, the learn
    log it writes for the review deck, and the result message. */
module Exercises {
  import opened Seqs
  import opened Numbers
  import opened Strings
  import opened SrsCard
  import opened SrsDeck
  import opened Shuffling

  datatype TaskKind = Flip | Mcq | Type

  datatype Task = Task(kind: TaskKind, word: string)

  /** The session's words: the first eight of today's set, or the seven
      default words (the same list as the deck's default pool) without one. */
  function SessionWords(todaySet: seq<string>): (r: seq<string>)
    ensures r != [] && |r| <= 8
    ensures todaySet != [] ==> IsPrefix(r, todaySet) && |r| == Min(8, |todaySet|)
    ensures todaySet == [] ==> r == DefaultPool
  {
    var set_ := if |todaySet| > 0 then todaySet else DefaultPool;
    set_[..Min(8, |set_|)]
  }

  /** Kinds cycle flip, mcq, type. */
  function KindAt(i: nat): TaskKind
  {
    if i % 3 == 0 then Flip else if i % 3 == 1 then Mcq else Type
  }

  /** One task per word, in order, with the kind given by its position. */
  function Tasks(words: seq<string>): (ts: seq<Task>)
    ensures |ts| == |words|
    ensures forall i :: 0 <= i < |words| ==> ts[i] == Task(KindAt(i), words[i])
  {
    seq(|words|, i requires 0 <= i < |words| => Task(KindAt(i), words[i]))
  }

  /** `jiggle`: the lower-cased word with two neighbouring letters swapped,
      or with its last letter doubled when it is shorter than three. An empty
      word gives the text "undefined", as `'' + undefined` does. */
  function Jiggle(word: string): (r: string)
    ensures var lw := Lower(word);
      && (|lw| == 0 ==> r == "undefined")
      && (0 < |lw| < 3 ==> r == lw + [lw[|lw| - 1]])
      && (|lw| >= 3 ==>
            && |r| == |lw|
            && multiset(r) == multiset(lw)
            && var i := Max(1, Min(|lw| - 2, 2));
               r[i] == lw[i + 1] && r[i + 1] == lw[i]
               && forall k :: 0 <= k < |lw| && k != i && k != i + 1 ==> r[k] == lw[k])
  {
    var lower := Lower(word);
    if |lower| == 0 then "undefined"
    else if |lower| < 3 then lower + [lower[|lower| - 1]]
    else
      SwapNext(lower, Max(1, Min(|lower| - 2, 2)))
  }

  /** `s` with the characters at `i` and `i + 1` exchanged. */
  function SwapNext(s: string, i: nat): (r: string)
    requires i + 1 < |s|
    ensures |r| == |s| && multiset(r) == multiset(s)
    ensures r[i] == s[i + 1] && r[i + 1] == s[i]
    ensures forall k :: 0 <= k < |s| && k != i && k != i + 1 ==> r[k] == s[k]
  {
    var a, b := s[..i], s[i + 2..];
    assert s == a + [s[i]] + [s[i + 1]] + b;
    a + [s[i + 1]] + [s[i]] + b
  }

  /** The option list before de-duplication: the answer, the typos, then
      `jiggle` copies until there are three entries. */
  function Padded(base: seq<string>, filler: string): (r: seq<string>)
    ensures |r| >= 3 && IsPrefix(base, r)
    ensures forall i :: |base| <= i < |r| ==> r[i] == filler
    decreases 3 - |base|
  {
    if |base| >= 3 then base else Padded(base + [filler], filler)
  }

  /** The MCQ's options: the lower-cased word, the typos and `jiggle`
      padding, each once, in a shuffled order. */
  method BuildOptions(word: string, typos: seq<string>) returns (options: seq<string>)
    ensures multiset(options) == multiset(Dedupe(Padded([Lower(word)] + typos, Jiggle(word))))
    ensures Lower(word) in options
  {
    var base := [Lower(word)] + typos;
    var filler := Jiggle(word);
    while |base| < 3
      invariant Padded(base, filler) == Padded([Lower(word)] + typos, filler)
      invariant |base| >= 1 && base[0] == Lower(word)
      decreases 3 - |base|
    {
      base := base + [filler];
    }
    var d := Dedupe(base);
    assert base[0] in d;
    options := Shuffle(d);
    assert Lower(word) in multiset(options);
  }

  /** The options can fall to two: a two-letter word whose only typo equals
      its `jiggle`. */
  lemma OptionsCanBeTwo()
    ensures |Dedupe(Padded([Lower("aa")] + ["aaa"], Jiggle("aa")))| == 2
  {
    assert Lower("aa") == "aa";
    assert Jiggle("aa") == "aaa";
    var p := Padded(["aa", "aaa"], "aaa");
    assert p == ["aa", "aaa", "aaa"];
    assert p == ["aa", "aaa"] + ["aaa"];
    assert ["aa", "aaa"] == ["aa"] + ["aaa"];
    DedupeSnoc(["aa"], "aaa");
    DedupeSnoc(["aa", "aaa"], "aaa");
    DedupeSnoc([], "aa");
    assert [] + ["aa"] == ["aa"];
  }

  /** An MCQ answer is right when the picked option is the lower-cased word. */
  predicate McqCorrect(picked: string, word: string)
  {
    picked == Lower(word)
  }

  /** A typed answer is right when, trimmed and lower-cased, it is the
      lower-cased word. */
  predicate TypedCorrect(value: string, word: string)
  {
    Lower(Trim(value)) == Lower(word)
  }

  /** Typing the word in any case, with any white space around it, is
      accepted. */
  lemma TypedWordAccepted(p1: string, v: string, p2: string, word: string)
    requires AllSpace(p1) && AllSpace(p2) && Trimmed(v)
    requires Lower(v) == Lower(word)
    ensures TypedCorrect(p1 + v + p2, word)
  {
    TrimPadded(p1, v, p2);
  }

  /** The grade each kind of task logs: a flip Hard, a right MCQ Good, a
      right typed answer Easy, any wrong answer Again. */
  function QualityFor(kind: TaskKind, ok: bool): (q: Quality)
    ensures kind == Flip ==> q == 3
    ensures kind != Flip && !ok ==> q == 0
    ensures kind == Mcq && ok ==> q == 4
    ensures kind == Type && ok ==> q == 5
  {
    match kind
    case Flip => 3
    case Mcq => if ok then 4 else 0
    case Type => if ok then 5 else 0
  }

  /** A right answer is a passing grade for the deck; a wrong one resets the card. */
  lemma QualityForDeck(kind: TaskKind, ok: bool, card: CardState, today: Day)
    ensures kind != Flip && !ok ==> RateSM2(card, QualityFor(kind, ok), today).reps == 0
    ensures kind == Flip || ok ==> RateSM2(card, QualityFor(kind, ok), today).reps == card.reps + 1
  {
  }

  function MaxQuality(a: Quality, b: Quality): Quality
  {
    if a < b then b else a
  }

  /** The grade logged for `key`, -1 when there is none (`items[key] ?? -1`). */
  function Lookup(items: seq<(string, Quality)>, key: string): (g: int)
    ensures g == -1 || g == 0 || g == 3 || g == 4 || g == 5
    ensures g == -1 <==> forall i :: 0 <= i < |items| ==> items[i].0 != key
  {
    if items == [] then -1
    else if items[0].0 == key then items[0].1
    else Lookup(items[1..], key)
  }

  /** `items[key] = Math.max(prev, quality)`: an existing entry keeps its
      place and the larger grade, a new key is added at the end. */
  function Upsert(items: seq<(string, Quality)>, key: string, q: Quality): (r: seq<(string, Quality)>)
    ensures |r| == |items| || r == items + [(key, q)]
    ensures forall i :: 0 <= i < |items| ==> r[i].0 == items[i].0
  {
    if items == [] then [(key, q)]
    else if items[0].0 == key then [(key, MaxQuality(items[0].1, q))] + items[1..]
    else [items[0]] + Upsert(items[1..], key, q)
  }

  /** After logging, the word holds the larger of its old and new grade and
      every other word keeps its grade. */
  lemma {:induction false} UpsertLookup(items: seq<(string, Quality)>, key: string, q: Quality, other: string)
    ensures Lookup(Upsert(items, key, q), key) == if Lookup(items, key) < q then q else Lookup(items, key)
    ensures other != key ==> Lookup(Upsert(items, key, q), other) == Lookup(items, other)
  {
    if items != [] && items[0].0 != key {
      UpsertLookup(items[1..], key, q, other);
    }
  }

  /** No word is logged twice, as in a JavaScript object. */
  ghost predicate DistinctKeys(items: seq<(string, Quality)>)
  {
    forall i, j :: 0 <= i < j < |items| ==> items[i].0 != items[j].0
  }

  lemma {:induction false} UpsertDistinct(items: seq<(string, Quality)>, key: string, q: Quality)
    requires DistinctKeys(items)
    ensures DistinctKeys(Upsert(items, key, q))
  {
    if items != [] && items[0].0 != key {
      var tail := items[1..];
      assert DistinctKeys(tail) by {
        assert forall i :: 0 <= i < |tail| ==> tail[i] == items[i + 1];
      }
      UpsertDistinct(tail, key, q);
      var rest := Upsert(tail, key, q);
      var r := [items[0]] + rest;
      assert Upsert(items, key, q) == r;
      forall i, j | 0 <= i < j < |r| ensures r[i].0 != r[j].0 {
        assert r[j] == rest[j - 1];
        if i > 0 {
          assert r[i] == rest[i - 1];
          assert rest[i - 1].0 != rest[j - 1].0;
        } else if j - 1 < |tail| {
          assert r[0] == items[0];
          assert rest[j - 1].0 == tail[j - 1].0 == items[j].0;
          assert items[0].0 != items[j].0;
        } else {
          assert r[0] == items[0];
          assert rest == tail + [(key, q)];
          assert rest[j - 1] == (key, q);
        }
      }
    }
  }

  /** The record `logQuality` starts from: today's record, or a new empty one. */
  function TodayLog(log: Option<LearnLog>, today: Day): (l: LearnLog)
    ensures l.date == today
  {
    if log.Some? && log.value.date == today then log.value else LearnLog(today, [])
  }

  /** The record after logging `q` for `word` on `today`. */
  function Logged(log: Option<LearnLog>, word: string, q: Quality, today: Day): LearnLog
  {
    var data := TodayLog(log, today);
    LearnLog(today, Upsert(data.items, Lower(word), q))
  }

  /** Logging the same word several times in a day keeps its best grade. */
  function LogAll(log: Option<LearnLog>, word: string, qs: seq<Quality>, today: Day): Option<LearnLog>
    decreases |qs|
  {
    if qs == [] then log
    else Some(Logged(LogAll(log, word, qs[..|qs| - 1], today), word, qs[|qs| - 1], today))
  }

  function MaxOf(qs: seq<Quality>): int
    decreases |qs|
  {
    if qs == [] then -1
    else var m := MaxOf(qs[..|qs| - 1]); if m < qs[|qs| - 1] then qs[|qs| - 1] else m
  }

  /** Starting from a record of another day (or none), the stored grade is
      the best of the day's grades for that word. */
  lemma {:induction false} LogAllKeepsBest(log: Option<LearnLog>, word: string, qs: seq<Quality>, today: Day)
    requires log.None? || log.value.date != today
    requires qs != []
    ensures LogAll(log, word, qs, today).Some?
    ensures Lookup(LogAll(log, word, qs, today).value.items, Lower(word)) == MaxOf(qs)
    decreases |qs|
  {
    var init := qs[..|qs| - 1];
    var prev := LogAll(log, word, init, today);
    if init == [] {
      assert prev == log;
      UpsertLookup([], Lower(word), qs[|qs| - 1], Lower(word));
    } else {
      LogAllKeepsBest(log, word, init, today);
      UpsertLookup(prev.value.items, Lower(word), qs[|qs| - 1], Lower(word));
    }
  }

  /** The learn-log slot of local storage. */
  class LogSlot {
    var log: Option<LearnLog>

    ghost predicate Valid()
      reads this
    {
      log.Some? ==> DistinctKeys(log.value.items)
    }

    constructor(initial: Option<LearnLog>)
      ensures log == initial
    {
      log := initial;
    }

    /** `logQuality`: a record of another day is dropped, then the word's
        grade is raised to `q` if that is higher. */
    method LogQuality(word: string, q: Quality, today: Day)
      modifies this
      ensures log == Some(Logged(old(log), word, q, today))
      ensures old(Valid()) ==> Valid()
    {
      var data := if log.Some? && log.value.date == today then log.value else LearnLog(today, []);
      var key := Lower(word);
      var items := Upsert(data.items, key, q);
      if Valid() {
        UpsertDistinct(data.items, key, q);
      }
      log := Some(LearnLog(today, items));
    }
  }

  datatype Verdict = Excellent | Good | NeedWork(correct: int, total: int)

  /** The ratio shown at the end; 0 for an empty session. */
  function Ratio(correct: int, total: int): real
  {
    if total > 0 then correct as real / total as real else 0.0
  }

  /** `resultText`. */
  function ResultText(correct: int, total: int): (v: Verdict)
    ensures v == Excellent <==> Ratio(correct, total) >= 0.85
    ensures v == Good <==> 0.6 <= Ratio(correct, total) < 0.85
    ensures v.NeedWork? <==> Ratio(correct, total) < 0.6
    ensures v.NeedWork? ==> v == NeedWork(correct, total)
    ensures total <= 0 ==> v == NeedWork(correct, total)
  {
    var r := Ratio(correct, total);
    if r >= 0.85 then Excellent else if r >= 0.6 then Good else NeedWork(correct, total)
  }

  /** Tasks that can be answered right or wrong (every kind but flip). */
  function Graded(ts: seq<Task>): (n: nat)
    ensures n <= |ts|
    decreases |ts|
  {
    if ts == [] then 0
    else Graded(ts[..|ts| - 1]) + (if ts[|ts| - 1].kind != Flip then 1 else 0)
  }

  /** One more task adds one to the graded count unless it is a flip. */
  lemma GradedNext(ts: seq<Task>, i: nat)
    requires i < |ts|
    ensures Graded(ts[..i + 1]) == Graded(ts[..i]) + (if ts[i].kind != Flip then 1 else 0)
  {
    assert ts[..i + 1][..i] == ts[..i];
  }

  /** Of the first `k` tasks, all but every third (starting with the first)
      are graded. */
  lemma {:induction false} GradedPrefix(words: seq<string>, k: nat)
    requires k <= |words|
    ensures Graded(Tasks(words)[..k]) == k - (k + 2) / 3
  {
    if k > 0 {
      GradedPrefix(words, k - 1);
      assert Tasks(words)[..k][..k - 1] == Tasks(words)[..k - 1];
    }
  }

  /** As written, the verdict counts flips in the total but never as correct,
      so at most two thirds of a session can be right and "excellent" is
      never shown. */
  lemma ExcellentUnreachable(words: seq<string>, correct: int)
    requires correct <= Graded(Tasks(words))
    ensures ResultText(correct, |Tasks(words)|) != Excellent
  {
    GradedPrefix(words, |words|);
    assert Tasks(words)[..|words|] == Tasks(words);
    var n := |words|;
    if n > 0 {
      assert 3 * correct <= 2 * n;
      DivBound(correct as real, n as real, 2.0 / 3.0);
    }
  }

  lemma RatioOne(g: int)
    requires g > 0
    ensures ResultText(g, g) == Excellent
  {
    assert Ratio(g, g) == 1.0;
  }

  lemma DivBound(x: real, n: real, c: real)
    requires n > 0.0 && x <= c * n
    ensures x / n <= c
  {
  }

  /** The verdict as intended: the right answers over the graded tasks. */
  function ResultIntended(correct: int, tasks: seq<Task>): Verdict
  {
    ResultText(correct, Graded(tasks))
  }

  /** With the intended ratio, a session of two or more tasks answered all
      right is excellent. */
  lemma IntendedExcellentReachable(words: seq<string>)
    requires |words| >= 2
    ensures ResultIntended(Graded(Tasks(words)), Tasks(words)) == Excellent
  {
    GradedPrefix(words, |words|);
    assert Tasks(words)[..|words|] == Tasks(words);
    var g := Graded(Tasks(words));
    var n := |words|;
    assert g == n - (n + 2) / 3;
    assert (n + 2) / 3 < n;
    RatioOne(g);
  }

  /** The session's counters. `answered` tasks are behind the cursor. */
  class Session {
    const words: seq<string>
    const tasks: seq<Task>
    const today: Day
    const logSlot: LogSlot
    var idx: int
    var correct: int
    var done: bool

    function Answered(): int
      reads this
    {
      if done then idx + 1 else idx
    }

    ghost predicate Valid()
      reads this
    {
      && tasks == Tasks(words)
      && tasks != []
      && 0 <= idx < |tasks|
      && (done ==> idx == |tasks| - 1)
      && 0 <= correct <= Graded(tasks[..Answered()])
    }

    constructor(todaySet: seq<string>, logSlot: LogSlot, today: Day)
      ensures words == SessionWords(todaySet) && tasks == Tasks(words)
      ensures this.logSlot == logSlot && this.today == today
      ensures idx == 0 && correct == 0 && !done
      ensures Valid()
    {
      words := SessionWords(todaySet);
      tasks := Tasks(SessionWords(todaySet));
      this.logSlot := logSlot;
      this.today := today;
      idx := 0;
      correct := 0;
      done := false;
    }

    /** Finishing the current task: its grade is logged, a right graded
        answer is counted (`mark`), and `next` moves on or ends the session. */
    method Answer(ok: bool)
      requires Valid() && !done
      modifies this, logSlot
      ensures Valid()
      ensures var t := tasks[old(idx)];
              && logSlot.log == Some(Logged(old(logSlot.log), t.word, QualityFor(t.kind, ok), today))
              && correct == old(correct) + (if t.kind != Flip && ok then 1 else 0)
      ensures (idx, done) == Advance(old(idx), |tasks|)
    {
      var t := tasks[idx];
      logSlot.LogQuality(t.word, QualityFor(t.kind, ok), today);
      Mark(t.kind != Flip && ok);
    }

    /** `mark` and `next`: a right graded answer is counted, and the cursor
        moves on or the session ends. */
    method Mark(right: bool)
      requires Valid() && !done
      requires right ==> tasks[idx].kind != Flip
      modifies this
      ensures Valid()
      ensures correct == old(correct) + (if right then 1 else 0)
      ensures (idx, done) == Advance(old(idx), |tasks|)
    {
      GradedNext(tasks, idx);
      if right {
        correct := correct + 1;
      }
      if idx + 1 >= |tasks| {
        done := true;
      } else {
        idx := idx + 1;
      }
    }

    /** A finished session is never "excellent". */
    lemma FinishedNotExcellent()
      requires Valid() && done
      ensures ResultText(correct, |tasks|) != Excellent
    {
      assert tasks[..Answered()] == tasks;
      ExcellentUnreachable(words, correct);
    }
  }
}
