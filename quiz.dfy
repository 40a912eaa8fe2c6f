/** The placement quiz (src/features/placement/PlacementQuizAdapter.tsx):
    questions built from a small bank per context, weighted scoring, and
    the score and confidence reported at the end. */
module PlacementQuiz {
  import opened Seqs
  import opened Numbers
  import opened Strings
  import opened Shuffling

  datatype Question = Question(id: string, text: string, options: seq<string>, answer: string, weight: int)

  /** The banks, four questions per context. */
  const Bank: map<string, seq<Question>> := map[
    "law" := [
      Question("law-1", "The judge ___ the verdict.", ["gave", "take", "makes"], "gave", 2),
      Question("law-2", "Translate: 'Court hearing'", ["судебное заседание", "слушание музыки", "высший суд"], "судебное заседание", 1),
      Question("law-3", "Which term means 'evidence'?", ["доказательство", "наказание", "преступление"], "доказательство", 3),
      Question("law-4", "Choose: The contract is ___ by both parties.", ["signed", "sing", "signs"], "signed", 2)],
    "travel" := [
      Question("tr-1", "I ___ a ticket to Paris.", ["buyed", "bought", "buy"], "bought", 1),
      Question("tr-2", "Translate: 'boarding pass'", ["посадочный талон", "виза", "багаж"], "посадочный талон", 2),
      Question("tr-3", "'currency exchange' means…", ["обмен валюты", "таможня", "страховка"], "обмен валюты", 2),
      Question("tr-4", "Choose: The flight was ___ by two hours.", ["delayed", "delay", "deal"], "delayed", 2)],
    "it" := [
      Question("it-1", "'frontend' refers to…", ["UI", "database", "server"], "UI", 1),
      Question("it-2", "Translate: 'debugging'", ["поиск ошибок", "настройка сети", "юзабилити"], "поиск ошибок", 3),
      Question("it-3", "JS is a ___ language.", ["compiled", "interpreted", "hardware"], "interpreted", 2),
      Question("it-4", "Choose: API stands for…", ["Application Programming Interface", "Advanced Peripheral Interface", "App Program Instance"], "Application Programming Interface", 2)],
    "senior" := [
      Question("sn-1", "Translate: 'blood pressure'", ["кровяное давление", "пульс", "температура"], "кровяное давление", 1),
      Question("sn-2", "The doctor ___ me a new medicine.", ["prescribed", "describe", "writing"], "prescribed", 2),
      Question("sn-3", "Translate: 'pharmacy'", ["аптека", "больница", "лекарство"], "аптека", 2),
      Question("sn-4", "Choose: Take this pill ___ meals.", ["after", "on", "under"], "after", 1)]
  ]

  /** Every question weighs 1, 2 or 3. */
  ghost predicate Weighted(qs: seq<Question>)
  {
    forall i :: 0 <= i < |qs| ==> 1 <= qs[i].weight <= 3
  }

  /** `BANK[ctx] ?? BANK.law`: an unknown context falls back to the law bank. */
  function BaseFor(ctx: string): (base: seq<Question>)
    ensures |base| == 4 && Weighted(base)
    ensures ctx in Bank ==> base == Bank[ctx]
    ensures ctx !in Bank ==> base == Bank["law"]
  {
    if ctx in Bank then Bank[ctx] else Bank["law"]
  }

  /** A bank question placed at position `n`: its id gets the suffix `#n`. */
  function Tag(q: Question, n: nat): Question
  {
    q.(id := q.id + "#" + NatToString(n))
  }

  /** `q` is a bank question, re-tagged. */
  ghost predicate FromBank(q: Question, base: seq<Question>)
  {
    exists b, n: nat :: b in base && q == Tag(b, n)
  }

  ghost predicate DistinctIds(qs: seq<Question>)
  {
    forall i, j :: 0 <= i < j < |qs| ==> qs[i].id != qs[j].id
  }

  /** `s` repeated `n` times. */
  function Copies<T>(s: seq<T>, n: nat): (r: seq<T>)
    ensures forall i :: 0 <= i < |r| ==> r[i] in s
  {
    if n == 0 then [] else Copies(s, n - 1) + s
  }

  /** The `while (out.length < total)` loop of `buildQuestions`: whole
      shuffled copies of the bank are appended, each question tagged with
      its position in `out`, until there are at least `total`. `forms` are
      the untagged questions, which together are `rounds` copies of the bank. */
  method RepeatBank(base: seq<Question>, total: int) returns (out: seq<Question>, ghost forms: seq<Question>, ghost rounds: nat)
    requires base != []
    ensures |out| == |forms| && multiset(forms) == multiset(Copies(base, rounds))
    ensures forall k :: 0 <= k < |out| ==> out[k] == Tag(forms[k], k)
    ensures total <= 0 ==> out == []
    ensures total > 0 ==> total <= |out| < total + |base|
  {
    out, forms, rounds := [], [], 0;
    while |out| < total
      invariant |out| == |forms| && multiset(forms) == multiset(Copies(base, rounds))
      invariant forall k :: 0 <= k < |out| ==> out[k] == Tag(forms[k], k)
      invariant out == [] || |out| < total + |base|
      decreases total - |out|
    {
      out, forms, rounds := AppendRound(base, out, forms, rounds);
    }
  }

  /** One turn of that loop: a shuffled copy of the bank, tagged from the
      current length on. */
  method AppendRound(base: seq<Question>, out: seq<Question>, ghost forms: seq<Question>, ghost rounds: nat)
    returns (out': seq<Question>, ghost forms': seq<Question>, ghost rounds': nat)
    requires |out| == |forms| && multiset(forms) == multiset(Copies(base, rounds))
    requires forall k :: 0 <= k < |out| ==> out[k] == Tag(forms[k], k)
    ensures |out'| == |forms'| && multiset(forms') == multiset(Copies(base, rounds'))
    ensures forall k :: 0 <= k < |out'| ==> out'[k] == Tag(forms'[k], k)
    ensures |out'| == |out| + |base|
  {
    var sh := Shuffle(base);
    TaggedAppend(out, forms, sh);
    out', forms', rounds' := out + Tagged(sh, |out|), forms + sh, rounds + 1;
  }

  /** `shuffle(base).map((q, idx) => ({...q, id: `${q.id}#${start + idx}`}))`. */
  function Tagged(sh: seq<Question>, start: nat): (block: seq<Question>)
    ensures |block| == |sh|
    ensures forall idx :: 0 <= idx < |sh| ==> block[idx] == Tag(sh[idx], start + idx)
  {
    seq(|sh|, idx requires 0 <= idx < |sh| => Tag(sh[idx], start + idx))
  }

  /** Appending a tagged round keeps every question tagged with its position. */
  lemma TaggedAppend(out: seq<Question>, forms: seq<Question>, sh: seq<Question>)
    requires |out| == |forms| && forall k :: 0 <= k < |out| ==> out[k] == Tag(forms[k], k)
    ensures var out', forms' := out + Tagged(sh, |out|), forms + sh;
            forall k :: 0 <= k < |out'| ==> out'[k] == Tag(forms'[k], k)
  {
    var out', forms' := out + Tagged(sh, |out|), forms + sh;
    forall k | 0 <= k < |out'| ensures out'[k] == Tag(forms'[k], k) {
      if k >= |out| {
        assert out'[k] == Tagged(sh, |out|)[k - |out|];
      }
    }
  }

  /** Tags at different positions make different ids. */
  lemma TagsDiffer(a: Question, m: nat, b: Question, n: nat)
    requires m != n
    ensures Tag(a, m).id != Tag(b, n).id
  {
    if Tag(a, m).id == Tag(b, n).id {
      assert '#' !in NatToString(m) && '#' !in NatToString(n);
      SuffixSeparatedEq(a.id, NatToString(m), b.id, NatToString(n), '#');
      NatToStringInjective(m, n);
    }
  }

  /** Reordering keeps ids distinct. */
  lemma DistinctIdsPermutation(s: seq<Question>, r: seq<Question>)
    requires DistinctIds(s) && multiset(r) == multiset(s)
    ensures DistinctIds(r)
  {
    assert NoDup(s);
    PermutationNoDup(s, r);
    forall i, j | 0 <= i < j < |r| ensures r[i].id != r[j].id {
      assert r[i] in multiset(s) && r[j] in multiset(s);
      var a := IndexOf(s, r[i]);
      var b := IndexOf(s, r[j]);
      assert a != b;
    }
  }

  /** `buildQuestions(ctx, total)`: exactly `total` questions (none for a
      non-positive total), with distinct ids, each a question of the
      context's bank. */
  method BuildQuestions(ctx: string, total: int) returns (qs: seq<Question>)
    ensures |qs| == Max(0, total)
    ensures DistinctIds(qs)
    ensures forall k :: 0 <= k < |qs| ==> FromBank(qs[k], BaseFor(ctx))
    ensures Weighted(qs)
  {
    var base := BaseFor(ctx);
    var out, forms, rounds := RepeatBank(base, total);
    forall k, m | 0 <= k < m < |out| ensures out[k].id != out[m].id {
      TagsDiffer(forms[k], k, forms[m], m);
    }
    forall k | 0 <= k < |out| ensures FromBank(out[k], base) && 1 <= out[k].weight <= 3 {
      assert forms[k] in multiset(Copies(base, rounds));
      assert forms[k] in base;
      assert out[k] == Tag(forms[k], k);
    }
    var shuffled := Shuffle(out);
    DistinctIdsPermutation(out, shuffled);
    qs := SliceTo(shuffled, total);
    forall k | 0 <= k < |qs| ensures FromBank(qs[k], base) && 1 <= qs[k].weight <= 3 {
      assert qs[k] == shuffled[k];
      assert shuffled[k] in multiset(out);
      var a := IndexOf(out, shuffled[k]);
    }
  }

  /** `maxWeighted`: the sum of the weights. */
  function MaxWeighted(qs: seq<Question>): (m: int)
    ensures Weighted(qs) ==> |qs| <= m <= 3 * |qs|
  {
    if qs == [] then 0 else MaxWeighted(qs[..|qs| - 1]) + qs[|qs| - 1].weight
  }

  /** What `onDone` receives. */
  datatype Outcome = Outcome(score: int, confidence: real)

  function Ratio(correct: int, max: int): real
  {
    if max == 0 then 0.0 else correct as real / max as real
  }

  /** The payload computed from a weighted tally and the maximum. */
  function FinalOutcome(correct: int, max: int, comfort: bool): (o: Outcome)
    ensures 0.55 <= o.confidence <= 0.98
    ensures o.score == Round(Ratio(correct, max) * 100.0)
  {
    var ratio := Ratio(correct, max);
    var baseConf := 0.72 + ratio * 0.2;
    Outcome(Round(ratio * 100.0), MinReal(0.98, MaxReal(0.55, if comfort then baseConf + 0.06 else baseConf)))
  }

  lemma RatioBounds(correct: int, max: int)
    requires 0 <= correct <= max
    ensures 0.0 <= Ratio(correct, max) <= 1.0
  {
    if max > 0 {
      assert correct as real / max as real <= 1.0 by {
        assert correct as real <= max as real;
      }
    }
  }

  /** For a tally within range the score is a percentage and the clamps
      never bite: the confidence is 0.72 to 0.92, plus 0.06 in comfort mode. */
  lemma OutcomeInRange(correct: int, max: int, comfort: bool)
    requires 0 <= correct <= max
    ensures 0 <= FinalOutcome(correct, max, comfort).score <= 100
    ensures FinalOutcome(correct, max, comfort).confidence ==
              0.72 + Ratio(correct, max) * 0.2 + (if comfort then 0.06 else 0.0)
  {
    RatioBounds(correct, max);
  }

  /** A larger tally never lowers the score. */
  lemma ScoreMonotone(c1: int, c2: int, max: int, comfort: bool)
    requires 0 <= c1 <= c2 && max >= 0
    ensures FinalOutcome(c1, max, comfort).score <= FinalOutcome(c2, max, comfort).score
  {
    if max > 0 {
      assert c1 as real / max as real <= c2 as real / max as real;
      RoundMonotone(c1 as real / max as real * 100.0, c2 as real / max as real * 100.0);
    }
  }

  /** The question the `j`-th answer is given to: after the last one the
      quiz keeps showing the last question. */
  function AnsweredAt(qs: seq<Question>, j: nat): Question
    requires qs != []
  {
    qs[Min(j, |qs| - 1)]
  }

  /** The weighted tally of a run of answers. */
  function Earned(qs: seq<Question>, answers: seq<string>): int
    requires qs != []
  {
    if answers == [] then 0
    else
      var n := |answers| - 1;
      Earned(qs, answers[..n]) + (if answers[n] == AnsweredAt(qs, n).answer then AnsweredAt(qs, n).weight else 0)
  }

  /** The right answers, in order. */
  function Key(qs: seq<Question>): (r: seq<string>)
    ensures |r| == |qs| && forall i :: 0 <= i < |qs| ==> r[i] == qs[i].answer
  {
    seq(|qs|, i requires 0 <= i < |qs| => qs[i].answer)
  }

  /** Answering the first `k` questions right earns their whole weight. */
  lemma {:induction false} PerfectPrefix(qs: seq<Question>, k: nat)
    requires qs != [] && k <= |qs|
    ensures Earned(qs, Key(qs)[..k]) == MaxWeighted(qs[..k])
  {
    if k > 0 {
      PerfectPrefix(qs, k - 1);
      assert Key(qs)[..k][..k - 1] == Key(qs)[..k - 1];
      assert qs[..k][..k - 1] == qs[..k - 1];
    }
  }

  /** Any run of `k <= |qs|` answers earns between 0 and the weight of the
      questions it answered. */
  lemma {:induction false} EarnedBounds(qs: seq<Question>, answers: seq<string>)
    requires qs != [] && |answers| <= |qs| && Weighted(qs)
    ensures 0 <= Earned(qs, answers) <= MaxWeighted(qs[..|answers|])
  {
    if answers != [] {
      var n := |answers| - 1;
      EarnedBounds(qs, answers[..n]);
      assert qs[..|answers|][..n] == qs[..n];
    }
  }

  /** The quiz screen: the questions, the current step, the weighted tally,
      and (ghost) the answers given so far. */
  class Quiz {
    const questions: seq<Question>
    const comfortMode: bool
    var step: int
    var correctWeighted: int
    ghost var answers: seq<string>

    ghost predicate Valid()
      reads this
    {
      && questions != []
      && step == Min(|answers|, |questions| - 1)
      && correctWeighted == Earned(questions, answers)
    }

    /** The quiz starts at the first question with nothing earned. The
        screen needs at least one question: it reads the current question
        while rendering. */
    constructor(context: string, totalQuestions: int, comfort: bool)
      requires totalQuestions >= 1
      ensures Valid() && answers == [] && comfortMode == comfort
      ensures |questions| == totalQuestions && DistinctIds(questions) && Weighted(questions)
      ensures forall k :: 0 <= k < |questions| ==> FromBank(questions[k], BaseFor(context))
    {
      var qs := BuildQuestions(context, totalQuestions);
      questions := qs;
      comfortMode := comfort;
      step := 0;
      correctWeighted := 0;
      answers := [];
    }

    /** `handleAnswer(choice)` as written: the payload after the last
        question uses the tally from BEFORE this answer, because the state
        update queued for it is not yet applied when the payload is computed. */
    method HandleAnswer(choice: string) returns (payload: Option<Outcome>)
      requires Valid()
      modifies this
      ensures Valid() && answers == old(answers) + [choice]
      ensures payload == if |answers| < |questions| then None
                         else Some(FinalOutcome(old(correctWeighted), MaxWeighted(questions), comfortMode))
    {
      var q := questions[step];
      var tally := correctWeighted;
      var next := step + 1;
      if next < |questions| {
        step := next;
        payload := None;
      } else {
        payload := Some(FinalOutcome(tally, MaxWeighted(questions), comfortMode));
      }
      if choice == q.answer {
        correctWeighted := correctWeighted + q.weight;
      }
      answers := answers + [choice];
      assert answers[..|answers| - 1] == old(answers);
    }

    /** `handleAnswer(choice)` as evidently intended: the payload counts
        the final answer too. */
    method HandleAnswerIntended(choice: string) returns (payload: Option<Outcome>)
      requires Valid()
      modifies this
      ensures Valid() && answers == old(answers) + [choice]
      ensures payload == if |answers| < |questions| then None
                         else Some(FinalOutcome(correctWeighted, MaxWeighted(questions), comfortMode))
    {
      var q := questions[step];
      if choice == q.answer {
        correctWeighted := correctWeighted + q.weight;
      }
      answers := answers + [choice];
      assert answers[..|answers| - 1] == old(answers);
      var next := step + 1;
      if next < |questions| {
        step := next;
        payload := None;
      } else {
        payload := Some(FinalOutcome(correctWeighted, MaxWeighted(questions), comfortMode));
      }
    }
  }

  /** As written, a quiz of one question answered right reports 0. */
  lemma SingleRightAnswerScoresZero(q: Question)
    ensures FinalOutcome(Earned([q], []), MaxWeighted([q]), false).score == 0
  {
  }

  lemma MulCancel(x: real, y: real, m: real)
    requires m > 0.0 && x * m < y * m
    ensures x < y
  {
  }

  /** A tally short of a maximum below 200 by at least one point rounds
      to less than 100. */
  lemma ShortTallyBelowHundred(c: int, m: int)
    requires 0 < m < 200 && 0 <= c <= m - 1
    ensures Round(c as real / m as real * 100.0) < 100
  {
    var r := c as real / m as real;
    assert r * m as real == c as real;
    assert (r * 100.0) * m as real == c as real * 100.0;
    assert c as real * 100.0 < 99.5 * m as real;
    MulCancel(r * 100.0, 99.5, m as real);
  }

  lemma FullTally(m: int)
    requires m > 0
    ensures Round(Ratio(m, m) * 100.0) == 100
  {
    assert m as real / m as real == 1.0;
  }

  /** As written, a perfect run of any quiz of total weight below 200
      reports less than 100: the tally misses the last question's weight. */
  lemma PerfectRunAsWritten(qs: seq<Question>)
    requires qs != [] && Weighted(qs) && MaxWeighted(qs) < 200
    ensures FinalOutcome(Earned(qs, Key(qs)[..|qs| - 1]), MaxWeighted(qs), false).score < 100
  {
    var n := |qs| - 1;
    PerfectPrefix(qs, n);
    assert qs[..n + 1] == qs;
    assert qs[..n + 1][..n] == qs[..n];
    var m := MaxWeighted(qs);
    var c := MaxWeighted(qs[..n]);
    assert m == c + qs[n].weight;
    assert Weighted(qs[..n]) by {
      assert forall i :: 0 <= i < n ==> qs[..n][i] == qs[i];
    }
    ShortTallyBelowHundred(c, m);
  }

  /** As intended, a perfect run reports 100. */
  lemma PerfectRunIntended(qs: seq<Question>, comfort: bool)
    requires qs != [] && Weighted(qs)
    ensures FinalOutcome(Earned(qs, Key(qs)), MaxWeighted(qs), comfort).score == 100
  {
    PerfectPrefix(qs, |qs|);
    assert Key(qs)[..|qs|] == Key(qs) && qs[..|qs|] == qs;
    FullTally(MaxWeighted(qs));
  }
}
