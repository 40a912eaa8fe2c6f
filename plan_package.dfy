/** The weekly word package and the plan built on it
    (src/lib/plan/buildPackage.ts, src/lib/plan/calcPlan.ts). */
module PlanPackage {
  import opened Seqs
  import opened Numbers
  import opened TextWords

  /** The onboarding answers (`Goals`). */
  datatype Goals = Goals(
    target: string, languagePair: string, contextId: string, style: string,
    horizonDays: int, wordsPerDay: int, userText: string, useUserText: bool)

  datatype Package = Package(week: seq<string>, today: seq<string>)

  /** The stored plan (`Plan`). */
  datatype Plan = Plan(
    daily: int, weekly: int, totalWords: int, contextId: string, horizonDays: int,
    todaySet: seq<string>, weekPackage: seq<string>)

  predicate NonEmpty(w: string) { w != [] }

  /** Words per week, never below one. */
  function WeeklyTarget(wordsPerDay: int): int { Max(1, wordsPerDay * 7) }

  /** Ranked words of the user's text, used only when the user allows it. */
  function FromText(goals: Goals): seq<string>
  {
    if goals.useUserText then Ranked(goals.userText) else []
  }

  /** The context's seed words; a context missing from the table has none. */
  function Seed(goals: Goals, seedTable: map<string, seq<string>>): seq<string>
  {
    if goals.contextId in seedTable then seedTable[goals.contextId] else []
  }

  /** Text words, then seed words, each once, empty strings dropped. */
  function Candidates(goals: Goals, seedTable: map<string, seq<string>>): seq<string>
  {
    Filter(Dedupe(FromText(goals) + Seed(goals, seedTable)), NonEmpty)
  }

  /** `buildPackage(goals)`, the seed table being a parameter. */
  function BuildPackage(goals: Goals, seedTable: map<string, seq<string>>): (p: Package)
    ensures NoDup(p.week)
    ensures IsPrefix(p.week, Candidates(goals, seedTable))
    ensures |p.week| == Min(WeeklyTarget(goals.wordsPerDay), |Candidates(goals, seedTable)|)
    ensures IsPrefix(p.today, p.week)
    ensures goals.wordsPerDay >= 0 ==> |p.today| == Min(goals.wordsPerDay, |p.week|)
    ensures forall i :: 0 <= i < |p.week| ==>
              p.week[i] != [] && (p.week[i] in FromText(goals) || p.week[i] in Seed(goals, seedTable))
  {
    var uniq := Candidates(goals, seedTable);
    FilterNoDup(Dedupe(FromText(goals) + Seed(goals, seedTable)), NonEmpty);
    var week := SliceTo(uniq, WeeklyTarget(goals.wordsPerDay));
    PrefixNoDup(week, uniq);
    forall i | 0 <= i < |week|
      ensures week[i] != [] && (week[i] in FromText(goals) || week[i] in Seed(goals, seedTable))
    {
      assert week[i] == uniq[i];
      assert week[i] in FromText(goals) + Seed(goals, seedTable);
    }
    Package(week, SliceTo(week, goals.wordsPerDay))
  }

  /** A duplicate-free sequence is its own deduplication. */
  lemma {:induction false} DedupeOfNoDup(s: seq<string>)
    requires NoDup(s)
    ensures Dedupe(s) == s
  {
    if s != [] {
      var p := s[..|s| - 1];
      assert s == p + [s[|s| - 1]];
      assert NoDup(p);
      assert s[|s| - 1] !in p;
      DedupeOfNoDup(p);
      DedupeSnoc(p, s[|s| - 1]);
    }
  }

  lemma {:induction false} FilterAll(s: seq<string>)
    requires forall i :: 0 <= i < |s| ==> s[i] != []
    ensures Filter(s, NonEmpty) == s
  {
    if s != [] {
      FilterAll(s[1..]);
    }
  }

  /** Duplicate-free non-empty words in front survive deduplication and
      filtering as a prefix. */
  lemma MergedPrefix(t: seq<string>, seed: seq<string>)
    requires NoDup(t) && forall i :: 0 <= i < |t| ==> t[i] != []
    ensures IsPrefix(t, Filter(Dedupe(t + seed), NonEmpty))
  {
    var d := Dedupe(t + seed);
    DedupeOfNoDup(t);
    DedupePrefix(t, seed);
    var rest := d[|t|..];
    PrefixSplit(t, d);
    FilterConcat(t, rest, NonEmpty);
    FilterAll(t);
    var f := Filter(rest, NonEmpty);
    assert Filter(d, NonEmpty) == t + f;
    assert (t + f)[..|t|] == t;
  }

  /** Every non-empty word of either list survives the merge. */
  lemma MergedComplete(t: seq<string>, seed: seq<string>, w: string)
    requires w != [] && (w in t || w in seed)
    ensures w in Filter(Dedupe(t + seed), NonEmpty)
  {
    var all := t + seed;
    var d := Dedupe(all);
    assert w in all;
    assert w in d by { assert all[IndexOf(all, w)] == w; }
    assert d[IndexOf(d, w)] == w;
  }

  /** With the user's text allowed, its ranked words come first, in ranking
      order, ahead of every seed word; every non-empty word of either source
      is a candidate; without it only seed words are used. */
  lemma CandidatesOrder(goals: Goals, seedTable: map<string, seq<string>>)
    ensures goals.useUserText ==> IsPrefix(Ranked(goals.userText), Candidates(goals, seedTable))
    ensures forall w :: w != [] && (w in FromText(goals) || w in Seed(goals, seedTable)) ==>
              w in Candidates(goals, seedTable)
    ensures !goals.useUserText ==>
              forall i :: 0 <= i < |Candidates(goals, seedTable)| ==> Candidates(goals, seedTable)[i] in Seed(goals, seedTable)
  {
    var t := FromText(goals);
    var seed := Seed(goals, seedTable);
    forall w | w != [] && (w in t || w in seed) ensures w in Candidates(goals, seedTable) {
      MergedComplete(t, seed, w);
    }
    if goals.useUserText {
      RankedFacts(goals.userText);
      MergedPrefix(t, seed);
    } else {
      assert t + seed == seed;
    }
  }

  /** The package from the user's text alone, when the text has enough
      distinct words to fill the week: the first `7 * wordsPerDay` of
      the ranking. */
  lemma TextFillsWeek(goals: Goals, seedTable: map<string, seq<string>>)
    requires goals.useUserText
    requires WeeklyTarget(goals.wordsPerDay) <= |Ranked(goals.userText)|
    ensures BuildPackage(goals, seedTable).week == Ranked(goals.userText)[..WeeklyTarget(goals.wordsPerDay)]
  {
    CandidatesOrder(goals, seedTable);
    var c := Candidates(goals, seedTable);
    var n := WeeklyTarget(goals.wordsPerDay);
    assert c[..n] == c[..|Ranked(goals.userText)|][..n];
  }

  /** `calcPlan(goals)`. */
  function CalcPlan(goals: Goals, seedTable: map<string, seq<string>>): (plan: Plan)
    ensures plan.daily == goals.wordsPerDay && plan.weekly == 7 * plan.daily
    ensures plan.totalWords == plan.daily * goals.horizonDays
    ensures plan.contextId == goals.contextId && plan.horizonDays == goals.horizonDays
    ensures plan.weekPackage == BuildPackage(goals, seedTable).week
    ensures plan.todaySet == BuildPackage(goals, seedTable).today
    ensures IsPrefix(plan.todaySet, plan.weekPackage)
    ensures NoDup(plan.weekPackage) && NoDup(plan.todaySet)
    ensures |plan.weekPackage| <= Max(1, plan.weekly)
    ensures plan.daily >= 0 ==> |plan.todaySet| <= plan.daily
  {
    var daily := goals.wordsPerDay;
    var pkg := BuildPackage(goals, seedTable);
    PrefixNoDup(pkg.today, pkg.week);
    Plan(daily, daily * 7, daily * goals.horizonDays, goals.contextId, goals.horizonDays,
         pkg.today, pkg.week)
  }
}
