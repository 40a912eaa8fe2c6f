/** Plan building on the placement screen (src/features/placement/PlacementStep.tsx):
    the recommended pace, the fallback question banks, the user's own word
    list, and the merge of test words and user words into a plan. */
module Placement {
  import opened Seqs
  import opened Numbers
  import opened Strings
  import opened Shuffling

  datatype Level = A2 | B1 | B2

  datatype Recommendation = Recommendation(perDay: int, perWeek: int, total: int)

  function LevelBase(level: Level): int
  {
    match level
    case A2 => 8
    case B1 => 12
    case B2 => 16
  }

  function HorizonFactor(horizon: int): real
  {
    if horizon == 30 then 1.2 else if horizon == 60 then 1.0 else 0.85
  }

  /** `Math.max(5, Math.round(base * factor))`: the pace before comfort mode. */
  function BasePace(level: Level, horizon: int): (n: int)
    ensures n >= 5
  {
    Max(5, Round(LevelBase(level) as real * HorizonFactor(horizon)))
  }

  /** `computeRecommendation`: at least five words a day, the base pace
      capped at eight in comfort mode; a week is seven days and the total
      covers the horizon. */
  function ComputeRecommendation(level: Level, horizon: int, comfort: bool): (r: Recommendation)
    ensures r.perDay >= 5
    ensures comfort ==> r.perDay <= 8
    ensures !comfort ==> r.perDay == BasePace(level, horizon)
    ensures comfort ==> r.perDay == Min(8, BasePace(level, horizon))
    ensures r.perWeek == 7 * r.perDay && r.total == r.perDay * horizon
  {
    var perDay := BasePace(level, horizon);
    var perDay' := if comfort then Max(5, Min(8, perDay)) else perDay;
    Recommendation(perDay', perDay' * 7, perDay' * horizon)
  }

  /** The pace for each level and offered horizon, outside comfort mode. */
  lemma RecommendationTable()
    ensures ComputeRecommendation(A2, 30, false).perDay == 10
    ensures ComputeRecommendation(A2, 60, false).perDay == 8
    ensures ComputeRecommendation(A2, 90, false).perDay == 7
    ensures ComputeRecommendation(B1, 30, false).perDay == 14
    ensures ComputeRecommendation(B1, 60, false).perDay == 12
    ensures ComputeRecommendation(B1, 90, false).perDay == 10
    ensures ComputeRecommendation(B2, 30, false).perDay == 19
    ensures ComputeRecommendation(B2, 60, false).perDay == 16
    ensures ComputeRecommendation(B2, 90, false).perDay == 14
  {
    assert Round(8.0 * 1.2) == 10 && Round(8.0 * 0.85) == 7;
    assert Round(12.0 * 1.2) == 14 && Round(12.0 * 0.85) == 10;
    assert Round(16.0 * 1.2) == 19 && Round(16.0 * 0.85) == 14;
  }

  /** Comfort mode caps the ordinary pace at eight words a day. */
  lemma ComfortCaps(level: Level, horizon: int)
    ensures ComputeRecommendation(level, horizon, true).perDay ==
            Min(8, ComputeRecommendation(level, horizon, false).perDay)
  {
  }

  /** Over the offered horizons (30, 60 and 90 days) a longer horizon never
      gets a faster pace. */
  lemma HorizonMonotone(level: Level, h1: int, h2: int, comfort: bool)
    requires h1 <= h2
    requires h1 == 30 || h1 == 60 || h1 == 90
    requires h2 == 30 || h2 == 60 || h2 == 90
    ensures ComputeRecommendation(level, h2, comfort).perDay <= ComputeRecommendation(level, h1, comfort).perDay
  {
    BasePaceShorter(level, h1, h2);
  }

  lemma BasePaceShorter(level: Level, h1: int, h2: int)
    requires h1 <= h2
    requires h1 == 30 || h1 == 60 || h1 == 90
    requires h2 == 30 || h2 == 60 || h2 == 90
    ensures BasePace(level, h2) <= BasePace(level, h1)
  {
    assert HorizonFactor(h2) <= HorizonFactor(h1);
    var b := LevelBase(level) as real;
    assert b * HorizonFactor(h2) <= b * HorizonFactor(h1);
    RoundMonotone(b * HorizonFactor(h2), b * HorizonFactor(h1));
  }

  /** A higher level never gets a slower pace. */
  lemma RecommendationMonotone(l1: Level, l2: Level, horizon: int, comfort: bool)
    requires LevelBase(l1) <= LevelBase(l2)
    ensures ComputeRecommendation(l1, horizon, comfort).perDay <= ComputeRecommendation(l2, horizon, comfort).perDay
  {
    RoundMonotone(LevelBase(l1) as real * HorizonFactor(horizon), LevelBase(l2) as real * HorizonFactor(horizon));
  }

  /** A fallback question. */
  datatype QuizQuestion = QuizQuestion(id: string, prompt: string, answer: string, translation: string)

  /** `bankFor`: the context's prompt/answer pairs with ids `context-i`. */
  function BankFor(context: string, pairs: seq<(string, string)>): (bank: seq<QuizQuestion>)
    ensures |bank| == |pairs|
    ensures forall i :: 0 <= i < |pairs| ==>
              bank[i] == QuizQuestion(context + "-" + NatToString(i), pairs[i].0, pairs[i].1, pairs[i].1)
  {
    seq(|pairs|, i requires 0 <= i < |pairs| =>
      QuizQuestion(context + "-" + NatToString(i), pairs[i].0, pairs[i].1, pairs[i].1))
  }

  /** Ids within a bank are distinct. */
  lemma BankIdsDistinct(context: string, pairs: seq<(string, string)>, i: int, j: int)
    requires 0 <= i < j < |pairs|
    ensures BankFor(context, pairs)[i].id != BankFor(context, pairs)[j].id
  {
    var bank := BankFor(context, pairs);
    if bank[i].id == bank[j].id {
      assert context + "-" + NatToString(i) == context + "-" + NatToString(j);
      assert NatToString(i) == (context + "-" + NatToString(i))[|context| + 1..];
      assert NatToString(j) == (context + "-" + NatToString(j))[|context| + 1..];
      NatToStringInjective(i, j);
    }
  }

  /** `loadQ`: up to fifteen questions of the bank in a random order. */
  method LoadQuestions(bank: seq<QuizQuestion>) returns (picked: seq<QuizQuestion>)
    ensures |picked| == Min(15, |bank|)
    ensures multiset(picked) <= multiset(bank)
  {
    var shuffled := Shuffle(bank);
    picked := SliceTo(shuffled, 15);
    PrefixMultiset(picked, shuffled);
  }

  /** A word of a plan. */
  datatype PlanWord = PlanWord(id: string, term: string, translation: string, source: string)

  /** The characters before which (after optional white space) and a
      following white space the user list splits a line. */
  predicate IsSepChar(c: char)
  {
    c == '-' || c == '\U{2014}' || c == ':' || c == ';' || c == '|'
  }

  /** Length of the run of white space starting at `p`. */
  function SpaceRun(s: string, p: nat): (n: nat)
    requires p <= |s|
    ensures p + n <= |s|
    ensures forall k :: p <= k < p + n ==> IsSpace(s[k])
    ensures p + n == |s| || !IsSpace(s[p + n])
    decreases |s| - p
  {
    if p < |s| && IsSpace(s[p]) then 1 + SpaceRun(s, p + 1) else 0
  }

  /** Where a match of `\s*[-—:;|]\s+|\t` starting at `p` ends, if one
      starts there; the first alternative is tried first and both runs of
      white space are taken whole. */
  function SepEnd(s: string, p: nat): (e: Option<nat>)
    requires p < |s|
    ensures e.Some? ==> p < e.value <= |s|
    ensures s[p] == '\t' ==> e.Some?
    ensures IsSepChar(s[p]) && p + 1 < |s| && IsSpace(s[p + 1]) ==> e.Some?
  {
    var q := p + SpaceRun(s, p);
    if q + 1 < |s| && IsSepChar(s[q]) && IsSpace(s[q + 1]) then Some(q + 1 + SpaceRun(s, q + 1))
    else if s[p] == '\t' then Some(p + 1)
    else None
  }

  /** The leftmost separator match at or after `p`. */
  function FirstSep(s: string, p: nat): (m: Option<(nat, nat)>)
    requires p <= |s|
    ensures m.Some? ==> p <= m.value.0 < m.value.1 <= |s| && SepEnd(s, m.value.0) == Some(m.value.1)
    ensures m.Some? ==> forall k :: p <= k < m.value.0 ==> SepEnd(s, k).None?
    ensures m.None? ==> forall k :: p <= k < |s| ==> SepEnd(s, k).None?
    decreases |s| - p
  {
    if p == |s| then None
    else if SepEnd(s, p).Some? then Some((p, SepEnd(s, p).value))
    else FirstSep(s, p + 1)
  }

  /** `line.split(/\s*[-—:;|]\s+|\t/)`: the first part is the line up to
      the first match, and no match starts inside it. */
  function SplitSep(s: string): (parts: seq<string>)
    ensures |parts| >= 1
    ensures IsPrefix(parts[0], s)
    ensures forall k :: 0 <= k < |parts[0]| ==> SepEnd(s, k).None?
    ensures |parts| == 1 <==> FirstSep(s, 0).None?
    ensures |parts| == 1 ==> parts[0] == s
    decreases |s|
  {
    match FirstSep(s, 0)
    case None => [s]
    case Some((a, b)) => [s[..a]] + SplitSep(s[b..])
  }

  /** A line without tabs and separator characters is a term alone. */
  lemma NoSeparatorWholeLine(s: string)
    requires forall k :: 0 <= k < |s| ==> s[k] != '\t' && !IsSepChar(s[k])
    ensures SplitSep(s) == [s]
  {
    forall k | 0 <= k < |s| ensures SepEnd(s, k).None? {
      var q := k + SpaceRun(s, k);
      assert q < |s| ==> !IsSepChar(s[q]);
    }
  }

  /** The first part stops before any tab, and before any separator
      character that white space follows. */
  lemma FirstPartClean(s: string, k: nat)
    requires k < |SplitSep(s)[0]|
    ensures s[k] != '\t'
    ensures IsSepChar(s[k]) && k + 1 < |s| ==> !IsSpace(s[k + 1])
  {
    assert SepEnd(s, k).None?;
    if IsSepChar(s[k]) {
      assert SpaceRun(s, k) == 0;
    }
  }

  /** `raw.split(/\r?\n/).map(trim).filter(Boolean)`. A `\r` before the
      line break is white space, which the trim removes anyway, so the split
      is on `\n`. */
  function Lines(raw: string): (lines: seq<string>)
    ensures forall i :: 0 <= i < |lines| ==> lines[i] != [] && Trim(lines[i]) == lines[i]
  {
    var pieces := Split(raw, '\n');
    var trimmed := seq(|pieces|, i requires 0 <= i < |pieces| => Trim(pieces[i]));
    assert forall i :: 0 <= i < |trimmed| ==> Trim(trimmed[i]) == trimmed[i] by {
      forall i | 0 <= i < |trimmed| ensures Trim(trimmed[i]) == trimmed[i] {
        TrimIdempotent(pieces[i]);
      }
    }
    Filter(trimmed, NonBlank)
  }

  predicate NonBlank(s: string) { s != [] }

  lemma TrimIdempotent(s: string)
    ensures Trim(Trim(s)) == Trim(s)
  {
    var t := Trim(s);
    if t != [] {
      assert TrimStart(t) == t;
      assert TrimEnd(t) == t;
    }
  }

  /** The word a line gives: the first part as term, the other parts
      joined by spaces as translation, and an id from the lower-cased term
      and the line's position; no word for an empty term. */
  function LineWord(line: string, i: nat): (w: Option<PlanWord>)
    ensures w.Some? ==> w.value.term != [] && w.value.source == "userText"
    ensures w.Some? ==> w.value.id == Lower(w.value.term) + "-" + NatToString(i)
  {
    var parts := SplitSep(line);
    var term := Trim(parts[0]);
    var tr := Trim(Join(parts[1..], " "));
    if term == [] then None
    else Some(PlanWord(Lower(term) + "-" + NatToString(i), term, tr, "userText"))
  }

  /** The term is the first part, trimmed, and the translation the other
      parts joined by spaces, trimmed; a line whose first part is blank
      gives no word. */
  lemma LineWordRule(line: string, i: nat)
    ensures var parts := SplitSep(line);
            && (LineWord(line, i).None? <==> Trim(parts[0]) == [])
            && (LineWord(line, i).Some? ==>
                  LineWord(line, i).value.term == Trim(parts[0])
                  && LineWord(line, i).value.translation == Trim(Join(parts[1..], " ")))
  {
  }

  /** What each line gives, by position. */
  function LineWords(lines: seq<string>): (opts: seq<Option<PlanWord>>)
    ensures |opts| == |lines|
    ensures forall i :: 0 <= i < |lines| ==> opts[i] == LineWord(lines[i], i)
  {
    seq(|lines|, i requires 0 <= i < |lines| => LineWord(lines[i], i))
  }

  /** The words among the first `n` results, in order. */
  function Present(opts: seq<Option<PlanWord>>, n: nat): (ws: seq<PlanWord>)
    requires n <= |opts|
    ensures |ws| <= n
  {
    if n == 0 then []
    else Present(opts, n - 1) + (if opts[n - 1].Some? then [opts[n - 1].value] else [])
  }

  /** The words of the user's list, in line order. */
  function UserWordsOf(raw: string): seq<PlanWord>
  {
    var lines := Lines(raw);
    Present(LineWords(lines), |lines|)
  }

  /** The position each present word comes from: strictly increasing. */
  lemma {:induction false} Origins(opts: seq<Option<PlanWord>>, n: nat) returns (o: seq<nat>)
    requires n <= |opts|
    ensures |o| == |Present(opts, n)|
    ensures forall k :: 0 <= k < |o| ==> o[k] < n && opts[o[k]] == Some(Present(opts, n)[k])
    ensures forall k, m :: 0 <= k < m < |o| ==> o[k] < o[m]
  {
    if n == 0 {
      o := [];
    } else {
      var o' := Origins(opts, n - 1);
      var ws := Present(opts, n - 1);
      var p := Present(opts, n);
      if opts[n - 1].None? {
        assert p == ws;
        o := o';
      } else {
        assert p == ws + [opts[n - 1].value];
        o := o' + [n - 1];
        forall k | 0 <= k < |o| ensures o[k] < n && opts[o[k]] == Some(p[k]) {
          if k < |o'| {
            assert o[k] == o'[k] && p[k] == ws[k];
          }
        }
        forall k, m | 0 <= k < m < |o| ensures o[k] < o[m] {
          assert o[k] == o'[k];
        }
      }
    }
  }

  /** Every word carries the id `lower(term)-position`. */
  ghost predicate TaggedIds(opts: seq<Option<PlanWord>>)
  {
    forall i :: 0 <= i < |opts| && opts[i].Some? ==>
      opts[i].value.id == Lower(opts[i].value.term) + "-" + NatToString(i)
  }

  /** Ids tagged with different positions differ. */
  lemma TaggedIdsDiffer(a: PlanWord, i: nat, b: PlanWord, j: nat)
    requires a.id == Lower(a.term) + "-" + NatToString(i)
    requires b.id == Lower(b.term) + "-" + NatToString(j)
    requires i != j
    ensures a.id != b.id
  {
    if a.id == b.id {
      assert '-' !in NatToString(i) && '-' !in NatToString(j);
      SuffixSeparatedEq(Lower(a.term), NatToString(i), Lower(b.term), NatToString(j), '-');
      NatToStringInjective(i, j);
    }
  }

  /** With position-tagged ids, the present words all have different ids. */
  lemma PresentIdsDistinct(opts: seq<Option<PlanWord>>, n: nat)
    requires n <= |opts| && TaggedIds(opts)
    ensures forall k, m :: 0 <= k < m < |Present(opts, n)| ==> Present(opts, n)[k].id != Present(opts, n)[m].id
  {
    var ws := Present(opts, n);
    var o := Origins(opts, n);
    forall k, m | 0 <= k < m < |ws| ensures ws[k].id != ws[m].id {
      TaggedIdsDiffer(ws[k], o[k], ws[m], o[m]);
    }
  }

  lemma LineWordsTagged(lines: seq<string>)
    ensures TaggedIds(LineWords(lines))
  {
  }

  /** The user's words have non-empty terms, come from "userText", and
      have pairwise different ids. */
  lemma UserWordsFacts(raw: string)
    ensures var ws := UserWordsOf(raw);
            && (forall k :: 0 <= k < |ws| ==> ws[k].term != [] && ws[k].source == "userText")
            && (forall k, m :: 0 <= k < m < |ws| ==> ws[k].id != ws[m].id)
  {
    var lines := Lines(raw);
    var opts := LineWords(lines);
    var o := Origins(opts, |lines|);
    LineWordsTagged(lines);
    PresentIdsDistinct(opts, |lines|);
    forall k | 0 <= k < |o| ensures Present(opts, |lines|)[k].term != [] {
      assert opts[o[k]] == LineWord(lines[o[k]], o[k]);
    }
  }

  /** `extractUserWords`: the lines, what each gives, and the words kept. */
  method ExtractUserWords(raw: string) returns (out: seq<PlanWord>)
    ensures out == UserWordsOf(raw)
  {
    var lines := Lines(raw);
    var opts := LineWords(lines);
    LineWordsTagged(lines);
    out := CollectNew(opts);
  }

  /** The `forEach` of `extractUserWords` over what the lines give: a word
      is kept when its id was not seen. Because the id carries the line's
      position, the check never fires: the proof shows each id is new. */
  method CollectNew(opts: seq<Option<PlanWord>>) returns (out: seq<PlanWord>)
    requires TaggedIds(opts)
    ensures out == Present(opts, |opts|)
  {
    out := [];
    var seen: set<string> := {};
    var i := 0;
    while i < |opts|
      invariant 0 <= i <= |opts|
      invariant out == Present(opts, i)
      invariant forall x :: x in seen <==> exists k :: 0 <= k < |out| && out[k].id == x
    {
      if opts[i].Some? {
        var w := opts[i].value;
        PresentIdsDistinct(opts, i + 1);
        assert Present(opts, i + 1) == out + [w];
        assert forall k :: 0 <= k < |out| ==> Present(opts, i + 1)[k] == out[k];
        assert forall k :: 0 <= k < |out| ==> out[k].id != w.id by {
          assert Present(opts, i + 1)[|out|] == w;
        }
        if w.id !in seen {
          seen := seen + {w.id};
          out := out + [w];
          assert out[|out| - 1].id == w.id;
        }
      } else {
        assert Present(opts, i + 1) == out;
      }
      i := i + 1;
    }
  }

  /** The key the merge de-duplicates on: lower-cased term and translation. */
  function MergeKey(w: PlanWord): string
  {
    Lower(w.term) + "|" + Lower(w.translation)
  }

  /** The two `forEach(add)` calls of `buildPlanCombined`: test words, then
      user words, each kept only when its key is new. */
  method MergeWords(fromTest: seq<PlanWord>, fromUser: seq<PlanWord>) returns (unique: seq<PlanWord>)
    ensures unique == DedupeBy(fromTest + fromUser, MergeKey)
  {
    var seen: set<string>;
    assert SeenKeys({}, [], MergeKey);
    unique, seen := AddAllNew([], {}, fromTest, MergeKey, []);
    assert [] + fromTest == fromTest;
    unique, seen := AddAllNew(unique, seen, fromUser, MergeKey, fromTest);
  }

  /** The merged pool: no two words share a key, every word comes from the
      inputs, every input key is represented, and test words come first. */
  lemma MergedPool(fromTest: seq<PlanWord>, fromUser: seq<PlanWord>)
    ensures var u := DedupeBy(fromTest + fromUser, MergeKey);
      && (forall i, j :: 0 <= i < j < |u| ==> MergeKey(u[i]) != MergeKey(u[j]))
      && (forall i :: 0 <= i < |u| ==> u[i] in fromTest || u[i] in fromUser)
      && (forall i :: 0 <= i < |fromTest + fromUser| ==>
            MergeKey((fromTest + fromUser)[i]) in KeysOf(u, MergeKey))
      && IsPrefix(DedupeBy(fromTest, MergeKey), u)
  {
    var u := DedupeBy(fromTest + fromUser, MergeKey);
    DedupeByFacts(fromTest + fromUser, MergeKey);
    assert forall i :: 0 <= i < |u| ==> KeysOf(u, MergeKey)[i] == MergeKey(u[i]);
    DedupeByPrefix(fromTest, fromUser, MergeKey);
  }

  /** A detail of the placement result: the question's id, prompt and answer. */
  datatype QuizDetail = QuizDetail(id: Option<string>, prompt: string, answer: string)

  datatype QuizResult = QuizResult(level: Level, details: seq<QuizDetail>)

  /** The test words: one per detail, with `prompt-i` when the id is missing. */
  function FromTest(result: Option<QuizResult>): (ws: seq<PlanWord>)
    ensures result.None? ==> ws == []
    ensures result.Some? ==> |ws| == |result.value.details|
    ensures result.Some? ==> forall i :: 0 <= i < |ws| ==>
              var d := result.value.details[i];
              && ws[i].term == d.prompt && ws[i].translation == d.answer && ws[i].source == "placement"
              && ws[i].id == (if d.id.Some? then d.id.value else d.prompt + "-" + NatToString(i))
  {
    if result.None? then []
    else
      var ds := result.value.details;
      seq(|ds|, i requires 0 <= i < |ds| =>
        PlanWord(if ds[i].id.Some? then ds[i].id.value else ds[i].prompt + "-" + NatToString(i),
                 ds[i].prompt, ds[i].answer, "placement"))
  }

  datatype Config = Config(context: string, style: string, horizon: int, pair: string,
                           planName: Option<string>, comfortMode: bool)

  /** The plan the placement screen stores. */
  datatype PlacementPlan = PlacementPlan(createdAt: int, context: string, style: string, pair: string,
                                         horizon: int, name: Option<string>, recommendation: Recommendation,
                                         todaySet: seq<PlanWord>, pool: seq<PlanWord>, comfortMode: bool)

  /** The plan `buildPlanCombined` forms: none when there are neither test
      nor user words; otherwise the merged pool, its first ten words as
      today's set, and the recommendation for the tested level (B1 without
      a result). */
  function CombinedPlan(result: Option<QuizResult>, userText: string, config: Config, now: int): Option<PlacementPlan>
  {
    var fromTest := FromTest(result);
    var fromUser := UserWordsOf(userText);
    if fromTest == [] && fromUser == [] then None
    else
      var unique := DedupeBy(fromTest + fromUser, MergeKey);
      var rec := ComputeRecommendation(if result.Some? then result.value.level else B1,
                                       config.horizon, config.comfortMode);
      Some(PlacementPlan(now, config.context, config.style, config.pair, config.horizon,
                         config.planName, rec, SliceTo(unique, Min(10, |unique|)), unique, config.comfortMode))
  }

  /** A plan is formed exactly when some word is available; its pool then
      is non-empty and free of repeated keys, every test detail and user
      line is represented, and today's set is the first
      `min(10, |pool|)` words of the pool. */
  lemma CombinedPlanFacts(result: Option<QuizResult>, userText: string, config: Config, now: int)
    ensures var fromTest := FromTest(result);
            var fromUser := UserWordsOf(userText);
            var p := CombinedPlan(result, userText, config, now);
            && (p.None? <==> fromTest == [] && fromUser == [])
            && (p.Some? ==>
                  && p.value.pool != []
                  && (forall i, j :: 0 <= i < j < |p.value.pool| ==>
                        MergeKey(p.value.pool[i]) != MergeKey(p.value.pool[j]))
                  && (forall i :: 0 <= i < |fromTest + fromUser| ==>
                        MergeKey((fromTest + fromUser)[i]) in KeysOf(p.value.pool, MergeKey))
                  && |p.value.todaySet| == Min(10, |p.value.pool|)
                  && IsPrefix(p.value.todaySet, p.value.pool))
  {
    var fromTest := FromTest(result);
    var fromUser := UserWordsOf(userText);
    MergedPool(fromTest, fromUser);
  }

  /** The plan slot of local storage. */
  class PlanSlot {
    var plan: Option<PlacementPlan>

    constructor(initial: Option<PlacementPlan>)
      ensures plan == initial
    {
      plan := initial;
    }

    /** `buildPlanCombined`: returns the plan it forms and stores it; with
        nothing to form, the slot is left alone. */
    method BuildPlanCombined(result: Option<QuizResult>, userText: string, config: Config, now: int)
      returns (p: Option<PlacementPlan>)
      modifies this
      ensures p == CombinedPlan(result, userText, config, now)
      ensures plan == if p.Some? then p else old(plan)
    {
      var fromTest := FromTest(result);
      var fromUser := ExtractUserWords(userText);
      if |fromTest| == 0 && |fromUser| == 0 {
        return None;
      }
      var unique := MergeWords(fromTest, fromUser);
      var rec := ComputeRecommendation(if result.Some? then result.value.level else B1,
                                       config.horizon, config.comfortMode);
      var todaySet := SliceTo(unique, Min(10, |unique|));
      var newPlan := PlacementPlan(now, config.context, config.style, config.pair, config.horizon,
                                   config.planName, rec, todaySet, unique, config.comfortMode);
      plan := Some(newPlan);
      p := Some(newPlan);
    }
  }
}
