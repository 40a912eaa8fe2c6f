# Vocabu MVP: a verified model of the learning core

Vocabu is a browser app for learning English vocabulary (in Russian). A
learner picks a goal, context and horizon. The app builds a plan of words
for the week and for today. It then drills those words in a short exercise
session and schedules them in a spaced-repetition review deck. This
project models the logic behind those screens as Dafny datatypes,
functions, classes and methods, and proves what that logic guarantees.

The review deck (`src/features/srs/SRSDeckAdapter.tsx`) is the centre of
the model:

- `SrsCard` models the card update rule, a reduced SM-2 that moves ease,
  repetitions, interval and due day.
- `SrsProgress` models the daily progress record. It rolls over lazily to
  a new day and counts each word at most once per day.
- `SrsDeck` models the word pool, seeding of missing cards, the queue of
  due words and the ten-card session. It also models the import of the
  day's exercise results and `rate`.

Around the deck sit the other modules:

- `Exercises` models the exercise session: task list, option and hint
  helpers, the learn log it writes, and the result message.
- `Placement` and `PlacementQuiz` model the placement screen and its quiz:
  the recommended pace, the user's own word list, the deduplicating merge
  into a plan, the question list and weighted scoring.
- `PlanPackage`, `TextWords` and `Recommend` model the plan library: the
  weekly package, frequency ranking of a text, and the clamped words-per-day
  recommendation.
- `Pick` models random selection of a context's entries and a four-way
  question.
- `VocabPage` models the vocabulary page: the CSV reader, the choice of
  catalog mode by word target, and truncation of the loaded rows.
- `ContentPage` models the reading page: text normalisation, gap-fill and
  multiple-choice builders, the found-terms count, answer checking, and the
  page state.

Shared helpers live in `Seqs` (prefix, deduplication, filtering,
counting), `Numbers` (rounding, clamps), `Strings` (JavaScript's
`toLowerCase`, `trim`, `split`, `join`, number printing, the masked hint)
and `Shuffling` (Fisher-Yates).

Modelling conventions:

- Calendar days are integers, and `addDays` is addition. The source
  compares `YYYY-MM-DD` strings with `<=`, which orders days the same way.
- Ease, factors and ratios are exact reals. `Math.round(x)` is
  `floor(x + 0.5)`.
- A JavaScript number that can be `NaN` is `Number = NaN | Num(real)`.
- Stored records (progress, card map, learn log, plan) are class fields.
  A missing or unreadable record is `None`.
- Every random shuffle is one Fisher-Yates method whose index choice is
  nondeterministic. What it is proved to return (a permutation) holds for
  every outcome of `Math.random`.
- Tables the code imports but that are not shown are parameters:
  `VOCAB`, `HEADWORD_SEED` and `RECO_BASE_BY_DAYS`.

Behaviour of the code worth knowing when reading the model:

- Good leaves the ease factor unchanged, so three Good ratings of a new
  card give intervals of 1, 6 and 15 days (`SrsCard.ThreeGoods`).
- A word that has no card state counts as due (`SrsDeck.IsDue`).
- An MCQ item whose correct translation is empty counts as answered right
  when the learner chose nothing, because a missing answer reads as `''`
  (`ContentPage.McqAnswers`).
- The review deck rebuilds its session after every rating, so it never
  finishes (see Findings).

## Model

| member | source | states |
|---|---|---|
| SrsCard.RateSM2 | src/features/srs/SRSDeckAdapter.tsx:170-191 | after any rating the ease is at least 1.3, and the due day is today plus the new interval |
| SrsCard.IntervalRule | src/features/srs/SRSDeckAdapter.tsx:175-183 | Again resets to 0 repetitions and a 1-day interval; a pass gives 1 day after 0 repetitions, 6 after one, otherwise round(old interval × the ease from BEFORE this rating), and counts one more repetition |
| SrsCard.EaseRule | src/features/srs/SRSDeckAdapter.tsx:185-187 | the new ease is max(1.3, old ease + step), with step +0.1 for Easy, 0 for Good, −0.14 for Hard and −0.32 for Again (Again is graded as 2) |
| SrsCard.FreshReachable | src/features/srs/SRSDeckAdapter.tsx:277 | the state a word is seeded with (ease 2.5, 0 repetitions, interval 0, due today) is one of the reachable states |
| SrsCard.RatePreservesReachable | src/features/srs/SRSDeckAdapter.tsx:170-191 | rating a reachable card keeps it reachable and schedules it at least one day ahead; a pass after two or more repetitions grows the interval by at least 2 days |
| SrsCard.EaseFloorKept | src/features/srs/SRSDeckAdapter.tsx:185-187 | after any non-empty history of ratings the ease is at least 1.3 |
| SrsCard.RateAllReachable | src/features/srs/SRSDeckAdapter.tsx:170-191 | every review history from a reachable card ends in a reachable card |
| SrsCard.ThreeGoods | src/features/srs/SRSDeckAdapter.tsx:170-191 | three Good ratings of a new card, each on its due day, give intervals 1, 6 and 15 days and leave the ease at 2.5 |
| SrsCard.AgainAtFloor | src/features/srs/SRSDeckAdapter.tsx:185-187 | Again at ease 1.3 keeps the ease at exactly 1.3 |
| SrsProgress.CurrentProgress | src/features/srs/SRSDeckAdapter.tsx:98-124 | the record is always dated today; a record from today is returned unchanged; a missing, unreadable or old record is replaced by a fresh one (done 0, target 0, no ids) |
| SrsProgress.CurrentProgressStable | src/features/srs/SRSDeckAdapter.tsx:98-124 | reading the progress again on the same day gives the same record |
| SrsProgress.TargetValue | src/features/srs/SRSDeckAdapter.tsx:127-130 | the stored target is a whole number ≥ 0: floor of the input, 0 for negative input below 1 and for NaN |
| SrsProgress.EntryTargetChoice | src/features/srs/SRSDeckAdapter.tsx:253-259 | on entry a recommended per-day of at least 1 sets the target to its floor; with none (NaN or 0), today's set size is the target |
| SrsProgress.CountOnce | src/features/srs/SRSDeckAdapter.tsx:131-135 | an empty id or one already counted leaves the record alone; any other id adds 1 to done and is appended to the ids; date and target never change |
| SrsProgress.FreshConsistent | src/features/srs/SRSDeckAdapter.tsx:104-109 | a fresh record is consistent: done equals the number of ids, and the ids are distinct and non-empty |
| SrsProgress.CountOnceConsistent | src/features/srs/SRSDeckAdapter.tsx:131-135 | counting keeps a record consistent |
| SrsProgress.CountOnceIdempotent | src/features/srs/SRSDeckAdapter.tsx:133 | counting the same id twice equals counting it once |
| SrsProgress.CountAllDistinct | src/features/srs/SRSDeckAdapter.tsx:131-135 | over a day, the ids are exactly the distinct non-empty ids rated, in first-rated order, and done is their number |
| SrsProgress.ProgressStore.GetProgress | src/features/srs/SRSDeckAdapter.tsx:98-124 | returns the current record and writes it back to the slot; consistency of the slot is kept |
| SrsProgress.ProgressStore.SetProgressTarget | src/features/srs/SRSDeckAdapter.tsx:127-130 | the slot holds the current record with only its target replaced |
| SrsProgress.ProgressStore.IncrementProgressOnce | src/features/srs/SRSDeckAdapter.tsx:131-135 | the slot holds the current record counted once for the id |
| SrsDeck.Lowered | src/features/srs/SRSDeckAdapter.tsx:263-265 | each plan entry, a bare word or a record with a term, becomes its lower-cased text, position by position |
| SrsDeck.BuildPool | src/features/srs/SRSDeckAdapter.tsx:262-270 | the pool is non-empty and duplicate-free; with no plan words it is the seven default words; otherwise it holds exactly the lower-cased plan words |
| SrsDeck.PoolFirstSeenOrder | src/features/srs/SRSDeckAdapter.tsx:263-267 | with plan words, the pool lists them in the order of their first occurrence in today's set followed by the week package (the insertion order of the `Set`) |
| SrsDeck.TodayFirst | src/features/srs/SRSDeckAdapter.tsx:263-266 | today's words, deduplicated, are a prefix of the pool |
| SrsDeck.DueToday | src/features/srs/SRSDeckAdapter.tsx:298-302 | the queue holds pool words only; when some pool word is due, it holds exactly the due ones; when none is due, it is the first min(5, pool size) words; a non-empty pool gives a non-empty queue |
| SrsDeck.Session | src/features/srs/SRSDeckAdapter.tsx:304-306 | the session is the first min(10, queue length) words of the queue, all pool words, non-empty for a non-empty pool |
| SrsDeck.QueueInPoolOrder | src/features/srs/SRSDeckAdapter.tsx:298-306 | for a duplicate-free pool, the queue and the session list each word once, in pool order |
| SrsDeck.RatedNotDue | src/features/srs/SRSDeckAdapter.tsx:340-341 | a word just rated is not due today, and the store stays reachable |
| SrsDeck.SeedMissing | src/features/srs/SRSDeckAdapter.tsx:273-281 | existing states are kept unchanged, every pool word gets a state, and a new state is the fresh one; no other key is added |
| SrsDeck.SeedMissingIdempotent | src/features/srs/SRSDeckAdapter.tsx:276-278 | seeding twice equals seeding once |
| SrsDeck.SeedMissingReachable | src/features/srs/SRSDeckAdapter.tsx:276-278 | seeding keeps every stored state reachable |
| SrsDeck.SeededDueOrKept | src/features/srs/SRSDeckAdapter.tsx:276-278 | seeding does not change whether a pool word is due |
| SrsDeck.SeedStore | src/features/srs/SRSDeckAdapter.tsx:276-278 | the seeding loop computes exactly the seeded store |
| SrsDeck.SeedFirst | src/features/srs/SRSDeckAdapter.tsx:362-371 | the "seed new" handler OVERWRITES the first three pool words with fresh states, keeps every other state, and adds no other key |
| SrsDeck.ApplyItemsFacts | src/features/srs/SRSDeckAdapter.tsx:209-227 | applied = due-today + later; at most one application per log entry; nothing applied leaves the store unchanged; only logged pool words change |
| SrsDeck.ApplyItemsReachable | src/features/srs/SRSDeckAdapter.tsx:209-227 | from well-formed states every applied word is rated, none is due again today, and the states stay well formed |
| SrsDeck.ApplyAutoFromLearnLog | src/features/srs/SRSDeckAdapter.tsx:194-237 | the loop computes the log's application; without a log from today the store is unchanged and nothing is applied; the counters add up |
| SrsDeck.Hint | src/features/srs/SRSDeckAdapter.tsx:324-328 | the hint ends with the masked word; a non-empty translation comes first, followed by " • "; a missing or empty one (falsy in JavaScript) gives the bare mask |
| SrsDeck.RatingsWalk | src/features/srs/SRSDeckAdapter.tsx:345-346 | without a rebuild, k ratings of an n-card session move to card k, and the n-th finishes on the last card |
| SrsDeck.StoreEffectNeverFinishes | src/features/srs/SRSDeckAdapter.tsx:311-317 | for a non-empty pool, the effect that runs after each store change resets to card 0 with finished false |
| SrsDeck.SameWordAgain | src/features/srs/SRSDeckAdapter.tsx:298-317 | with a one-word pool, rating the word brings it back as the whole new session |
| SrsDeck.Mount | src/features/srs/SRSDeckAdapter.tsx:261-304 | the pool, the seeded store with today's log applied, the log and notice left after it, and a non-empty first session of pool words |
| SrsDeck.TargetedProgress | src/features/srs/SRSDeckAdapter.tsx:253-259 | a new progress store holding today's record with the daily target set |
| SrsDeck.Deck.constructor | src/features/srs/SRSDeckAdapter.tsx:253-308 | mounting sets the daily target, builds the pool, seeds missing states, and applies today's learn log (the log is removed and a notice shown only when something was applied); the session is built from the resulting store |
| SrsDeck.Deck.Rate | src/features/srs/SRSDeckAdapter.tsx:330-347 | as written, with the store effect: counts and rates the current word and saves the store; the session is then rebuilt from card 0, and finished stays false |
| SrsDeck.Deck.Rebuild | src/features/srs/SRSDeckAdapter.tsx:307-314 | the `[store]` effect after `setStore`: the store is saved, the session rebuilt from the first card, and finished set only for an empty session; the log and notice are kept |
| SrsDeck.Deck.RateIntended | src/features/srs/SRSDeckAdapter.tsx:330-347 | as intended: counts and rates the current word, keeps the session, moves to the next card and finishes after the last |
| Strings.Mask | src/features/srs/SRSDeckAdapter.tsx:143-148 | words of up to two characters are unchanged; longer ones keep their length and both end characters, with bullets in between (the exercise screen's copy at src/features/learn/ExercisesAdapter.tsx:166-171 is identical) |
| Shuffling.Shuffle | src/lib/learn/pick.ts:4-11 | the result is a permutation of the input (same length and multiset), and the input sequence is not changed |
| Exercises.SessionWords | src/features/learn/ExercisesAdapter.tsx:213-218 | the first min(8, size) words of today's set, or the seven default words without one; never empty |
| Exercises.Tasks | src/features/learn/ExercisesAdapter.tsx:220-223 | one task per word in order, the kind cycling flip, mcq, type by position |
| Exercises.Jiggle | src/features/learn/ExercisesAdapter.tsx:159-164 | on the lower-cased word: "undefined" when empty, the last letter doubled when shorter than 3, otherwise the letters at i and i+1 swapped for i = max(1, min(len−2, 2)) and all else unchanged (so a permutation of the same length) |
| Exercises.Padded | src/features/learn/ExercisesAdapter.tsx:374-375 | the "while fewer than 3, push jiggle" loop gives at least three entries, keeping the originals in front |
| Exercises.BuildOptions | src/features/learn/ExercisesAdapter.tsx:373-376 | the options are a shuffle of the padded list without duplicates, and always contain the lower-cased word |
| Exercises.OptionsCanBeTwo | src/features/learn/ExercisesAdapter.tsx:373-376 | the options can fall to two: "aa" with the typo "aaa" |
| Exercises.TypedWordAccepted | src/features/learn/ExercisesAdapter.tsx:454 | any string made of white space, then the word in any letter case, then white space, is accepted (proved from `Strings.TrimPadded`) |
| Exercises.QualityFor | src/features/learn/ExercisesAdapter.tsx:286-318 | a flip logs Hard (3); a right MCQ logs Good (4); a right typed answer logs Easy (5); any wrong answer logs Again (0) |
| Exercises.QualityForDeck | src/features/learn/ExercisesAdapter.tsx:291-317 | in the deck, a wrong answer resets the card's repetitions, and a flip or right answer adds one |
| Exercises.Lookup | src/features/learn/ExercisesAdapter.tsx:190 | a logged grade, or −1 exactly when the word has no entry |
| Exercises.Upsert | src/features/learn/ExercisesAdapter.tsx:189-191 | an existing key keeps its place and a new key is appended; no key is renamed |
| Exercises.UpsertLookup | src/features/learn/ExercisesAdapter.tsx:189-191 | after logging, the word holds the larger of its old and new grades, and every other word keeps its grade |
| Exercises.UpsertDistinct | src/features/learn/ExercisesAdapter.tsx:189-191 | logging keeps the words of the log distinct |
| Exercises.TodayLog | src/features/learn/ExercisesAdapter.tsx:185-188 | the record logged into is always dated today |
| Exercises.LogAllKeepsBest | src/features/learn/ExercisesAdapter.tsx:181-194 | starting from another day's record (or none), the stored grade is the best grade logged today for that word |
| Exercises.LogSlot.LogQuality | src/features/learn/ExercisesAdapter.tsx:181-194 | the slot holds today's record with the word's grade raised to q; the words stay distinct |
| Exercises.ResultText | src/features/learn/ExercisesAdapter.tsx:196-202 | excellent exactly when the ratio is ≥ 0.85; good exactly when it is in [0.6, 0.85); need-work (with the counts) exactly below 0.6; a total of 0 counts as ratio 0 |
| Exercises.Graded | src/features/learn/ExercisesAdapter.tsx:236-239 | the number of graded (non-flip) tasks, at most the number of tasks |
| Exercises.GradedPrefix | src/features/learn/ExercisesAdapter.tsx:220-223 | of the first k tasks, all but every third (starting with the first) can be marked right |
| Exercises.ExcellentUnreachable | src/features/learn/ExercisesAdapter.tsx:196-202 | as written, with flips in the total but never counted correct, no session shows "excellent" |
| Exercises.RatioOne | src/features/learn/ExercisesAdapter.tsx:198-199 | all answers right over a positive total is excellent |
| Exercises.IntendedExcellentReachable | src/features/learn/ExercisesAdapter.tsx:196-202 | over graded tasks only, a session of two or more tasks answered all right is excellent |
| Exercises.Session.constructor | src/features/learn/ExercisesAdapter.tsx:213-227 | the session starts at task 0 with nothing counted, on the session words' tasks |
| Exercises.Session.Answer | src/features/learn/ExercisesAdapter.tsx:232-239 | logs the task's grade, counts a right graded answer, and moves to the next task or finishes after the last |
| Exercises.Session.FinishedNotExcellent | src/features/learn/ExercisesAdapter.tsx:255-262 | a finished session never shows "excellent" |
| Placement.ComputeRecommendation | src/features/placement/PlacementStep.tsx:82-92 | per day is max(5, round(base × factor)), with base 8/12/16 for A2/B1/B2 and factor 1.2/1.0/0.85 for 30/60/other days; comfort mode gives min(8, that pace), so a value in [5, 8]; a week is 7 days and the total covers the horizon |
| Placement.BasePace | src/features/placement/PlacementStep.tsx:87-89 | the pace before comfort mode is at least five |
| Placement.ComfortCaps | src/features/placement/PlacementStep.tsx:89-90 | comfort mode caps the ordinary pace at eight |
| Placement.HorizonMonotone | src/features/placement/PlacementStep.tsx:26-30 | over the offered horizons of 30, 60 and 90 days, a longer horizon never gets a faster pace, with or without comfort mode |
| Placement.RecommendationTable | src/features/placement/PlacementStep.tsx:87-89 | the per-day pace for each level and offered horizon outside comfort mode (10/8/7, 14/12/10, 19/16/14) |
| Placement.RecommendationMonotone | src/features/placement/PlacementStep.tsx:87-90 | a higher level never gets a slower pace |
| Placement.BankFor | src/features/placement/PlacementStep.tsx:172-181 | one question per pair, in order, with id `context-i` and the answer as translation |
| Placement.BankIdsDistinct | src/features/placement/PlacementStep.tsx:174 | ids within a bank are distinct |
| Placement.LoadQuestions | src/features/placement/PlacementStep.tsx:311-316 | min(15, bank size) questions, each drawn from the bank, none more often than in the bank |
| Placement.SplitSep | src/features/placement/PlacementStep.tsx:192 | the separator split: at least one part; the first part is a prefix of the line with no separator match starting inside it; one part exactly when there is no match, and then it is the line |
| Placement.NoSeparatorWholeLine | src/features/placement/PlacementStep.tsx:192 | a line without tabs and separator characters is a single part |
| Placement.FirstPartClean | src/features/placement/PlacementStep.tsx:192-193 | the term never contains a tab, or a separator character followed by white space |
| Placement.Lines | src/features/placement/PlacementStep.tsx:185-188 | every line is non-empty and already trimmed |
| Placement.LineWord | src/features/placement/PlacementStep.tsx:192-199 | a word has a non-empty term, source "userText" and id lower(term)-index |
| Placement.LineWordRule | src/features/placement/PlacementStep.tsx:192-195 | the term is the first part trimmed and the translation the other parts joined by spaces, trimmed; a line with a blank first part gives no word |
| Placement.PresentIdsDistinct | src/features/placement/PlacementStep.tsx:196-198 | with position-tagged ids no two words share an id |
| Placement.UserWordsFacts | src/features/placement/PlacementStep.tsx:184-202 | the user's words have non-empty terms, come from "userText" and have pairwise different ids |
| Placement.ExtractUserWords | src/features/placement/PlacementStep.tsx:184-202 | computes the user's words, one per line with a non-empty term, in line order |
| Placement.CollectNew | src/features/placement/PlacementStep.tsx:189-200 | the `seen` check never drops a word: every present word is kept, in order |
| Placement.MergeWords | src/features/placement/PlacementStep.tsx:345-356 | the two `forEach(add)` passes keep the first word per key (lower-cased term and translation), test words before user words |
| Placement.MergedPool | src/features/placement/PlacementStep.tsx:345-356 | no two pool words share a key; every pool word is an input word; every input key is represented; the deduplicated test words come first |
| Placement.FromTest | src/features/placement/PlacementStep.tsx:332-339 | one word per detail, with the prompt as term, the answer as translation, source "placement", and id `prompt-i` when the detail has none |
| Placement.CombinedPlanFacts | src/features/placement/PlacementStep.tsx:340-375 | a plan is formed exactly when some test or user word exists; its pool is non-empty, key-unique and complete, and today's set is its first min(10, size) words |
| Placement.PlanSlot.BuildPlanCombined | src/features/placement/PlacementStep.tsx:331-377 | returns the combined plan and stores it; with nothing to form it returns none and leaves the slot alone |
| PlacementQuiz.BaseFor | src/features/placement/PlacementQuizAdapter.tsx:65 | a known context's bank, else the law bank; four questions weighing 1 to 3 |
| PlacementQuiz.RepeatBank | src/features/placement/PlacementQuizAdapter.tsx:66-69 | whole shuffled copies of the bank are appended, each question tagged with its position, until there are at least `total` (fewer than total + bank size) |
| PlacementQuiz.Tagged | src/features/placement/PlacementQuizAdapter.tsx:68 | each question of a round gets the id suffix `#position` |
| PlacementQuiz.TagsDiffer | src/features/placement/PlacementQuizAdapter.tsx:68 | tags with different positions make different ids |
| PlacementQuiz.DistinctIdsPermutation | src/features/placement/PlacementQuizAdapter.tsx:70 | the final shuffle keeps ids distinct |
| PlacementQuiz.BuildQuestions | src/features/placement/PlacementQuizAdapter.tsx:64-71 | exactly max(0, total) questions with distinct ids, each a re-tagged question of the context's bank |
| PlacementQuiz.MaxWeighted | src/features/placement/PlacementQuizAdapter.tsx:83-86 | the sum of the weights, between the number of questions and three times it |
| PlacementQuiz.FinalOutcome | src/features/placement/PlacementQuizAdapter.tsx:96-100 | score = round(100 × ratio), ratio 0 for a zero maximum; the confidence lies in [0.55, 0.98] |
| PlacementQuiz.OutcomeInRange | src/features/placement/PlacementQuizAdapter.tsx:96-100 | for a tally within range the score is 0 to 100 and the confidence is 0.72 + 0.2 × ratio, plus 0.06 in comfort mode |
| PlacementQuiz.ScoreMonotone | src/features/placement/PlacementQuizAdapter.tsx:96-97 | a larger tally never lowers the score |
| PlacementQuiz.PerfectPrefix | src/features/placement/PlacementQuizAdapter.tsx:88-90 | answering the first k questions right earns their whole weight |
| PlacementQuiz.EarnedBounds | src/features/placement/PlacementQuizAdapter.tsx:88-90 | any run of answers earns between 0 and the weight of the questions answered |
| PlacementQuiz.Quiz.constructor | src/features/placement/PlacementQuizAdapter.tsx:79-81 | the quiz starts at question 0 with nothing earned, on the built questions |
| PlacementQuiz.Quiz.HandleAnswer | src/features/placement/PlacementQuizAdapter.tsx:88-103 | as written: the tally counts the answer; after the last question the payload uses the tally from before this answer |
| PlacementQuiz.Quiz.HandleAnswerIntended | src/features/placement/PlacementQuizAdapter.tsx:88-103 | as intended: the payload after the last question counts every answer |
| PlacementQuiz.SingleRightAnswerScoresZero | src/features/placement/PlacementQuizAdapter.tsx:90-97 | as written, a one-question quiz answered right reports score 0 |
| PlacementQuiz.PerfectRunAsWritten | src/features/placement/PlacementQuizAdapter.tsx:90-101 | as written, a perfect run of a quiz of total weight below 200 reports less than 100 |
| PlacementQuiz.PerfectRunIntended | src/features/placement/PlacementQuizAdapter.tsx:90-101 | as intended, a perfect run reports 100 |
| PlanPackage.BuildPackage | src/lib/plan/buildPackage.ts:5-24 | the week is a duplicate-free prefix of the candidates of length min(max(1, 7 × per day), candidates); today is a prefix of the week of length min(per day, week); every word is non-empty and comes from the text or the seed |
| PlanPackage.CandidatesOrder | src/lib/plan/buildPackage.ts:9-18 | with the text allowed, its ranked words come first in ranking order; every non-empty word of either source is a candidate; without it only seed words are used |
| PlanPackage.TextFillsWeek | src/lib/plan/buildPackage.ts:6-20 | a text with enough distinct words fills the week with its top-ranked words |
| PlanPackage.CalcPlan | src/lib/plan/calcPlan.ts:4-20 | daily is the per-day count, weekly 7 × daily, total daily × horizon; context and horizon are copied; week and today come from the package, today a prefix of it, both duplicate-free |
| TextWords.TokensFrom | src/lib/text/extractWords.ts:6 | every token is a non-empty run of lower-case Latin or Russian letters, hyphens and apostrophes, of at least the minimum length |
| TextWords.FreqTable | src/lib/text/extractWords.ts:8-9 | the table's keys are exactly the tokens |
| TextWords.CountFrequencies | src/lib/text/extractWords.ts:8-9 | the counting loop gives each token's number of occurrences, with keys in first-seen order |
| TextWords.SortByFreqFacts | src/lib/text/extractWords.ts:10 | the sort orders by non-increasing frequency and keeps the order of equally frequent words |
| TextWords.ExtractWords | src/lib/text/extractWords.ts:4-11 | computes the ranking of the text |
| TextWords.RankedFacts | src/lib/text/extractWords.ts:5-10 | empty text gives none; otherwise every distinct token once, each lower case of length ≥ 2, by non-increasing frequency, ties in first-seen order |
| TextWords.TiesInFirstSeenOrder | src/lib/text/extractWords.ts:8-10 | two equally frequent words come out in the order they first appear in the text |
| Recommend.Apply | src/lib/reco/recommendWordsPerDay.ts:34-35 | the scaled base rounded and clamped to [3, 30], exact when already in range |
| Recommend.ApplyMonotone | src/lib/reco/recommendWordsPerDay.ts:18-39 | for positive style and level factors (every factor the table gives is positive), a larger base never gives a smaller figure |
| Recommend.RecommendWordsPerDay | src/lib/reco/recommendWordsPerDay.ts:12-42 | min, max and suggested all lie in [3, 30], and the range is {min, max} |
| Recommend.NeutralFactors | src/lib/reco/recommendWordsPerDay.ts:18-32 | with a style other than academic or professional and level B1 or none, each figure is the base clamped; an unknown horizon then gives 6 to 10, suggesting 8 |
| Recommend.ProfessionalA2Fallback | src/lib/reco/recommendWordsPerDay.ts:18-39 | a professional A2 learner on an unknown horizon gets 5 to 8, suggesting 6 |
| Recommend.RecommendationOrdered | src/lib/reco/recommendWordsPerDay.ts:34-41 | an ordered base gives min ≤ suggested ≤ max |
| Pick.PickFromContext | src/lib/learn/pick.ts:13-17 | min(n, context size) entries for n ≥ 0, each from the context and none repeated beyond it; a small context is returned whole; an unknown context gives none |
| Pick.Others | src/lib/learn/pick.ts:32 | the pool entries with a different id |
| Pick.MakeMCQ | src/lib/learn/pick.ts:19-40 | a pair naming ↔RU asks for the Russian side of an English prompt, any other pair the reverse; the answer index points at the correct option; 1 + min(3, others) options, each correct or a side of another entry |
| VocabPage.CsvLines | src/pages/Vocab.tsx:34 | the trimmed text gives at least one line |
| VocabPage.ParseRow | src/pages/Vocab.tsx:40-42 | no row exactly when the first field is blank; otherwise three trimmed fields with a non-empty term |
| VocabPage.ParseCSV | src/pages/Vocab.tsx:33-45 | computes the rows of the text |
| VocabPage.CollectRows | src/pages/Vocab.tsx:37-43 | the loop from line 1 keeps the row of each line that gives one, in order |
| VocabPage.SingleLineNoRows | src/pages/Vocab.tsx:34-35 | a text of at most one line after trimming has no rows |
| VocabPage.CsvRowsBounds | src/pages/Vocab.tsx:36-44 | at most one row per line after the header, each the row of such a line |
| VocabPage.HeaderIgnored | src/pages/Vocab.tsx:37 | two texts differing only in the header line give the same rows |
| VocabPage.RowRoundTrip | src/pages/Vocab.tsx:40-42 | a line joined from comma-free trimmed fields reads back as its first three fields; extra fields are ignored |
| VocabPage.TermOnlyRow | src/pages/Vocab.tsx:40-42 | a line with only a term gives empty translation and example |
| VocabPage.NearestMode | src/pages/Vocab.tsx:117-127 | the selection loop computes the nearest mode |
| VocabPage.ScanFacts | src/pages/Vocab.tsx:117-127 | after each tried mode the kept one is numeric and no tried mode is nearer, earlier ones strictly farther; with no numeric target yet it is standard |
| VocabPage.NearestIsClosest | src/pages/Vocab.tsx:106-127 | the chosen mode has the smallest distance, ties going to the mode tried first; with no numeric target it is standard |
| VocabPage.DefaultTies | src/pages/Vocab.tsx:106-127 | with the default targets 100/150/250, 125 words give light, 200 give standard, 150 standard and 400 intense |
| VocabPage.Truncate | src/pages/Vocab.tsx:136 | the rows' prefix of length min(rows, target); shorter lists are kept whole |
| VocabPage.AnyEndsWith | src/pages/Vocab.tsx:155 | true exactly when the path ends with one of the names |
| VocabPage.RecommendedPaths | src/pages/Vocab.tsx:154-156 | the themes, in theme order, whose path ends with a recommended name |
| ContentPage.Collapse | src/pages/Content.tsx:14 | never longer than the input, and a leading white-space character becomes a space; what the result holds is `CollapseFields` |
| ContentPage.CollapseFields | src/pages/Content.tsx:14 | the result is the input's maximal non-white-space runs (`Fields`) joined by single spaces, with one more space at the front or back exactly where the input has white space there |
| ContentPage.CollapseIsCollapsed | src/pages/Content.tsx:14 | the result has no white space but single spaces, and no two spaces in a row |
| ContentPage.CollapseOfCollapsed | src/pages/Content.tsx:14 | collapsing a collapsed string changes nothing |
| ContentPage.NormalizeText | src/pages/Content.tsx:13-15 | the result is collapsed and trimmed |
| ContentPage.NormalizeFields | src/pages/Content.tsx:13-15 | the result is exactly the input's maximal non-white-space runs (`Fields`), in order, joined by single spaces |
| ContentPage.FieldsBlank | src/pages/Content.tsx:13-15 | a text has no fields, and so normalises to the empty string, exactly when it is all white space |
| ContentPage.NormalizeIdempotent | src/pages/Content.tsx:13-15 | normalising twice equals normalising once |
| ContentPage.FirstStop | src/pages/Content.tsx:167 | a found sentence end is a `.`, `!` or `?` followed by white space |
| ContentPage.Sentences | src/pages/Content.tsx:166-172 | the sentence pieces are all non-empty |
| ContentPage.BlanksInIsDedupe | src/pages/Content.tsx:180-188 | the blanks are the sentence's vocabulary tokens, each once, in first-occurrence order |
| ContentPage.ReplacedInFacts | src/pages/Content.tsx:180-188 | one token out per token in; a token becomes the blank exactly at the first occurrence of a vocabulary term |
| ContentPage.BlanksOf | src/pages/Content.tsx:177-188 | the token loop computes the blanks and the replaced tokens |
| ContentPage.RefillWithWords | src/pages/Content.tsx:191-194 | refilling a sentence with its own tokens gives back the lower-cased sentence |
| ContentPage.BuildGapFill | src/pages/Content.tsx:165-200 | computes the gap-fill of the text |
| ContentPage.SelectGaps | src/pages/Content.tsx:176-198 | the loop, stopping at five, keeps the first five sentences that have a blank, in order |
| ContentPage.GapItemOf | src/pages/Content.tsx:177-196 | the item of one sentence, none when it has no blank |
| ContentPage.GapFillFacts | src/pages/Content.tsx:176-197 | at most five items; each has at least one blank; blanks are distinct, non-empty, lower-case vocabulary terms |
| ContentPage.TermBlanks | src/pages/Content.tsx:180-188 | blanks are distinct, non-empty and vocabulary terms |
| ContentPage.BlanksInOrder | src/pages/Content.tsx:180-188 | blanks appear in the order of their first occurrences in the sentence |
| ContentPage.Translations | src/pages/Content.tsx:218 | one translation per row of the first 50 |
| ContentPage.MakeItem | src/pages/Content.tsx:219-232 | the item asks for the row's term; its options hold the correct translation exactly once plus min(3, other translations) distractors, each a translation of the first 50 rows different from the correct one |
| ContentPage.BuildMCQ | src/pages/Content.tsx:203-235 | one item per picked row, in order, each built as above |
| ContentPage.PickedFacts | src/pages/Content.tsx:204-216 | at most six rows, of distinct lower-cased terms, from the first 50, in order of first occurrence |
| ContentPage.FewTermsAllAsked | src/pages/Content.tsx:204-216 | with at most six distinct terms among the first 50 rows, every term is asked |
| ContentPage.CheckAnswers | src/pages/Content.tsx:300-317 | counts the right gap answers (trimmed, case-insensitive), all blanks, and the right MCQ answers (exact) |
| ContentPage.CheckGaps | src/pages/Content.tsx:300-310 | the gap loop counts the right answers over all items and all blanks |
| ContentPage.CheckMcq | src/pages/Content.tsx:311-315 | the MCQ loop counts the questions whose chosen option is exactly the answer |
| ContentPage.CheckRow | src/pages/Content.tsx:305-310 | counts the right answers of one sentence and its blanks |
| ContentPage.HitsBounded | src/pages/Content.tsx:305-310 | a sentence's right answers never exceed its blanks |
| ContentPage.HitsAllOrNone | src/pages/Content.tsx:305-310 | all answers right scores all blanks; none right scores 0 |
| ContentPage.CheckBounded | src/pages/Content.tsx:300-317 | right gap answers ≤ blanks, and right MCQ answers ≤ items |
| ContentPage.GapAllRight | src/pages/Content.tsx:304-311 | typing every blank (up to case and surrounding white space) scores full marks |
| ContentPage.GapNoneRight | src/pages/Content.tsx:308 | with no answers, non-empty blanks score 0 |
| ContentPage.McqAnswers | src/pages/Content.tsx:313-316 | choosing every correct option scores all items; choosing nothing scores exactly the items whose correct translation is empty |
| ContentPage.CollectFound | src/pages/Content.tsx:264-268 | the loop computes the found terms |
| ContentPage.FoundStep | src/pages/Content.tsx:266-268 | one word adds its lower-cased form exactly when it is a vocabulary term not found yet |
| ContentPage.FoundFacts | src/pages/Content.tsx:261-268 | found terms are distinct; each is a lower-cased token of the text and the lower-cased term of some row; every such token is found |
| ContentPage.ContentState.constructor | src/pages/Content.tsx:52-70 | the page starts with no text, no exercises, no answers, no result and no error |
| ContentPage.ContentState.ProcessText | src/pages/Content.tsx:238-286 | text that is empty after normalising clears the text, the count, the exercises and the result (answers stay); rejected text only sets the error; otherwise the exercises are shown |
| ContentPage.ContentState.Show | src/pages/Content.tsx:261-285 | stores the clean text, the number of found terms, the gap-fill over the found terms and the MCQ items; the answers and the result are reset |
| ContentPage.ContentState.Store | src/pages/Content.tsx:270-284 | sets the text, the count, the gap-fill and the MCQ items, clears the error, and resets the answers and the result |
| ContentPage.ContentState.Reject | src/pages/Content.tsx:251-256 | a refused text sets only the error; every other field keeps its value |
| ContentPage.Exercises | src/pages/Content.tsx:259-279 | the found terms are the vocabulary terms among the text's words, the gaps are the gap-fill over them, and the MCQ items satisfy the multiple-choice contract for the vocabulary |
| ContentPage.ContentState.TypeGapAnswer | src/pages/Content.tsx:416-420 | sets one gap answer; nothing else changes |
| ContentPage.ContentState.ChooseMcqAnswer | src/pages/Content.tsx:449-450 | sets one MCQ answer; nothing else changes |
| ContentPage.ContentState.Clear | src/pages/Content.tsx:369-378 | clears the text, the exercises, the count, the error and the result; the answers are kept |
| ContentPage.ContentState.CheckAll | src/pages/Content.tsx:300-318 | stores the numbers of right gap and MCQ answers; nothing else changes |
| ContentPage.FreshGapsScoreZero | src/pages/Content.tsx:282-285 | right after new exercises are shown, checking scores no gap answer right |

## Left out

- React rendering, hooks and effect scheduling are not modelled. The one
  effect that changes behaviour, the deck's rebuild after a store change, is
  folded into `SrsDeck.Deck.Rate`.
- `localStorage` and JSON are plain state. A record that fails to parse
  counts as absent. The defaults applied to a stored card with missing
  fields (`card.ef ?? 2.5` and the like) are left out: every stored card
  has all four fields.
- `todayISO`, `Date` and time zones are left out: a day is an integer
  parameter.
- `Math.random` is left out. Every shuffle, including the random-comparator
  sorts of the exercise and content pages, is `Shuffling.Shuffle`, so only
  "a permutation" is proved about them.
- `makeTypos` is left out: its typos are a parameter of
  `Exercises.BuildOptions`.
- `highlightVocab` and the HTML it builds are left out.
- Moderation (`isTextAllowed`) fetches a block list over the network. Its
  answer is the `allowed` parameter of `ContentPage.ContentState.ProcessText`.
- `fetchText`, catalog loading, `FileReader` file input, navigation events
  and the 800 ms plan polling are I/O and are left out.
- `lib/vocabuState.ts`, `App.tsx`, `Onboarding.tsx`, `ResultsPanel.tsx` and
  `ErrorBoundary.tsx` are not part of this model. Nor are the static banks
  and `config/vocab.ts`; the quiz's four-question banks are an exception
  and are included as data.
- The tables `RECO_BASE_BY_DAYS`, `HEADWORD_SEED` and `VOCAB` are
  parameters, because their contents are not shown.
- Lower-casing covers A–Z, А–Я and Ё only. White space (`\s`, `trim`)
  is the ECMAScript set listed in `Strings.IsSpace`.
- String lengths count characters (Unicode scalar values), while JavaScript's
  `.length` counts UTF-16 code units. The two agree for Latin and Cyrillic
  text; they differ only for characters outside the Basic Multilingual
  Plane, which affects `Strings.Mask`, `Exercises.Jiggle` and the two-letter
  minimum of `TextWords.TokensFrom`.
- The regular expressions are hand-written scanners that match the same
  strings: the token pattern, the separator split of the user list, the
  sentence split and the `\r?\n` split. A lone `\r` in the middle of a CSV
  line is kept, as the source keeps it.
- The gap answers are keyed by the pair (sentence, blank) rather than the
  string `idx:j`. The two are in one-to-one correspondence.
- `totalGap` in `checkAll` is computed but never stored. It is returned by
  `ContentPage.CheckAnswers` and stated in `ContentPage.CheckBounded`.
- `buildMCQ`'s unused `text` argument is dropped.
- `PlanPackage.Goals.wordsPerDay` is an integer, while the source's field is a
  JavaScript number. The model assumes a whole number, which is what the
  onboarding screen stores (it rounds up with `Math.ceil`). A fractional
  value would be truncated by `slice` and would make the weekly target
  fractional; this is not modelled.
- The "seed new" button (`SrsDeck.SeedFirst`) appears only when the session
  is empty. `SrsDeck.Session` proves that a non-empty pool never gives an
  empty session, so the button cannot be reached. It is modelled as a
  function and not as a `Deck` method.
- `PlacementQuiz.Quiz.constructor` requires at least one question. The
  screen reads `questions[step].text` while rendering, so an empty quiz
  breaks before any answer.
- The learn log's `items` object is a sequence of (word, grade) pairs in
  insertion order, which is the order `Object.entries` returns for
  non-numeric keys.

## Findings

| source | as written | input that shows it | evidently intended | confidence | as-written member | corrected member |
|---|---|---|---|---|---|---|
| src/features/srs/SRSDeckAdapter.tsx:311-317 | every `setStore` in `rate` re-runs the `[store]` effect, which rebuilds the session, resets `idx` to 0 and sets `finished` only for an empty session | a one-word pool: rate its word once; the effect rebuilds the session as that same word, so the deck never shows the finished screen | each rating moves to the next card of the session, and the last one finishes | high, not executed | SrsDeck.StoreEffectNeverFinishes | SrsDeck.Deck.RateIntended |
| src/features/learn/ExercisesAdapter.tsx:196-202 | `resultText(correct, total)` divides by all tasks, but flip tasks are never counted as correct | a session of three words answered all right: 2 of 3 correct, ratio 0.67, "good" | the ratio over the tasks that can be answered right, so a perfect session is "excellent" | high, not executed | Exercises.ExcellentUnreachable | Exercises.IntendedExcellentReachable |
| src/features/placement/PlacementQuizAdapter.tsx:90-101 | after the last answer the score reads `correctWeighted` before the update queued at line 90 is applied | a one-question quiz answered right reports score 0; any perfect run of total weight below 200 reports less than 100 | the final payload counts the last answer too | high, not executed | PlacementQuiz.PerfectRunAsWritten | PlacementQuiz.PerfectRunIntended |
