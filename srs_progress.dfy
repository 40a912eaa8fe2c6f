/** The daily progress counter of the review deck (src/features/srs/SRSDeckAdapter.tsx):
    one stored record per day that counts each word at most once. */
module SrsProgress {
  import opened Seqs
  import opened Numbers
  import opened SrsCard

  /** The record kept under the progress key. */
  datatype Progress = Progress(date: Day, done: int, target: int, countedIds: seq<string>)

  /** The record a new day (or a missing or unreadable record) starts from. */
  function FreshProgress(today: Day): Progress
  {
    Progress(today, 0, 0, [])
  }

  /** `getProgress`: the stored record if it is from today, otherwise a fresh
      one for today. */
  function CurrentProgress(stored: Option<Progress>, today: Day): (p: Progress)
    ensures p.date == today
    ensures stored.Some? && stored.value.date == today ==> p == stored.value
    ensures stored.None? || stored.value.date != today ==> p.done == 0 && p.countedIds == [] && p.target == 0
  {
    if stored.Some? && stored.value.date == today then stored.value else FreshProgress(today)
  }

  /** Reading the progress twice on the same day gives the same record. */
  lemma CurrentProgressStable(stored: Option<Progress>, today: Day)
    ensures CurrentProgress(Some(CurrentProgress(stored, today)), today) == CurrentProgress(stored, today)
  {
  }

  /** `Math.max(0, Math.floor(target)) || 0`: a whole non-negative number,
      0 for NaN. */
  function TargetValue(t: Number): (n: int)
    ensures n >= 0
    ensures t.NaN? ==> n == 0
    ensures t.Num? && t.value >= 0.0 ==> n == t.value.Floor
    ensures t.Num? && t.value < 1.0 ==> n == 0
  {
    match t
    case NaN => 0
    case Num(x) => Max(0, x.Floor)
  }

  /** The daily target set on entry:
      `Number(perDay) || Number(todaySet.length || 0) || 0`. */
  function EntryTarget(perDay: Number, todayCount: nat): Number
  {
    if perDay.Num? && perDay.value != 0.0 then perDay
    else if todayCount != 0 then Num(todayCount as real)
    else Num(0.0)
  }

  /** A recommended per-day count wins; without one, the size of today's set
      is the target. */
  lemma EntryTargetChoice(perDay: Number, todayCount: nat)
    ensures perDay.Num? && perDay.value >= 1.0 ==>
              TargetValue(EntryTarget(perDay, todayCount)) == perDay.value.Floor
    ensures perDay.NaN? || perDay == Num(0.0) ==>
              TargetValue(EntryTarget(perDay, todayCount)) == todayCount
  {
  }

  predicate NonEmpty(id: string) { id != [] }

  /** `incrementProgressOnce` on a record: an empty id or one counted
      already leaves it alone, any other id is counted and remembered. */
  function CountOnce(p: Progress, id: string): (r: Progress)
    ensures r.date == p.date && r.target == p.target
    ensures id != [] ==> id in r.countedIds
    ensures id == [] || id in p.countedIds ==> r == p
    ensures id != [] && id !in p.countedIds ==>
              r.done == p.done + 1 && r.countedIds == p.countedIds + [id]
  {
    if !NonEmpty(id) || id in p.countedIds then p
    else p.(done := p.done + 1, countedIds := p.countedIds + [id])
  }

  /** The count agrees with the remembered ids, which are distinct and
      non-empty. */
  ghost predicate Consistent(p: Progress)
  {
    && p.done == |p.countedIds|
    && NoDup(p.countedIds)
    && (forall i :: 0 <= i < |p.countedIds| ==> p.countedIds[i] != [])
    && p.target >= 0
  }

  lemma FreshConsistent(today: Day)
    ensures Consistent(FreshProgress(today))
  {
  }

  lemma CountOnceConsistent(p: Progress, id: string)
    requires Consistent(p)
    ensures Consistent(CountOnce(p, id))
  {
  }

  /** Counting the same word twice counts it once. */
  lemma CountOnceIdempotent(p: Progress, id: string)
    ensures CountOnce(CountOnce(p, id), id) == CountOnce(p, id)
  {
  }

  /** Counting a sequence of ratings, one after another. */
  function CountAll(p: Progress, ids: seq<string>): Progress
    decreases |ids|
  {
    if ids == [] then p else CountOnce(CountAll(p, ids[..|ids| - 1]), ids[|ids| - 1])
  }

  /** Over a day, the counter holds exactly the distinct non-empty ids rated,
      in the order they were first rated, and `done` is their number. */
  lemma {:induction false} CountAllDistinct(p: Progress, ids: seq<string>)
    requires p.done == 0 && p.countedIds == []
    ensures CountAll(p, ids).countedIds == Dedupe(Filter(ids, NonEmpty))
    ensures CountAll(p, ids).done == |Dedupe(Filter(ids, NonEmpty))|
    decreases |ids|
  {
    if ids != [] {
      var init := ids[..|ids| - 1];
      var x := ids[|ids| - 1];
      assert ids == init + [x];
      CountAllDistinct(p, init);
      FilterConcat(init, [x], NonEmpty);
      var f := Filter(init, NonEmpty);
      if NonEmpty(x) {
        assert Filter([x], NonEmpty) == [x];
        DedupeSnoc(f, x);
        assert x in Dedupe(f) <==> x in f;
      } else {
        assert Filter([x], NonEmpty) == [];
        assert f + [] == f;
      }
    }
  }

  /** The progress slot of local storage. */
  class ProgressStore {
    var slot: Option<Progress>

    /** Records in the slot are consistent (true of every record this store writes). */
    ghost predicate Valid()
      reads this
    {
      slot.Some? ==> Consistent(slot.value)
    }

    constructor(initial: Option<Progress>)
      ensures slot == initial
    {
      slot := initial;
    }

    /** `getProgress`: a record from another day is replaced by a fresh one
        that is written back. */
    method GetProgress(today: Day) returns (p: Progress)
      modifies this
      ensures p == CurrentProgress(old(slot), today)
      ensures slot == Some(p)
      ensures old(Valid()) ==> Valid()
    {
      p := CurrentProgress(slot, today);
      slot := Some(p);
    }

    /** `setProgressTarget`. */
    method SetProgressTarget(target: Number, today: Day)
      modifies this
      ensures slot == Some(CurrentProgress(old(slot), today).(target := TargetValue(target)))
      ensures old(Valid()) ==> Valid()
    {
      var st := GetProgress(today);
      slot := Some(st.(target := TargetValue(target)));
    }

    /** `incrementProgressOnce`. */
    method IncrementProgressOnce(id: string, today: Day)
      modifies this
      ensures slot == Some(CountOnce(CurrentProgress(old(slot), today), id))
      ensures old(Valid()) ==> Valid()
    {
      var st := GetProgress(today);
      if !NonEmpty(id) || id in st.countedIds {
        return;
      }
      slot := Some(st.(done := st.done + 1, countedIds := st.countedIds + [id]));
    }
  }
}
