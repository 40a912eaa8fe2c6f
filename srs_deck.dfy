/** The review deck (src/features/srs/SRSDeckAdapter.tsx): the word pool, the
    stored card states, the queue of words due today, the learn log applied
    on entry, and the rating of the current card. */
module SrsDeck {
  import opened Seqs
  import opened Numbers
  import opened Strings
  import opened SrsCard
  import opened SrsProgress

  /** A plan entry as stored: a bare word or a record with a `term`. */
  datatype PlanItem = Word(text: string) | Entry(term: string)

  function ItemText(it: PlanItem): string
  {
    match it
    case Word(t) => t
    case Entry(t) => t
  }

  /** Each plan entry as a lower-cased word. */
  function Lowered(items: seq<PlanItem>): (r: seq<string>)
    ensures |r| == |items|
    ensures forall i :: 0 <= i < |items| ==> r[i] == Lower(ItemText(items[i]))
  {
    seq(|items|, i requires 0 <= i < |items| => Lower(ItemText(items[i])))
  }

  lemma LoweredConcat(a: seq<PlanItem>, b: seq<PlanItem>)
    ensures Lowered(a + b) == Lowered(a) + Lowered(b)
  {
  }

  /** The pool used when the plan gives no words. */
  const DefaultPool: seq<string> := ["ticket", "flight", "gate", "luggage", "hotel", "taxi", "map"]

  /** The SRS pool: today's set followed by the week package, lower-cased,
      each word once; the default pool when the plan gives no words. */
  function BuildPool(todaySet: seq<PlanItem>, weekPackage: seq<PlanItem>): (pool: seq<string>)
    ensures pool != []
    ensures NoDup(pool)
    ensures todaySet + weekPackage == [] ==> pool == DefaultPool
    ensures todaySet + weekPackage != [] ==>
              (forall i :: 0 <= i < |pool| ==> pool[i] in Lowered(todaySet + weekPackage))
              && (forall i :: 0 <= i < |todaySet + weekPackage| ==>
                    Lower(ItemText((todaySet + weekPackage)[i])) in pool)
  {
    var words := Lowered(todaySet + weekPackage);
    var uniq := Dedupe(words);
    if uniq != [] then uniq else DefaultPool
  }

  /** The pool lists the plan's words in the order of their first
      occurrence (`Array.from(new Set(...))` keeps insertion order); with
      the membership and no-repetition facts of `BuildPool` this fixes the
      pool completely. */
  lemma PoolFirstSeenOrder(todaySet: seq<PlanItem>, weekPackage: seq<PlanItem>)
    requires todaySet + weekPackage != []
    ensures InOrderOf(BuildPool(todaySet, weekPackage), Lowered(todaySet + weekPackage))
  {
    var words := Lowered(todaySet + weekPackage);
    assert words[0] in Dedupe(words);
    DedupeFirstSeenOrder(words);
  }

  /** Today's words lead the pool, in the order they appear in the plan. */
  lemma TodayFirst(todaySet: seq<PlanItem>, weekPackage: seq<PlanItem>)
    requires todaySet != []
    ensures IsPrefix(Dedupe(Lowered(todaySet)), BuildPool(todaySet, weekPackage))
  {
    LoweredConcat(todaySet, weekPackage);
    DedupePrefix(Lowered(todaySet), Lowered(weekPackage));
    var uniq := Dedupe(Lowered(todaySet + weekPackage));
    assert Lowered(todaySet)[0] in uniq;
  }

  /** The stored card states. */
  type Store = map<string, CardState>

  /** The state of a word, or a fresh one when it has none (`?? {…}`). */
  function CardOf(store: Store, w: string, today: Day): CardState
  {
    if w in store then store[w] else Fresh(today)
  }

  /** A word without a stored state counts as due (`(s[w]?.due ?? iso) <= iso`). */
  predicate IsDue(store: Store, w: string, today: Day)
  {
    CardOf(store, w, today).due <= today
  }

  /** The filter test of `computeDueToday`. */
  function DueTest(store: Store, today: Day): string -> bool
  {
    w => IsDue(store, w, today)
  }

  /** `computeDueToday`: the due pool words in pool order, or the first five
      pool words when none is due. */
  function DueToday(pool: seq<string>, store: Store, today: Day): (due: seq<string>)
    ensures pool != [] ==> due != []
    ensures forall i :: 0 <= i < |due| ==> due[i] in pool
    ensures (exists i :: 0 <= i < |pool| && IsDue(store, pool[i], today)) ==>
              (forall i :: 0 <= i < |due| ==> IsDue(store, due[i], today))
              && (forall i :: 0 <= i < |pool| && IsDue(store, pool[i], today) ==> pool[i] in due)
    ensures (forall i :: 0 <= i < |pool| ==> !IsDue(store, pool[i], today)) ==>
              due == pool[..Min(5, |pool|)]
  {
    var d := Filter(pool, DueTest(store, today));
    if |d| == 0 then
      assert forall i :: 0 <= i < |pool| ==> !IsDue(store, pool[i], today);
      pool[..Min(5, |pool|)]
    else
      assert d[0] in pool && IsDue(store, d[0], today);
      d
  }

  /** The session: the first ten words of the queue, or all of it when shorter. */
  function Session(pool: seq<string>, store: Store, today: Day): (s: seq<string>)
    ensures |s| == Min(10, |DueToday(pool, store, today)|)
    ensures pool != [] ==> s != []
    ensures IsPrefix(s, DueToday(pool, store, today))
    ensures forall i :: 0 <= i < |s| ==> s[i] in pool
  {
    SliceTo(DueToday(pool, store, today), 10)
  }

  /** For a pool without repetitions (every pool `BuildPool` gives), the
      queue and the session list their words once each, in pool order. */
  lemma QueueInPoolOrder(pool: seq<string>, store: Store, today: Day)
    requires NoDup(pool)
    ensures InOrderOf(DueToday(pool, store, today), pool) && NoDup(DueToday(pool, store, today))
    ensures InOrderOf(Session(pool, store, today), pool) && NoDup(Session(pool, store, today))
  {
    var due := DueToday(pool, store, today);
    if Filter(pool, DueTest(store, today)) != [] {
      FilterInOrder(pool, DueTest(store, today));
    } else {
      PrefixInOrder(pool, Min(5, |pool|));
    }
    InOrderNoDup(due, pool);
    var session := Session(pool, store, today);
    InOrderPrefix(due, |session|, pool);
    assert due[..|session|] == session;
    InOrderNoDup(session, pool);
  }

  /** Every stored state is one that ratings of a seeded card can produce. */
  ghost predicate AllReachable(store: Store)
  {
    forall w :: w in store ==> Reachable(store[w])
  }

  /** A rated word is no longer due today. */
  lemma RatedNotDue(store: Store, w: string, q: Quality, today: Day)
    requires AllReachable(store)
    ensures !IsDue(store[w := RateSM2(CardOf(store, w, today), q, today)], w, today)
    ensures AllReachable(store[w := RateSM2(CardOf(store, w, today), q, today)])
  {
    FreshReachable(today);
    RatePreservesReachable(CardOf(store, w, today), q, today);
  }

  /** Seeds a fresh state for every pool word without one; other entries stay. */
  function SeedMissing(store: Store, words: seq<string>, today: Day): (s: Store)
    ensures forall w :: w in store ==> w in s && s[w] == store[w]
    ensures forall i :: 0 <= i < |words| ==> words[i] in s
    ensures forall w :: w in s ==> w in store || w in words
    ensures forall w :: w in s && w !in store ==> s[w] == Fresh(today)
  {
    map w | w in store.Keys + (set x | x in words) :: if w in store then store[w] else Fresh(today)
  }

  lemma SeedMissingIdempotent(store: Store, words: seq<string>, today: Day)
    ensures SeedMissing(SeedMissing(store, words, today), words, today) == SeedMissing(store, words, today)
  {
  }

  lemma SeedMissingReachable(store: Store, words: seq<string>, today: Day)
    requires AllReachable(store)
    ensures AllReachable(SeedMissing(store, words, today))
  {
    FreshReachable(today);
  }

  /** Right after seeding, every pool word is due today or keeps its old
      schedule: seeding rates nothing. */
  lemma SeededDueOrKept(store: Store, pool: seq<string>, today: Day, w: string)
    requires w in pool
    ensures IsDue(SeedMissing(store, pool, today), w, today) <==> IsDue(store, w, today)
  {
  }

  /** The seeding loop run when the deck first reads the stored states. */
  method SeedStore(loaded: Store, pool: seq<string>, today: Day) returns (s: Store)
    ensures s == SeedMissing(loaded, pool, today)
  {
    s := loaded;
    var i := 0;
    while i < |pool|
      invariant 0 <= i <= |pool|
      invariant s == SeedMissing(loaded, pool[..i], today)
    {
      assert pool[..i + 1] == pool[..i] + [pool[i]];
      if pool[i] !in s {
        s := s[pool[i] := Fresh(today)];
      }
      i := i + 1;
    }
    assert pool[..i] == pool;
  }

  /** "Add a couple of new ones": the first three pool words get fresh states. */
  function SeedFirst(store: Store, pool: seq<string>, today: Day): (s: Store)
    ensures forall i :: 0 <= i < Min(3, |pool|) ==> pool[i] in s && s[pool[i]] == Fresh(today)
    ensures forall w :: w in store && w !in pool[..Min(3, |pool|)] ==> w in s && s[w] == store[w]
    ensures s.Keys == store.Keys + set i | 0 <= i < Min(3, |pool|) :: pool[i]
  {
    var extra := pool[..Min(3, |pool|)];
    store + map w | w in extra :: Fresh(today)
  }

  /** The learn log the exercises leave: the day and a grade per word. */
  datatype LearnLog = LearnLog(date: Day, items: seq<(string, Quality)>)

  /** Summary of applying the learn log. */
  datatype AutoResult = AutoResult(applied: int, dueToday: int, later: int, store: Store)

  /** A logged word is applied when it, or its lower-cased form, is in the pool. */
  predicate InPool(pool: seq<string>, w: string)
  {
    w in pool || Lower(w) in pool
  }

  /** The loop of `applyAutoFromLearnLog` over the first entries of the log:
      each applied word is rated under its logged key and counted as due
      today or later. */
  function ApplyItems(pool: seq<string>, store: Store, items: seq<(string, Quality)>, today: Day): AutoResult
    decreases |items|
  {
    if items == [] then AutoResult(0, 0, 0, store)
    else
      var r := ApplyItems(pool, store, items[..|items| - 1], today);
      var w := items[|items| - 1].0;
      if !InPool(pool, w) then r
      else
        var next := RateSM2(CardOf(r.store, w, today), items[|items| - 1].1, today);
        var now := next.due <= today;
        AutoResult(r.applied + 1, r.dueToday + (if now then 1 else 0),
                   r.later + (if now then 0 else 1), r.store[w := next])
  }

  /** `applyAutoFromLearnLog`: nothing happens without a log from today. */
  function ApplyLog(pool: seq<string>, store: Store, log: Option<LearnLog>, today: Day): AutoResult
  {
    if log.None? || log.value.date != today then AutoResult(0, 0, 0, store)
    else ApplyItems(pool, store, log.value.items, today)
  }

  /** The counts add up and only applied words change. */
  lemma {:induction false} ApplyItemsFacts(pool: seq<string>, store: Store, items: seq<(string, Quality)>, today: Day)
    ensures var r := ApplyItems(pool, store, items, today);
      && r.applied == r.dueToday + r.later
      && 0 <= r.dueToday && 0 <= r.later && r.applied <= |items|
      && (r.applied == 0 ==> r.store == store)
      && (forall w :: w in store ==> w in r.store)
      && (forall w :: w in r.store && (w !in store || r.store[w] != store[w]) ==>
            exists i :: 0 <= i < |items| && items[i].0 == w && InPool(pool, w))
    decreases |items|
  {
    if items != [] {
      var init := items[..|items| - 1];
      ApplyItemsFacts(pool, store, init, today);
      assert forall i :: 0 <= i < |init| ==> init[i] == items[i];
    }
  }

  /** With well-formed states every applied word is rated, none of them is
      due again today, and the states stay well formed. */
  lemma {:induction false} ApplyItemsReachable(pool: seq<string>, store: Store, items: seq<(string, Quality)>, today: Day)
    requires AllReachable(store)
    ensures var r := ApplyItems(pool, store, items, today);
      && r.dueToday == 0 && AllReachable(r.store)
      && (forall i :: 0 <= i < |items| && InPool(pool, items[i].0) ==>
            items[i].0 in r.store && !IsDue(r.store, items[i].0, today))
    decreases |items|
  {
    if items != [] {
      var init := items[..|items| - 1];
      var w := items[|items| - 1].0;
      var q := items[|items| - 1].1;
      ApplyItemsReachable(pool, store, init, today);
      var r := ApplyItems(pool, store, init, today);
      assert forall i :: 0 <= i < |init| ==> init[i] == items[i];
      if InPool(pool, w) {
        RatedNotDue(r.store, w, q, today);
      }
    }
  }

  /** The result of the on-entry summary is the loop over the log. */
  method ApplyAutoFromLearnLog(pool: seq<string>, store: Store, log: Option<LearnLog>, today: Day)
    returns (res: AutoResult)
    ensures res == ApplyLog(pool, store, log, today)
    ensures log.None? || log.value.date != today ==> res == AutoResult(0, 0, 0, store)
    ensures res.applied == res.dueToday + res.later
    ensures AllReachable(store) ==> res.dueToday == 0
  {
    if log.None? || log.value.date != today {
      return AutoResult(0, 0, 0, store);
    }
    var items := log.value.items;
    var applied, dueToday, later := 0, 0, 0;
    var next := store;
    var i := 0;
    while i < |items|
      invariant 0 <= i <= |items|
      invariant AutoResult(applied, dueToday, later, next) == ApplyItems(pool, store, items[..i], today)
    {
      assert items[..i + 1][..i] == items[..i];
      var w := items[i].0;
      if InPool(pool, w) {
        var card := RateSM2(CardOf(next, w, today), items[i].1, today);
        next := next[w := card];
        applied := applied + 1;
        if card.due <= today {
          dueToday := dueToday + 1;
        } else {
          later := later + 1;
        }
      }
      i := i + 1;
    }
    assert items[..i] == items;
    res := AutoResult(applied, dueToday, later, next);
    ApplyItemsFacts(pool, store, items, today);
    if AllReachable(store) {
      ApplyItemsReachable(pool, store, items, today);
    }
  }

  /** The hint line: the context's translation, if any, then the masked word.
      An empty translation is falsy in JavaScript and gives the bare mask. */
  function Hint(entry: Option<string>, w: string): (r: string)
    ensures EndsWith(r, Mask(w))
    ensures entry.Some? && entry.value != "" ==> IsPrefix(entry.value, r) && |r| == |entry.value| + 3 + |w|
    ensures entry.None? || entry.value == "" ==> r == Mask(w)
  {
    match entry
    case Some(e) => if e == "" then Mask(w) else e + " \U{2022} " + Mask(w)
    case None => Mask(w)
  }

  /** Position and finished flag after rating the card at `idx` of a session
      of `n` cards, as the rating handler sets them. */
  function Advance(idx: int, n: int): (int, bool)
  {
    if idx + 1 >= n then (idx, true) else (idx + 1, false)
  }

  /** Position and finished flag after `k` ratings of a session of `n` cards
      from the start, when nothing rebuilds the session in between. */
  function Ratings(n: nat, k: nat): (int, bool)
    requires 0 < n && k <= n
  {
    if k == 0 then (0, false) else Advance(Ratings(n, k - 1).0, n)
  }

  /** Each rating moves to the next card, and the last one finishes. */
  lemma {:induction false} RatingsWalk(n: nat, k: nat)
    requires 0 < n && k <= n
    ensures k < n ==> Ratings(n, k) == (k, false)
    ensures k == n ==> Ratings(n, k) == (n - 1, true)
  {
    if k > 0 {
      RatingsWalk(n, k - 1);
    }
  }

  /** What the `[store]` effect does after every store change: the session
      is rebuilt, the position reset and `finished` set only when there is
      nothing to review. */
  function AfterStoreChange(pool: seq<string>, store: Store, today: Day): (int, bool)
  {
    (0, Session(pool, store, today) == [])
  }

  /** The as-written deck never finishes: after any rating the rebuilt
      session is non-empty, so `finished` is false again. */
  lemma StoreEffectNeverFinishes(pool: seq<string>, store: Store, today: Day)
    requires pool != []
    ensures AfterStoreChange(pool, store, today) == (0, false)
  {
  }

  /** For a one-word pool, rating its word (from a well-formed state) brings
      the same word back as the whole new session. */
  lemma SameWordAgain(w: string, store: Store, q: Quality, today: Day)
    requires AllReachable(store)
    ensures Session([w], store[w := RateSM2(CardOf(store, w, today), q, today)], today) == [w]
  {
    RatedNotDue(store, w, q, today);
    var s := store[w := RateSM2(CardOf(store, w, today), q, today)];
    assert forall i :: 0 <= i < |[w]| ==> !IsDue(s, [w][i], today);
  }

  /** The values the deck mounts with: the pool, the seeded store with
      today's log applied, the log and notice left after it, and the first
      session. */
  method Mount(todaySet: seq<PlanItem>, weekPackage: seq<PlanItem>, loaded: Store, log: Option<LearnLog>, today: Day)
    returns (pool: seq<string>, store: Store, learnLog: Option<LearnLog>, notice: Option<AutoResult>, session: seq<string>)
    ensures pool == BuildPool(todaySet, weekPackage)
    ensures var seeded := SeedMissing(loaded, pool, today);
            var r := ApplyLog(pool, seeded, log, today);
            && store == (if r.applied > 0 then r.store else seeded)
            && learnLog == (if r.applied > 0 then None else log)
            && notice == (if r.applied > 0 then Some(r) else None)
    ensures session == Session(pool, store, today) && session != []
    ensures forall i :: 0 <= i < |session| ==> session[i] in pool
  {
    pool := BuildPool(todaySet, weekPackage);
    var seeded := SeedStore(loaded, pool, today);
    var r := ApplyAutoFromLearnLog(pool, seeded, log, today);
    store := if r.applied > 0 then r.store else seeded;
    learnLog := if r.applied > 0 then None else log;
    notice := if r.applied > 0 then Some(r) else None;
    session := Session(pool, store, today);
  }

  /** The progress slot as the deck leaves it on mount: today's record
      with the daily target set. */
  method TargetedProgress(slot: Option<Progress>, target: Number, today: Day) returns (progress: ProgressStore)
    ensures fresh(progress)
    ensures progress.slot == Some(CurrentProgress(slot, today).(target := TargetValue(target)))
  {
    progress := new ProgressStore(slot);
    progress.SetProgressTarget(target, today);
  }

  /** The deck component's state. `store` is the rendered state, `saved`
      the stored copy, `learnLog` the learn-log slot. */
  class Deck {
    const pool: seq<string>
    const today: Day
    var store: Store
    var saved: Store
    var learnLog: Option<LearnLog>
    var notice: Option<AutoResult>
    var session: seq<string>
    var idx: int
    var finished: bool
    const progress: ProgressStore

    ghost predicate Valid()
      reads this
    {
      pool != [] && session != [] && 0 <= idx < |session|
      && (forall i :: 0 <= i < |session| ==> session[i] in pool)
    }

    /** Mounting the deck: set the daily target, build the pool, seed
        missing states, apply today's learn log and build the session. */
    constructor(todaySet: seq<PlanItem>, weekPackage: seq<PlanItem>, perDay: Number,
                loaded: Store, log: Option<LearnLog>, progressSlot: Option<Progress>, today: Day)
      ensures this.today == today
      ensures pool == BuildPool(todaySet, weekPackage)
      ensures progress.slot ==
                Some(CurrentProgress(progressSlot, today).(target := TargetValue(EntryTarget(perDay, |todaySet|))))
      ensures var seeded := SeedMissing(loaded, pool, today);
              var r := ApplyLog(pool, seeded, log, today);
              && store == (if r.applied > 0 then r.store else seeded)
              && saved == store
              && learnLog == (if r.applied > 0 then None else log)
              && notice == (if r.applied > 0 then Some(r) else None)
      ensures session == Session(pool, store, today) && idx == 0 && !finished
      ensures Valid()
    {
      var pool0, store0, log0, notice0, session0 := Mount(todaySet, weekPackage, loaded, log, today);
      var progress0 := TargetedProgress(progressSlot, EntryTarget(perDay, |todaySet|), today);
      this.today := today;
      pool := pool0;
      store := store0;
      saved := store0;
      learnLog := log0;
      notice := notice0;
      session := session0;
      idx := 0;
      finished := false;
      progress := progress0;
    }

    /** `rate` as written, together with the `[store]` effect its `setStore`
        triggers: the word is counted and rated, and then the session is
        rebuilt from the start, so `finished` never becomes true. */
    method Rate(quality: Quality)
      requires Valid() && !finished
      modifies this, progress
      ensures Valid()
      ensures var w := old(session[idx]);
              && progress.slot == Some(CountOnce(CurrentProgress(old(progress.slot), today), w))
              && store == old(store)[w := RateSM2(CardOf(old(store), w, today), quality, today)]
              && saved == store
      ensures session == Session(pool, store, today)
      ensures (idx, finished) == AfterStoreChange(pool, store, today)
      ensures !finished
      ensures learnLog == old(learnLog) && notice == old(notice)
    {
      var w := session[idx];
      progress.IncrementProgressOnce(w, today);
      var next := RateSM2(CardOf(store, w, today), quality, today);
      Rebuild(store[w := next]);
      StoreEffectNeverFinishes(pool, store, today);
    }

    /** `setStore(next)` followed by the `[store]` effect: the store is saved
        and the session rebuilt from its first card. */
    method Rebuild(next: Store)
      requires pool != []
      modifies this
      ensures store == next && saved == next
      ensures session == Session(pool, next, today) && idx == 0 && finished == (session == [])
      ensures learnLog == old(learnLog) && notice == old(notice)
      ensures Valid()
    {
      store, saved := next, next;
      session := Session(pool, next, today);
      idx, finished := 0, session == [];
    }

    /** `rate` as intended: the word is counted and rated, the deck moves to
        the next card of the same session and finishes after the last one. */
    method RateIntended(quality: Quality)
      requires Valid() && !finished
      modifies this, progress
      ensures Valid()
      ensures var w := old(session[idx]);
              && progress.slot == Some(CountOnce(CurrentProgress(old(progress.slot), today), w))
              && store == old(store)[w := RateSM2(CardOf(old(store), w, today), quality, today)]
              && saved == store
      ensures session == old(session)
      ensures (idx, finished) == Advance(old(idx), |session|)
      ensures learnLog == old(learnLog) && notice == old(notice)
    {
      var w := session[idx];
      progress.IncrementProgressOnce(w, today);
      var next := RateSM2(CardOf(store, w, today), quality, today);
      store := store[w := next];
      saved := store;
      if idx + 1 >= |session| {
        finished := true;
      } else {
        idx := idx + 1;
      }
    }
  }
}
