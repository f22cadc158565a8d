/**
 * What every run of ingests and refreshes keeps: each bucket behind the `through` cursor is what a
 * from-scratch rebuild over all messages up to the watermark would store
 * (packages/core/energy-attribution.ts, `refreshEnergyAttribution`).
 */
module EnergyHistory {
  import opened Wrappers
  import opened EnergyBuckets
  import opened EnergyChunk
  import opened EnergyRefresh

  // ── The invariant ────────────────────────────────────────────────

  /** Row ids are assigned by the database and only grow. */
  ghost predicate OrderedIds(msgs: seq<Message>) {
    && (forall i :: 0 <= i < |msgs| ==> msgs[i].id >= 1)
    && (forall i, j :: 0 <= i < j < |msgs| ==> msgs[i].id < msgs[j].id)
  }

  /** Before the first sample, a bucket without messages has no rows. */
  ghost predicate QuietBefore(rows: RowsFor, earliest: Option<int>) {
    forall b :: Aligned(b) && (earliest.Some? ==> b < BucketOf(earliest.value)) ==> rows([], b) == NO_ROWS
  }

  ghost predicate Evidence(msgs: seq<Message>, earliest: Option<int>, b: int) {
    || (earliest.Some? && BucketOf(earliest.value) <= b)
    || InBucket(msgs, b) != []
  }

  /** Rows exist only where a sample or a message can have put them, whatever rules built them. */
  ghost predicate Supported(table: Table, msgs: seq<Message>, earliest: Option<int>) {
    forall b :: Aligned(b) && !Evidence(msgs, earliest, b) ==> Lookup(table, b) == NO_ROWS
  }

  ghost predicate FinalBefore(table: Table, own: seq<Message>, t: int, rows: RowsFor) {
    forall b :: Aligned(b) && b < t ==> Lookup(table, b) == Owned(rows, own)(b)
  }

  ghost predicate Untimed(msgs: seq<Message>) {
    forall i :: 0 <= i < |msgs| ==> msgs[i].ts.None?
  }

  ghost predicate UpToDate(s: State, rows: RowsFor) {
    if s.through.Some? then Aligned(s.through.value) && FinalBefore(s.table, UpTo(s.msgs, s.watermark), s.through.value, rows)
    else Untimed(UpTo(s.msgs, s.watermark))
  }

  ghost predicate Sound(s: State, earliest: Option<int>, rows: RowsFor) {
    && OrderedIds(s.msgs) && s.watermark <= MaxId(s.msgs)
    && Supported(s.table, s.msgs, earliest)
    && (s.through.Some? ==> Aligned(s.through.value))
    && (s.rules >= ENERGY_RULES_VERSION ==> UpToDate(s, rows))
  }

  // ── Messages and watermarks ──────────────────────────────────────

  lemma {:induction false} MaxIdBounds(msgs: seq<Message>)
    ensures forall i :: 0 <= i < |msgs| ==> msgs[i].id <= MaxId(msgs)
  {
    if msgs != [] { MaxIdBounds(msgs[..|msgs| - 1]); }
  }

  lemma {:induction false} MaxIdAppend(msgs: seq<Message>, batch: seq<Message>)
    ensures MaxId(msgs + batch) >= MaxId(msgs)
  {
    if batch == [] {
      assert msgs + batch == msgs;
    } else {
      MaxIdAppend(msgs, batch[..|batch| - 1]);
      assert (msgs + batch)[..|msgs + batch| - 1] == msgs + batch[..|batch| - 1];
    }
  }

  lemma {:induction false} UpToAll(msgs: seq<Message>, wm: nat)
    requires forall i :: 0 <= i < |msgs| ==> msgs[i].id <= wm
    ensures UpTo(msgs, wm) == msgs
  {
    if msgs != [] { UpToAll(msgs[..|msgs| - 1], wm); }
  }

  lemma {:induction false} UpToNone(msgs: seq<Message>)
    requires OrderedIds(msgs)
    ensures UpTo(msgs, 0) == []
  {
    if msgs != [] { UpToNone(msgs[..|msgs| - 1]); }
  }

  lemma {:induction false} UpToAppend(msgs: seq<Message>, batch: seq<Message>, wm: nat)
    requires forall i :: 0 <= i < |batch| ==> batch[i].id > wm
    ensures UpTo(msgs + batch, wm) == UpTo(msgs, wm)
  {
    if batch == [] {
      assert msgs + batch == msgs;
    } else {
      UpToAppend(msgs, batch[..|batch| - 1], wm);
      assert (msgs + batch)[..|msgs + batch| - 1] == msgs + batch[..|batch| - 1];
    }
  }

  lemma {:induction false} BucketAppend(msgs: seq<Message>, batch: seq<Message>, b: int)
    ensures InBucket(msgs, b) <= InBucket(msgs + batch, b)
  {
    if batch == [] {
      assert msgs + batch == msgs;
    } else {
      BucketAppend(msgs, batch[..|batch| - 1], b);
      assert (msgs + batch)[..|msgs + batch| - 1] == msgs + batch[..|batch| - 1];
    }
  }

  lemma {:induction false} NothingNewIn(msgs: seq<Message>, wm: nat, b: int)
    requires forall i :: 0 <= i < |msgs| && msgs[i].id > wm ==> !InRange(msgs[i], b, b + BUCKET_MS)
    ensures InBucket(UpTo(msgs, wm), b) == InBucket(msgs, b)
  {
    if msgs != [] {
      var rest, m := UpTo(msgs[..|msgs| - 1], wm), msgs[|msgs| - 1];
      NothingNewIn(msgs[..|msgs| - 1], wm, b);
      if m.id <= wm {
        assert (rest + [m])[..|rest|] == rest;
      }
    }
  }

  lemma {:induction false} UntimedIsNowhere(msgs: seq<Message>, b: int)
    requires Untimed(msgs)
    ensures InBucket(msgs, b) == []
  {
    if msgs != [] { UntimedIsNowhere(msgs[..|msgs| - 1], b); }
  }

  lemma {:induction false} EarliestAfterBounds(msgs: seq<Message>, wm: nat)
    ensures forall i :: 0 <= i < |msgs| && msgs[i].id > wm && msgs[i].ts.Some?
              ==> EarliestAfter(msgs, wm).Some? && EarliestAfter(msgs, wm).value <= msgs[i].ts.value
  {
    if msgs != [] { EarliestAfterBounds(msgs[..|msgs| - 1], wm); }
  }

  // ── A refresh starts early enough ────────────────────────────────

  /** No message past the watermark landed before the bucket a refresh starts at. */
  lemma StartsBeforeNews(s: State, earliest: Option<int>, i: nat)
    requires i < |s.msgs| && s.msgs[i].id > Cursors(s).0 && s.msgs[i].ts.Some?
    requires s.through.Some? ==> Aligned(s.through.value)
    ensures StartOf(s, earliest).Some? && StartOf(s, earliest).value <= BucketOf(s.msgs[i].ts.value)
  {
    var (wm, through) := Cursors(s);
    MaxIdBounds(s.msgs);
    EarliestAfterBounds(s.msgs, wm);
    var late, ts := EarliestAfter(s.msgs, wm).value, s.msgs[i].ts.value;
    NoLaterBucket(late, ts);
    if through.Some? && through.value <= late {
      AlignedBounds(late, through.value, through.value + BUCKET_MS);
    } else if through.None? && earliest.Some? {
      NoLaterBucket(earliest.value, late);
    }
  }

  lemma NoLaterBucket(x: int, y: int)
    ensures x <= y ==> BucketOf(x) <= BucketOf(y)
    ensures BucketOf(x) <= y ==> BucketOf(x) <= BucketOf(y)
  {
  }

  lemma NewsIsNotBefore(s: State, earliest: Option<int>, b: int, i: nat)
    requires s.through.Some? ==> Aligned(s.through.value)
    requires StartOf(s, earliest).Some? ==> b < StartOf(s, earliest).value
    requires Aligned(b) && i < |s.msgs| && s.msgs[i].id > Cursors(s).0
    ensures !InRange(s.msgs[i], b, b + BUCKET_MS)
  {
    if s.msgs[i].ts.Some? {
      StartsBeforeNews(s, earliest, i);
      AlignedBounds(s.msgs[i].ts.value, b, b + BUCKET_MS);
    }
  }

  lemma SameMessagesBefore(s: State, earliest: Option<int>, b: int)
    requires s.through.Some? ==> Aligned(s.through.value)
    requires Aligned(b) && (StartOf(s, earliest).Some? ==> b < StartOf(s, earliest).value)
    ensures InBucket(UpTo(s.msgs, Cursors(s).0), b) == InBucket(s.msgs, b)
  {
    var wm := Cursors(s).0;
    forall i | 0 <= i < |s.msgs| && s.msgs[i].id > wm
      ensures !InRange(s.msgs[i], b, b + BUCKET_MS)
    {
      NewsIsNotBefore(s, earliest, b, i);
    }
    NothingNewIn(s.msgs, wm, b);
  }

  /** Buckets a refresh leaves alone already hold their final rows. */
  lemma SkippedBucketsAreFinal(s: State, earliest: Option<int>, rows: RowsFor, b: int)
    requires Sound(s, earliest, rows) && QuietBefore(rows, earliest)
    requires StartOf(s, earliest).Some? && Aligned(b) && b < StartOf(s, earliest).value
    ensures Lookup(s.table, b) == Owned(rows, s.msgs)(b)
  {
    var (wm, through) := Cursors(s);
    SameMessagesBefore(s, earliest, b);
    if through.None? {
      if s.rules < ENERGY_RULES_VERSION {
        UpToNone(s.msgs);
      }
      assert Untimed(UpTo(s.msgs, wm));
      UntimedIsNowhere(UpTo(s.msgs, wm), b);
      assert InBucket(s.msgs, b) == [];
      assert !Evidence(s.msgs, earliest, b);
    } else {
      assert FinalBefore(s.table, UpTo(s.msgs, wm), through.value, rows);
      assert b < through.value;
    }
  }

  // ── Every step keeps it ──────────────────────────────────────────

  lemma RebuiltIsSupported(s: State, table': Table, start: int, end: int, earliest: Option<int>, rows: RowsFor)
    requires Supported(s.table, s.msgs, earliest) && QuietBefore(rows, earliest)
    requires Rebuilt(s.table, table', start, end, Owned(rows, s.msgs))
    ensures Supported(table', s.msgs, earliest)
  {
    forall b | Aligned(b) && !Evidence(s.msgs, earliest, b)
      ensures Lookup(table', b) == NO_ROWS
    {
      assert Lookup(s.table, b) == NO_ROWS;
      assert Owned(rows, s.msgs)(b) == rows([], b);
    }
  }

  lemma RebuiltIsFinal(s: State, table': Table, start: int, end: int, earliest: Option<int>, rows: RowsFor)
    requires Sound(s, earliest, rows) && QuietBefore(rows, earliest) && StartOf(s, earliest) == Some(start)
    requires Rebuilt(s.table, table', start, end, Owned(rows, s.msgs))
    ensures FinalBefore(table', s.msgs, end, rows)
  {
    forall b | Aligned(b) && b < end
      ensures Lookup(table', b) == Owned(rows, s.msgs)(b)
    {
      if b < start {
        SkippedBucketsAreFinal(s, earliest, rows, b);
      }
    }
  }

  lemma ReachedIsAligned(at: int, current: int, chunk: int, left: nat)
    requires Aligned(at) && Aligned(current) && Aligned(chunk) && chunk > 0
    ensures Aligned(Reached(at, current, chunk, left)) && Reached(at, current, chunk, left) >= at
    ensures at <= current ==> Reached(at, current, chunk, left) >= ChunkEnd(at, current, chunk)
    decreases left
  {
    if at <= current {
      ChunkStep(at, current, chunk, left);
      if left > 0 { ReachedIsAligned(ChunkEnd(at, current, chunk), current, chunk, left - 1); }
    }
  }

  lemma StartIsAligned(s: State, earliest: Option<int>)
    requires s.through.Some? ==> Aligned(s.through.value)
    ensures StartOf(s, earliest).Some? ==> Aligned(StartOf(s, earliest).value)
  {
  }

  /** After any refresh, at any clock reading and on any budget, every bucket behind the cursor is from scratch. */
  lemma RefreshKeepsSound(s: State, s': State, tick: Tick, earliest: Option<int>, rows: RowsFor)
    requires Sound(s, earliest, rows) && QuietBefore(rows, earliest)
    requires Refreshed(s, s', tick, earliest, rows)
    ensures Sound(s', earliest, rows)
  {
    MaxIdBounds(s.msgs);
    UpToAll(s.msgs, MaxId(s.msgs));
    StartIsAligned(s, earliest);
    if StartOf(s, earliest).Some? {
      var start, current, chunk := StartOf(s, earliest).value, BucketOf(tick.now), ChunkMs(tick.chunkDays);
      var end := Reached(start, current, chunk, tick.fits);
      ChunkIsAligned(tick.chunkDays);
      ReachedIsAligned(start, current, chunk, tick.fits);
      RebuiltIsSupported(s, s'.table, start, end, earliest, rows);
      RebuiltIsFinal(s, s'.table, start, end, earliest, rows);
    } else {
      NothingTimedYet(s, earliest, rows);
    }
  }

  lemma NothingTimedYet(s: State, earliest: Option<int>, rows: RowsFor)
    requires Sound(s, earliest, rows) && StartOf(s, earliest).None?
    ensures Untimed(s.msgs)
  {
    var wm := Cursors(s).0;
    forall i | 0 <= i < |s.msgs|
      ensures s.msgs[i].ts.None?
    {
      if s.msgs[i].ts.Some? {
        if s.msgs[i].id > wm {
          StartsBeforeNews(s, earliest, i);
        } else {
          UpToNone(s.msgs);
          UpToHas(s.msgs, wm, i);
        }
      }
    }
  }

  lemma {:induction false} UpToHas(msgs: seq<Message>, wm: nat, i: nat)
    requires i < |msgs| && msgs[i].id <= wm
    ensures msgs[i] in UpTo(msgs, wm)
  {
    if i < |msgs| - 1 { UpToHas(msgs[..|msgs| - 1], wm, i); }
  }

  lemma IngestKeepsSound(s: State, batch: seq<Message>, earliest: Option<int>, rows: RowsFor)
    requires Sound(s, earliest, rows) && OrderedIds(s.msgs + batch)
    ensures Sound(s.(msgs := s.msgs + batch), earliest, rows)
  {
    MaxIdAppend(s.msgs, batch);
    NewIdsAreAbove(s.msgs, batch);
    UpToAppend(s.msgs, batch, s.watermark);
    forall b | Aligned(b) && !Evidence(s.msgs + batch, earliest, b)
      ensures !Evidence(s.msgs, earliest, b)
    {
      BucketAppend(s.msgs, batch, b);
    }
  }

  lemma NewIdsAreAbove(msgs: seq<Message>, batch: seq<Message>)
    requires OrderedIds(msgs + batch)
    ensures forall i :: 0 <= i < |batch| ==> batch[i].id > MaxId(msgs)
  {
    forall i | 0 <= i < |batch|
      ensures batch[i].id > MaxId(msgs)
    {
      assert batch[i] == (msgs + batch)[|msgs| + i];
      forall j | 0 <= j < |msgs| ensures msgs[j].id < batch[i].id {
        assert msgs[j] == (msgs + batch)[j];
      }
      MaxIdBelow(msgs, batch[i].id);
    }
  }

  lemma {:induction false} MaxIdBelow(msgs: seq<Message>, id: nat)
    requires id >= 1 && forall j :: 0 <= j < |msgs| ==> msgs[j].id < id
    ensures MaxId(msgs) < id
  {
    if msgs != [] { MaxIdBelow(msgs[..|msgs| - 1], id); }
  }

  // ── Whole runs ───────────────────────────────────────────────────

  datatype Event = Ingested(batch: seq<Message>) | Ticked(tick: Tick)

  ghost predicate Step(s: State, e: Event, s': State, earliest: Option<int>, rows: RowsFor) {
    match e
    case Ingested(batch) => OrderedIds(s.msgs + batch) && s' == s.(msgs := s.msgs + batch)
    case Ticked(tick) => Refreshed(s, s', tick, earliest, rows)
  }

  /** `states[k + 1]` is `states[k]` after `events[k]`. */
  ghost predicate Run(states: seq<State>, events: seq<Event>, earliest: Option<int>, rows: RowsFor) {
    && |states| == |events| + 1
    && forall k :: 0 <= k < |events| ==> Step(states[k], events[k], states[k + 1], earliest, rows)
  }

  /**
   * Over any interleaving of ingests, with timestamps as late as they like, and refreshes, at any clock and
   * budget, the tables behind `through` are the from-scratch tables of every message up to the watermark.
   */
  lemma {:induction false} EveryRunIsFromScratch(states: seq<State>, events: seq<Event>, earliest: Option<int>, rows: RowsFor, k: nat)
    requires Run(states, events, earliest, rows) && QuietBefore(rows, earliest)
    requires Sound(states[0], earliest, rows) && k < |states|
    ensures Sound(states[k], earliest, rows)
    ensures k > 0 && events[k - 1].Ticked? && states[k].through.Some?
            ==> FinalBefore(states[k].table, states[k].msgs, states[k].through.value, rows)
  {
    if k > 0 {
      EveryRunIsFromScratch(states, events, earliest, rows, k - 1);
      assert Step(states[k - 1], events[k - 1], states[k], earliest, rows);
      match events[k - 1]
      case Ingested(batch) => IngestKeepsSound(states[k - 1], batch, earliest, rows);
      case Ticked(tick) =>
        RefreshKeepsSound(states[k - 1], states[k], tick, earliest, rows);
        MaxIdBounds(states[k].msgs);
        UpToAll(states[k].msgs, MaxId(states[k].msgs));
    }
  }

  /** A database no refresh under these rules has touched, whatever an older version left in its tables and cursors. */
  lemma OlderRulesAreASoundStart(s: State, earliest: Option<int>, rows: RowsFor)
    requires s.rules < ENERGY_RULES_VERSION && OrderedIds(s.msgs) && s.watermark <= MaxId(s.msgs)
    requires Supported(s.table, s.msgs, earliest) && (s.through.Some? ==> Aligned(s.through.value))
    ensures Sound(s, earliest, rows)
  {
  }

  // ── Catching up ──────────────────────────────────────────────────

  /** One refresh moves the cursor a chunk on, or all the way to the clock's bucket; never past it. */
  lemma RefreshAdvances(s: State, s': State, tick: Tick, earliest: Option<int>, rows: RowsFor)
    requires s.through.Some? ==> Aligned(s.through.value)
    requires Refreshed(s, s', tick, earliest, rows) && StartOf(s, earliest).Some?
    ensures var start, current := StartOf(s, earliest).value, BucketOf(tick.now);
            s'.through.Some? && Aligned(s'.through.value) && Lesser(start + DAY_MS, current) <= s'.through.value <= current
  {
    var start, current, chunk := StartOf(s, earliest).value, BucketOf(tick.now), ChunkMs(tick.chunkDays);
    StartIsAligned(s, earliest);
    ChunkIsAligned(tick.chunkDays);
    ReachedIsAligned(start, current, chunk, tick.fits);
  }

  /** With nothing ingested since, a refresh resumes at the cursor. */
  lemma ResumesAtCursor(s: State, earliest: Option<int>)
    requires s.watermark == MaxId(s.msgs) && s.through.Some? && s.rules >= ENERGY_RULES_VERSION
    ensures StartOf(s, earliest) == s.through
  {
  }

  ghost predicate OnlyTicks(events: seq<Event>) {
    forall k :: 0 <= k < |events| ==> events[k].Ticked?
  }

  /** Where the refreshes set out from, and after it the bucket each of them saw on the clock. */
  function Mark(start: int, events: seq<Event>, k: nat): int
    requires OnlyTicks(events) && k <= |events|
  {
    if k == 0 then start else BucketOf(events[k - 1].tick.now)
  }

  /** A day's progress per refresh is enough: from no mark is the last one further than a day for each refresh left. */
  ghost predicate KeepsPace(start: int, events: seq<Event>)
    requires OnlyTicks(events)
  {
    forall j :: 0 <= j <= |events| ==> Mark(start, events, |events|) <= Mark(start, events, j) + (|events| - j) * DAY_MS
  }

  /** How far refreshes get that advance a day each, and stop at the clock. */
  function DayByDay(start: int, events: seq<Event>, k: nat): int
    requires OnlyTicks(events) && k <= |events|
  {
    if k == 0 then start else Lesser(DayByDay(start, events, k - 1) + DAY_MS, Mark(start, events, k))
  }

  /** The least of what each mark allows is allowed by some mark. */
  lemma {:induction false} DayByDayMeans(start: int, events: seq<Event>, k: nat)
    requires OnlyTicks(events) && k <= |events|
    ensures forall j :: 0 <= j <= k ==> DayByDay(start, events, k) <= Mark(start, events, j) + (k - j) * DAY_MS
    ensures exists j :: 0 <= j <= k && DayByDay(start, events, k) == Mark(start, events, j) + (k - j) * DAY_MS
  {
    if k > 0 {
      DayByDayMeans(start, events, k - 1);
      var j :| 0 <= j <= k - 1 && DayByDay(start, events, k - 1) == Mark(start, events, j) + (k - 1 - j) * DAY_MS;
      assert DayByDay(start, events, k) == if DayByDay(start, events, k - 1) + DAY_MS <= Mark(start, events, k)
                                           then Mark(start, events, j) + (k - j) * DAY_MS else Mark(start, events, k) + (k - k) * DAY_MS;
    } else {
      assert DayByDay(start, events, 0) == Mark(start, events, 0) + (0 - 0) * DAY_MS;
    }
  }

  lemma PaceMeansCaughtUp(start: int, events: seq<Event>)
    requires OnlyTicks(events)
    ensures KeepsPace(start, events) <==> DayByDay(start, events, |events|) == Mark(start, events, |events|)
  {
    DayByDayMeans(start, events, |events|);
    var n := |events|;
    assert DayByDay(start, events, n) <= Mark(start, events, n) + (n - n) * DAY_MS;
  }

  lemma {:induction false} StepsOfADay(start: int, events: seq<Event>, j: nat)
    requires OnlyTicks(events) && 1 <= j <= |events|
    requires forall k :: 0 < k < |events| ==> BucketOf(events[k].tick.now) <= BucketOf(events[k - 1].tick.now) + DAY_MS
    ensures Mark(start, events, |events|) <= Mark(start, events, j) + (|events| - j) * DAY_MS
    decreases |events| - j
  {
    if j < |events| {
      StepsOfADay(start, events, j + 1);
      assert Mark(start, events, j + 1) <= Mark(start, events, j) + DAY_MS;
    }
  }

  /** Of a clock that moves at most a day between refreshes, pace only asks for enough of them. */
  lemma DailyRefreshesKeepPace(start: int, events: seq<Event>)
    requires OnlyTicks(events) && events != []
    requires forall k :: 0 < k < |events| ==> BucketOf(events[k].tick.now) <= BucketOf(events[k - 1].tick.now) + DAY_MS
    ensures KeepsPace(start, events) <==> BucketOf(events[|events| - 1].tick.now) <= start + |events| * DAY_MS
  {
    forall j | 1 <= j <= |events|
      ensures Mark(start, events, |events|) <= Mark(start, events, j) + (|events| - j) * DAY_MS
    {
      StepsOfADay(start, events, j);
    }
    assert KeepsPace(start, events) ==> Mark(start, events, |events|) <= Mark(start, events, 0) + (|events| - 0) * DAY_MS;
  }

  /** With nothing ingested, the cursor after `k` refreshes is no further back than a day a refresh gets. */
  lemma {:induction false} CursorAfter(states: seq<State>, events: seq<Event>, earliest: Option<int>, rows: RowsFor, k: nat)
    requires Run(states, events, earliest, rows) && OnlyTicks(events)
    requires Sound(states[0], earliest, rows) && QuietBefore(rows, earliest)
    requires StartOf(states[0], earliest).Some? && 1 <= k < |states|
    ensures states[k].through.Some? && Aligned(states[k].through.value) && states[k].watermark == MaxId(states[k].msgs)
    ensures states[k].rules >= ENERGY_RULES_VERSION
    ensures var start := StartOf(states[0], earliest).value;
            DayByDay(start, events, k) <= states[k].through.value <= Mark(start, events, k)
  {
    var s, s' := states[k - 1], states[k];
    assert Step(s, events[k - 1], s', earliest, rows);
    if k > 1 {
      CursorAfter(states, events, earliest, rows, k - 1);
      ResumesAtCursor(s, earliest);
    }
    RefreshAdvances(s, s', events[k - 1].tick, earliest, rows);
  }

  /**
   * With no further ingest, refreshes that keep pace with the clock, each however short of time, bring the
   * cursor to the clock's bucket, with every bucket before it from scratch over all messages.
   */
  lemma RefreshesCatchUp(states: seq<State>, events: seq<Event>, earliest: Option<int>, rows: RowsFor)
    requires Run(states, events, earliest, rows) && OnlyTicks(events) && events != []
    requires Sound(states[0], earliest, rows) && QuietBefore(rows, earliest)
    requires StartOf(states[0], earliest).Some? && KeepsPace(StartOf(states[0], earliest).value, events)
    ensures var last, current := states[|states| - 1], BucketOf(events[|events| - 1].tick.now);
            last.through == Some(current) && FinalBefore(last.table, last.msgs, current, rows)
  {
    CursorAfter(states, events, earliest, rows, |events|);
    PaceMeansCaughtUp(StartOf(states[0], earliest).value, events);
    EveryRunIsFromScratch(states, events, earliest, rows, |events|);
  }

  /** A refresh with time for a single chunk of a single day. */
  predicate Slowest(tick: Tick) {
    tick.chunkDays <= 1 && tick.fits == 0
  }

  lemma SlowestAdvance(s: State, s': State, tick: Tick, earliest: Option<int>, rows: RowsFor)
    requires s.through.Some? ==> Aligned(s.through.value)
    requires Refreshed(s, s', tick, earliest, rows) && StartOf(s, earliest).Some? && Slowest(tick)
    ensures s'.through == Some(Lesser(StartOf(s, earliest).value + DAY_MS, BucketOf(tick.now)))
  {
  }

  lemma {:induction false} SlowestCursor(states: seq<State>, events: seq<Event>, earliest: Option<int>, rows: RowsFor, k: nat)
    requires Run(states, events, earliest, rows) && OnlyTicks(events)
    requires forall i :: 0 <= i < |events| ==> Slowest(events[i].tick)
    requires Sound(states[0], earliest, rows) && QuietBefore(rows, earliest)
    requires StartOf(states[0], earliest).Some? && 1 <= k < |states|
    ensures states[k].through == Some(DayByDay(StartOf(states[0], earliest).value, events, k))
  {
    var s, s' := states[k - 1], states[k];
    assert Step(s, events[k - 1], s', earliest, rows);
    if k > 1 {
      SlowestCursor(states, events, earliest, rows, k - 1);
      CursorAfter(states, events, earliest, rows, k - 1);
      ResumesAtCursor(s, earliest);
    }
    SlowestAdvance(s, s', events[k - 1].tick, earliest, rows);
  }

  /** The pace asked for is exact: refreshes with time for one day each reach the clock if and only if they keep it. */
  lemma SlowestCatchUpIff(states: seq<State>, events: seq<Event>, earliest: Option<int>, rows: RowsFor)
    requires Run(states, events, earliest, rows) && OnlyTicks(events) && events != []
    requires forall i :: 0 <= i < |events| ==> Slowest(events[i].tick)
    requires Sound(states[0], earliest, rows) && QuietBefore(rows, earliest) && StartOf(states[0], earliest).Some?
    ensures states[|states| - 1].through == Some(BucketOf(events[|events| - 1].tick.now))
            <==> KeepsPace(StartOf(states[0], earliest).value, events)
  {
    SlowestCursor(states, events, earliest, rows, |events|);
    PaceMeansCaughtUp(StartOf(states[0], earliest).value, events);
  }

  // ── The hypothesis on rows, discharged for the real rows ─────────

  ghost predicate From(intervals: seq<Interval>, earliest: Option<int>) {
    intervals == [] || (earliest.Some? && forall i :: 0 <= i < |intervals| ==> earliest.value <= intervals[i].ts)
  }

  ghost predicate SampledFrom(nodes: seq<Node>, earliest: Option<int>) {
    forall k :: 0 <= k < |nodes| ==> From(nodes[k].intervals, earliest)
  }

  lemma {:induction false} NoBucketBefore(intervals: seq<Interval>, idleFor: IdleFor, earliest: Option<int>, b: int)
    requires From(intervals, earliest) && Aligned(b) && (earliest.Some? ==> b < BucketOf(earliest.value))
    ensures Integrate(intervals, b, b + BUCKET_MS, idleFor) == []
  {
    if intervals != [] {
      NoBucketBefore(intervals[..|intervals| - 1], idleFor, earliest, b);
      assert earliest.value <= intervals[|intervals| - 1].ts;
    }
  }

  lemma NodeIsQuietBefore(n: Node, earliest: Option<int>, b: int)
    requires From(n.intervals, earliest) && Aligned(b) && (earliest.Some? ==> b < BucketOf(earliest.value))
    ensures At(BuiltNode(n, b, b + BUCKET_MS).buckets, b).None?
  {
    NoBucketBefore(n.intervals, n.idleFor, earliest, b);
    assert Graded([]) == [];
  }

  lemma NoMoreRows(nodes: seq<Node>, b: int)
    requires nodes != [] && At(BuiltNode(nodes[|nodes| - 1], b, b + BUCKET_MS).buckets, b).None?
    ensures NodesRows(Built(nodes, b, b + BUCKET_MS), b, []) == NodesRows(Built(nodes[..|nodes| - 1], b, b + BUCKET_MS), b, [])
  {
    assert Built(nodes, b, b + BUCKET_MS)[..|nodes| - 1] == Built(nodes[..|nodes| - 1], b, b + BUCKET_MS);
  }

  lemma {:induction false} NoNodeRowsBefore(nodes: seq<Node>, earliest: Option<int>, b: int)
    requires SampledFrom(nodes, earliest) && Aligned(b) && (earliest.Some? ==> b < BucketOf(earliest.value))
    ensures NodesRows(Built(nodes, b, b + BUCKET_MS), b, []) == NO_ROWS
  {
    if nodes != [] {
      NoNodeRowsBefore(nodes[..|nodes| - 1], earliest, b);
      NodeIsQuietBefore(nodes[|nodes| - 1], earliest, b);
      NoMoreRows(nodes, b);
    }
  }

  /** A from-scratch bucket before the first sample, without messages, is empty. */
  lemma RealRowsAreQuiet(nodes: seq<Node>, earliest: Option<int>)
    requires SampledFrom(nodes, earliest)
    ensures QuietBefore(FromScratch(nodes), earliest)
  {
    forall b | Aligned(b) && (earliest.Some? ==> b < BucketOf(earliest.value))
      ensures FromScratch(nodes)([], b) == NO_ROWS
    {
      NoNodeRowsBefore(nodes, earliest, b);
    }
  }
}
