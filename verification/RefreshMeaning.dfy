/**
 * One refresh of the energy tables in numbers: where it starts, how far it gets, what it leaves behind
 * (packages/core/energy-attribution.ts, `refreshEnergyAttribution`).
 */
module RefreshMeaning {
  import opened Wrappers
  import opened EnergyBuckets
  import opened EnergyChunk
  import opened EnergyRefresh

  /** The start of a quarter hour, and an instant in it. */
  predicate QuarterOf(f: int, ts: int) {
    f % 900000 == 0 && f <= ts < f + 900000
  }

  /** Built by rules older than the third: the cursors go. */
  predicate Outdated(s: State) {
    s.rules < 3
  }

  /** A message the last refresh had not seen, at a known time. */
  predicate IsNews(s: State, m: Message) {
    m in s.msgs && m.id > (if Outdated(s) then 0 else s.watermark) && m.ts.Some?
  }

  /** Where a refresh starts without any news: where the last one stopped, or at the quarter hour of the first sample. */
  predicate IsBase(s: State, earliest: Option<int>, base: Option<int>) {
    if !Outdated(s) && s.through.Some? then base == s.through
    else if earliest.Some? then base.Some? && QuarterOf(base.value, earliest.value)
    else base.None?
  }

  ghost predicate NoNewsBefore(s: State, t: int) {
    forall m :: IsNews(s, m) ==> t <= m.ts.value
  }

  /** It starts there, or, when older news came, at the quarter hour of the oldest. */
  ghost predicate IsStart(s: State, base: Option<int>, start: Option<int>) {
    || (start == base && (base.Some? ==> NoNewsBefore(s, base.value)) && (base.None? ==> forall m :: !IsNews(s, m)))
    || (exists m :: IsNews(s, m) && NoNewsBefore(s, m.ts.value) && (base.Some? ==> m.ts.value < base.value)
                    && start.Some? && QuarterOf(start.value, m.ts.value))
  }

  lemma QuarterIs(ts: int)
    ensures QuarterOf(BucketOf(ts), ts)
  {
  }

  lemma {:induction false} EarliestAfterIs(msgs: seq<Message>, wm: nat)
    ensures var e := EarliestAfter(msgs, wm);
            && (e.None? <==> forall m :: m in msgs ==> m.id <= wm || m.ts.None?)
            && (e.Some? ==> (exists m :: m in msgs && m.id > wm && m.ts == e)
                            && forall m :: m in msgs && m.id > wm && m.ts.Some? ==> e.value <= m.ts.value)
  {
    if msgs != [] {
      var init, last := msgs[..|msgs| - 1], msgs[|msgs| - 1];
      EarliestAfterIs(init, wm);
      assert msgs == init + [last];
      var e := EarliestAfter(msgs, wm);
      if e.Some? && e != EarliestAfter(init, wm) {
        assert last in msgs && last.id > wm && last.ts == e;
      } else if e.Some? {
        var m :| m in init && m.id > wm && m.ts == e;
        assert m in msgs;
      }
    }
  }

  lemma {:induction false} MaxIdIs(msgs: seq<Message>)
    ensures forall m :: m in msgs ==> m.id <= MaxId(msgs)
    ensures MaxId(msgs) > 0 ==> exists m :: m in msgs && m.id == MaxId(msgs)
  {
    if msgs != [] {
      var init, last := msgs[..|msgs| - 1], msgs[|msgs| - 1];
      MaxIdIs(init);
      assert msgs == init + [last];
      if MaxId(msgs) == last.id {
        assert last in msgs;
      } else {
        var m :| m in init && m.id == MaxId(init);
        assert m in msgs;
      }
    }
  }

  lemma StartIs(s: State, earliest: Option<int>, base: Option<int>)
    requires (s.through.Some? ==> s.through.value % 900000 == 0) && IsBase(s, earliest, base)
    ensures IsStart(s, base, StartOf(s, earliest))
  {
    var wm := if Outdated(s) then 0 else s.watermark;
    MaxIdIs(s.msgs);
    EarliestAfterIs(s.msgs, wm);
    if earliest.Some? { QuarterIs(earliest.value); }
    var late := EarliestAfter(s.msgs, wm);
    if late.Some? {
      var m :| m in s.msgs && m.id > wm && m.ts == late;
      QuarterIs(late.value);
      assert IsNews(s, m);
      assert NoNewsBefore(s, m.ts.value);
    }
  }

  lemma Times(n: nat, chunk: int)
    ensures (n + 1) * chunk == n * chunk + chunk
  {
  }

  /** Every chunk that fits and the one that overran, but no further than the clock's own quarter hour. */
  lemma {:induction false} ReachedIs(at: int, current: int, chunk: int, left: nat)
    requires at % 900000 == 0 && current % 900000 == 0 && chunk % 900000 == 0 && chunk > 0
    ensures Reached(at, current, chunk, left)
            == if at > current then at
               else if at + (left + 1) * chunk <= current + 900000 then at + (left + 1) * chunk
               else current + 900000
    decreases left
  {
    if at <= current && left > 0 {
      var end := ChunkEnd(at, current, chunk);
      ChunkEndIsWhole(at, current, chunk);
      ReachedIs(end, current, chunk, left - 1);
      Times(left, chunk);
      MoreChunks(left, chunk);
    }
  }

  lemma MoreChunks(left: nat, chunk: int)
    requires left > 0 && chunk > 0
    ensures (left + 1) * chunk > chunk && left * chunk >= chunk
  {
  }

  lemma ChunkEndIsWhole(at: int, current: int, chunk: int)
    requires at % 900000 == 0 && current % 900000 == 0 && chunk % 900000 == 0
    ensures at + chunk <= current ==> ChunkEnd(at, current, chunk) == at + chunk
    ensures at + chunk > current ==> ChunkEnd(at, current, chunk) == current + 900000
    ensures ChunkEnd(at, current, chunk) % 900000 == 0
  {
  }

  /** What a refresh that started at `f` rebuilt and where it says it got: never past the clock's quarter hour, which is still filling. */
  ghost predicate GotTo(s: State, s': State, tick: Tick, f: int, current: int, rows: RowsFor) {
    var chunk := if tick.chunkDays < 1 then 86400000 else tick.chunkDays * 86400000;
    var most := f + (tick.fits + 1) * chunk;
    var end := if f > current then f else if most <= current + 900000 then most else current + 900000;
    s'.through == Some(if end <= current then end else current) && Rebuilt(s.table, s'.table, f, end, Owned(rows, s.msgs))
  }

  /** The new watermark is the greatest id there is. */
  ghost predicate SeesAll(msgs: seq<Message>, wm: nat) {
    (forall m :: m in msgs ==> m.id <= wm) && (wm > 0 ==> exists m :: m in msgs && m.id == wm)
  }

  lemma ChunkIs(chunkDays: int)
    ensures ChunkMs(chunkDays) == if chunkDays < 1 then 86400000 else chunkDays * 86400000
    ensures ChunkMs(chunkDays) % 900000 == 0 && ChunkMs(chunkDays) > 0
  {
    ChunkIsAligned(chunkDays);
  }

  lemma StartIsWhole(s: State, earliest: Option<int>)
    requires s.through.Some? ==> s.through.value % 900000 == 0
    ensures StartOf(s, earliest).Some? ==> StartOf(s, earliest).value % 900000 == 0
  {
  }

  lemma GotToIs(s: State, s': State, tick: Tick, f: int, current: int, rows: RowsFor)
    requires f % 900000 == 0 && current == BucketOf(tick.now)
    requires var end := Reached(f, current, ChunkMs(tick.chunkDays), tick.fits);
             s'.through == Some(Lesser(end, current)) && Rebuilt(s.table, s'.table, f, end, Owned(rows, s.msgs))
    ensures GotTo(s, s', tick, f, current, rows)
  {
    ChunkIs(tick.chunkDays);
    ReachedIs(f, current, ChunkMs(tick.chunkDays), tick.fits);
  }

  lemma SameQuarter(current: int, now: int)
    requires QuarterOf(current, now)
    ensures current == BucketOf(now)
  {
  }

  /** All a refresh does, in numbers. */
  lemma RefreshMeans(s: State, s': State, tick: Tick, earliest: Option<int>, rows: RowsFor, base: Option<int>, current: int)
    requires Refreshed(s, s', tick, earliest, rows) && (s.through.Some? ==> s.through.value % 900000 == 0)
    requires IsBase(s, earliest, base) && QuarterOf(current, tick.now)
    ensures s'.msgs == s.msgs && SeesAll(s.msgs, s'.watermark) && s'.rules == (if s.rules < 3 then 3 else s.rules)
    ensures exists start :: IsStart(s, base, start)
              && match start
                 case None => s'.table == s.table && s'.through.None?
                 case Some(f) => GotTo(s, s', tick, f, current, rows)
  {
    MaxIdIs(s.msgs);
    StartIs(s, earliest, base);
    StartIsWhole(s, earliest);
    SameQuarter(current, tick.now);
    var start := StartOf(s, earliest);
    if start.Some? { GotToIs(s, s', tick, start.value, current, rows); }
  }
}
