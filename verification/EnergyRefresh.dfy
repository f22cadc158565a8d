/**
 * The incremental, budget-limited refresh of the energy tables (packages/core/energy-attribution.ts,
 * `refreshEnergyAttribution`): two cursors, late messages, and why skipping the rest is safe.
 */
module EnergyRefresh {
  import opened Wrappers
  import opened Seqs
  import opened EnergyBuckets
  import opened EnergyChunk

  const DAY_MS := 86400000
  const ENERGY_RULES_VERSION := 3

  /** The tables, the settings rows, and the messages ingested so far. */
  datatype State = State(table: Table, watermark: nat, through: Option<int>, rules: nat, msgs: seq<Message>)

  function MaxId(msgs: seq<Message>): nat {
    if msgs == [] then 0 else var m := MaxId(msgs[..|msgs| - 1]); if m < msgs[|msgs| - 1].id then msgs[|msgs| - 1].id else m
  }

  /** The messages an id watermark covers. */
  function UpTo(msgs: seq<Message>, wm: nat): seq<Message> {
    if msgs == [] then []
    else
      var rest := UpTo(msgs[..|msgs| - 1], wm);
      if msgs[|msgs| - 1].id <= wm then rest + [msgs[|msgs| - 1]] else rest
  }

  function Earlier(x: Option<int>, y: Option<int>): Option<int> {
    if x.None? then y else if y.None? || x.value <= y.value then x else y
  }

  /** The earliest timestamp among the messages past a watermark. */
  function EarliestAfter(msgs: seq<Message>, wm: nat): Option<int> {
    if msgs == [] then None
    else
      var rest, m := EarliestAfter(msgs[..|msgs| - 1], wm), msgs[|msgs| - 1];
      if m.id > wm then Earlier(rest, m.ts) else rest
  }

  // ── Where a refresh starts and how far it gets ───────────────────

  /** Rows built by older rules are recomputed: the cursors go. */
  function Cursors(s: State): (nat, Option<int>) {
    if s.rules < ENERGY_RULES_VERSION then (0, None) else (s.watermark, s.through)
  }

  function StartOf(s: State, earliest: Option<int>): Option<int> {
    var (wm, through) := Cursors(s);
    var base := if through.Some? then through
                else if earliest.Some? then Some(BucketOf(earliest.value))
                else None;
    var late := if MaxId(s.msgs) > wm then EarliestAfter(s.msgs, wm) else None;
    if late.Some? && (base.None? || late.value < base.value) then Some(BucketOf(late.value)) else base
  }

  function Lesser(x: int, y: int): int {
    if x <= y then x else y
  }

  function ChunkEnd(at: int, current: int, chunk: int): int {
    Lesser(at + chunk, current + BUCKET_MS)
  }

  /** Where the chunk loop stops when `left` more chunks fit in the budget after the next one. */
  function Reached(at: int, current: int, chunk: int, left: nat): int
    decreases left
  {
    if at > current then at
    else
      var end := ChunkEnd(at, current, chunk);
      if left == 0 then end else Reached(end, current, chunk, left - 1)
  }

  function ChunkMs(chunkDays: int): int {
    (if chunkDays < 1 then 1 else chunkDays) * DAY_MS
  }

  /** One refresh at clock `now` that had time for `fits` chunks and overran on the next. */
  datatype Tick = Tick(now: int, chunkDays: int, fits: nat)

  ghost predicate Refreshed(s: State, s': State, tick: Tick, earliest: Option<int>, rows: RowsFor) {
    var start, current := StartOf(s, earliest), BucketOf(tick.now);
    && s'.msgs == s.msgs
    && s'.watermark == MaxId(s.msgs)
    && s'.rules == (if s.rules < ENERGY_RULES_VERSION then ENERGY_RULES_VERSION else s.rules)
    && match start {
         case None => s'.through == Cursors(s).1 && s'.table == s.table
         case Some(f) =>
           var end := Reached(f, current, ChunkMs(tick.chunkDays), tick.fits);
           && s'.through == Some(Lesser(end, current))
           && Rebuilt(s.table, s'.table, f, end, Owned(rows, s.msgs))
       }
  }

  class Attribution {
    const tables: EnergyTables
    var watermark: nat
    var through: Option<int>
    var rules: nat
    var msgs: seq<Message>

    constructor (tables: EnergyTables)
      ensures this.tables == tables
      ensures Now() == State(tables.table, 0, None, 0, [])
    {
      this.tables := tables;
      watermark, through, rules, msgs := 0, None, 0, [];
    }

    ghost function Now(): State
      reads this, tables
    {
      State(tables.table, watermark, through, rules, msgs)
    }

    method Ingest(batch: seq<Message>)
      modifies this
      ensures Now() == old(Now()).(msgs := old(msgs) + batch)
    {
      msgs := msgs + batch;
    }

    /** Bring both tables up to date, a chunk at a time, until they reach the clock or the budget is spent. */
    method Refresh(nodes: seq<Node>, earliest: Option<int>, tick: Tick) returns (chunks: nat)
      requires through.Some? ==> Aligned(through.value)
      modifies this, tables
      ensures Refreshed(old(Now()), Now(), tick, earliest, FromScratch(nodes))
    {
      ghost var s := Now();
      var chunk, current, maxId := ChunkMs(tick.chunkDays), BucketOf(tick.now), MaxId(msgs);
      if rules < ENERGY_RULES_VERSION {
        through, watermark, rules := None, 0, ENERGY_RULES_VERSION;
      }
      var from := through;
      if from.None? && earliest.Some? {
        from := Some(BucketOf(earliest.value));
      }
      if maxId > watermark {
        var late := EarliestAfter(msgs, watermark);
        if late.Some? && (from.None? || late.value < from.value) {
          from := Some(BucketOf(late.value));
        }
      }
      assert from == StartOf(s, earliest);
      chunks := 0;
      if from.Some? {
        var end;
        ChunkIsAligned(tick.chunkDays);
        end, chunks := Sweep(nodes, from.value, current, chunk, tick.fits);
        through := Some(Lesser(end, current));
      }
      watermark := maxId;
    }

    /** The chunk loop. */
    method Sweep(nodes: seq<Node>, start: int, current: int, chunk: int, fits: nat) returns (at: int, chunks: nat)
      requires Aligned(start) && Aligned(current) && Aligned(chunk) && chunk > 0
      modifies tables
      ensures at == Reached(start, current, chunk, fits) && start <= at
      ensures Rebuilt(old(tables.table), tables.table, start, at, Owned(FromScratch(nodes), msgs))
    {
      ghost var rows := Owned(FromScratch(nodes), msgs);
      at, chunks := start, 0;
      while at <= current
        invariant Aligned(at) && start <= at && chunks <= fits
        invariant Reached(start, current, chunk, fits) == Reached(at, current, chunk, fits - chunks)
        invariant Rebuilt(old(tables.table), tables.table, start, at, rows)
        decreases current + BUCKET_MS - at
      {
        var end := ChunkEnd(at, current, chunk);
        ghost var t := tables.table;
        ChunkStep(at, current, chunk, fits - chunks);
        tables.BuildEnergyChunk(nodes, msgs, at, end);
        RebuiltOnwards(old(tables.table), t, tables.table, start, at, end, rows);
        at, chunks := end, chunks + 1;
        if chunks > fits { break; }
      }
    }
  }

  lemma ChunkStep(at: int, current: int, chunk: int, left: nat)
    requires Aligned(at) && Aligned(current) && Aligned(chunk) && chunk > 0 && at <= current
    ensures var end := ChunkEnd(at, current, chunk);
            && at < end <= current + BUCKET_MS && Aligned(end)
            && Reached(at, current, chunk, left) == if left == 0 then end else Reached(end, current, chunk, left - 1)
  {
  }

  lemma ChunkIsAligned(chunkDays: int)
    ensures Aligned(ChunkMs(chunkDays)) && ChunkMs(chunkDays) >= DAY_MS
  {
    var n := if chunkDays < 1 then 1 else chunkDays;
    assert n * DAY_MS == n * 96 * BUCKET_MS;
  }
}
