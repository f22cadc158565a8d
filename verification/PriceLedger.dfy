/**
 * The append-only price book (packages/core/pricing-sync.ts): what one sync writes, and what every
 * run of syncs keeps.
 */
module PriceLedger {
  import opened Wrappers
  import opened Seqs

  datatype Source = OpenRouter | ModelsDev | LiteLlm | LlmPrices | Nous

  /** Dollars per million tokens. */
  datatype Price = Price(input: real, output: real, cacheRead: real, cacheWrite: real)

  datatype About = About(displayName: Option<string>, contextLen: Option<int>, releasedOn: Option<string>)

  /** One row of `model_price_ledger`. Times are unix seconds. */
  datatype Row = Row(
    source: Source, modelId: string, about: About, price: Price, effectiveFrom: int, effectiveTo: Option<int>,
    lastSeenAt: int, delistedAt: Option<int>, runId: nat)

  datatype Upstream = Upstream(id: string, about: About, price: Price)

  datatype PriceChange = PriceChange(source: Source, modelId: string, oldPrice: Option<Price>, newPrice: Price)

  datatype SyncResult = SyncResult(
    ok: bool, models: nat, added: nat, changed: nat, unmoved: nat, delisted: nat,
    changes: seq<PriceChange>, error: Option<string>)

  /** One row of `pricing_sync_runs`; its position is its id. */
  datatype RunRecord = RunRecord(source: Source, startedAt: int, finishedAt: int, result: SyncResult)

  // ── Money ────────────────────────────────────────────────────────

  function Abs(x: real): real {
    if x < 0.0 then -x else x
  }

  function Max(x: real, y: real): real {
    if x < y then y else x
  }

  predicate CloseTo(x: real, y: real) {
    Abs(x - y) <= 0.000000001 * Max(1.0, Max(Abs(x), Abs(y)))
  }

  predicate SamePrice(a: Price, b: Price) {
    CloseTo(a.input, b.input) && CloseTo(a.output, b.output)
    && CloseTo(a.cacheRead, b.cacheRead) && CloseTo(a.cacheWrite, b.cacheWrite)
  }

  /** The book below works with any notion of "the same price"; the code's is `SamePrice`. */
  type SamePriceTest = (Price, Price) -> bool

  // ── What a sync does to the book, as a function of the old book ──

  predicate IsOpen(row: Row, source: Source) {
    row.source == source && row.effectiveTo.None?
  }

  /** The open row of an id, if it has one. */
  function OpenRow(rows: seq<Row>, source: Source, id: string): Option<Row> {
    if rows == [] then None
    else
      var last := rows[|rows| - 1];
      if IsOpen(last, source) && last.modelId == id then Some(last) else OpenRow(rows[..|rows| - 1], source, id)
  }

  /** A feed that lists an id twice means its first listing. */
  function Listing(feed: seq<Upstream>, id: string): Option<Upstream> {
    if feed == [] then None
    else
      var earlier, last := Listing(feed[..|feed| - 1], id), feed[|feed| - 1];
      if earlier.Some? then earlier else if last.id == id then Some(last) else None
  }

  function OrElse<T>(a: Option<T>, b: Option<T>): Option<T> {
    if a.Some? then a else b
  }

  /** A feed that stops naming a column keeps the old value. */
  function Refresh(older: About, newer: About): About {
    About(OrElse(newer.displayName, older.displayName), OrElse(newer.contextLen, older.contextLen),
          OrElse(newer.releasedOn, older.releasedOn))
  }

  function Confirm(row: Row, r: Upstream, now: int): Row {
    row.(lastSeenAt := now, about := Refresh(row.about, r.about), delistedAt := None)
  }

  function Close(row: Row, now: int): Row {
    row.(effectiveTo := Some(now), lastSeenAt := now)
  }

  function Delist(row: Row, now: int): Row {
    if row.delistedAt.None? then row.(delistedAt := Some(now)) else row
  }

  /** An old row after the feed has been booked: confirmed, closed, or left alone. */
  function BookedRow(same: SamePriceTest, row: Row, source: Source, feed: seq<Upstream>, now: int): Row {
    var r := Listing(feed, row.modelId);
    if !IsOpen(row, source) || r.None? then row
    else if same(row.price, r.value.price) then Confirm(row, r.value, now)
    else Close(row, now)
  }

  function SyncedRow(same: SamePriceTest, row: Row, source: Source, feed: seq<Upstream>, now: int): (r: Row)
    ensures r.source == row.source && r.modelId == row.modelId && r.price == row.price
    ensures r.effectiveFrom == row.effectiveFrom && r.runId == row.runId
    ensures r.effectiveTo == row.effectiveTo || (row.effectiveTo.None? && r.effectiveTo == Some(now))
    ensures !IsOpen(row, source) ==> r == row
  {
    if IsOpen(row, source) && Listing(feed, row.modelId).None? then Delist(row, now)
    else BookedRow(same, row, source, feed, now)
  }

  datatype Fate = Added | Changed | Unchanged

  function FateOf(same: SamePriceTest, rows: seq<Row>, source: Source, r: Upstream): Fate {
    var prev := OpenRow(rows, source, r.id);
    if prev.None? then Added else if same(prev.value.price, r.price) then Unchanged else Changed
  }

  function NewRow(source: Source, r: Upstream, now: int, runId: nat): Row {
    Row(source, r.id, r.about, r.price, now, None, now, None, runId)
  }

  /** The rows a sync opens, in feed order: one for each listed id that is new or changed its price. */
  function NewRows(same: SamePriceTest, rows: seq<Row>, source: Source, feed: seq<Upstream>, now: int, runId: nat): seq<Row> {
    if feed == [] then []
    else
      var init, last := feed[..|feed| - 1], feed[|feed| - 1];
      NewRows(same, rows, source, init, now, runId)
      + (if Listing(init, last.id).None? && FateOf(same, rows, source, last) != Unchanged
         then [NewRow(source, last, now, runId)] else [])
  }

  function SyncedRows(same: SamePriceTest, rows: seq<Row>, source: Source, feed: seq<Upstream>, now: int): (r: seq<Row>)
    ensures |r| == |rows| && forall i :: 0 <= i < |rows| ==> r[i] == SyncedRow(same, rows[i], source, feed, now)
  {
    seq(|rows|, i requires 0 <= i < |rows| => SyncedRow(same, rows[i], source, feed, now))
  }

  function BookedRows(same: SamePriceTest, rows: seq<Row>, source: Source, feed: seq<Upstream>, now: int): (r: seq<Row>)
    ensures |r| == |rows| && forall i :: 0 <= i < |rows| ==> r[i] == BookedRow(same, rows[i], source, feed, now)
  {
    seq(|rows|, i requires 0 <= i < |rows| => BookedRow(same, rows[i], source, feed, now))
  }

  function Sync(same: SamePriceTest, rows: seq<Row>, source: Source, feed: seq<Upstream>, now: int, runId: nat): seq<Row> {
    SyncedRows(same, rows, source, feed, now) + NewRows(same, rows, source, feed, now, runId)
  }

  // ── What a sync reports ──────────────────────────────────────────

  function FeedIds(feed: seq<Upstream>): set<string> {
    set r | r in feed :: r.id
  }

  /** The fate of each listing against the old book. */
  function Fates(same: SamePriceTest, rows: seq<Row>, source: Source): Upstream -> Fate {
    (r: Upstream) => FateOf(same, rows, source, r)
  }

  /** The distinct ids of a feed whose first listing meets a given fate. */
  function IdsWith(fates: Upstream -> Fate, feed: seq<Upstream>, fate: Fate): set<string> {
    if feed == [] then {}
    else
      var init, last := feed[..|feed| - 1], feed[|feed| - 1];
      IdsWith(fates, init, fate) + if Listing(init, last.id).None? && fates(last) == fate then {last.id} else {}
  }

  function DelistedIds(rows: seq<Row>, source: Source, feed: seq<Upstream>): seq<string> {
    if rows == [] then []
    else
      var rest, last := DelistedIds(rows[..|rows| - 1], source, feed), rows[|rows| - 1];
      if IsOpen(last, source) && Listing(feed, last.modelId).None? && last.delistedAt.None?
      then rest + [last.modelId] else rest
  }

  function ChangeOf(rows: seq<Row>, source: Source, added: Row): PriceChange {
    var prev := OpenRow(rows, source, added.modelId);
    PriceChange(source, added.modelId, if prev.Some? then Some(prev.value.price) else None, added.price)
  }

  // ── The code ─────────────────────────────────────────────────────

  /** The schema's partial unique index: at most one open row per source and id. */
  ghost predicate UniqueOpen(rows: seq<Row>) {
    forall i, j :: 0 <= i < j < |rows| && rows[i].effectiveTo.None? && rows[j].effectiveTo.None?
      ==> rows[i].source != rows[j].source || rows[i].modelId != rows[j].modelId
  }

  /** `open` maps each id of a source to the position of its open row. */
  ghost predicate Indexes(open: map<string, nat>, rows: seq<Row>, source: Source) {
    && (forall id :: id in open ==> open[id] < |rows| && IsOpen(rows[open[id]], source) && rows[open[id]].modelId == id)
    && (forall i :: 0 <= i < |rows| && IsOpen(rows[i], source) ==> rows[i].modelId in open && open[rows[i].modelId] == i)
  }

  lemma {:induction false} ListingIsAMember(feed: seq<Upstream>, id: string)
    ensures Listing(feed, id).Some? <==> id in FeedIds(feed)
    ensures Listing(feed, id).Some? ==> Listing(feed, id).value in feed && Listing(feed, id).value.id == id
  {
    if feed != [] {
      ListingIsAMember(feed[..|feed| - 1], id);
      assert feed == feed[..|feed| - 1] + [feed[|feed| - 1]];
    }
  }

  lemma FeedIdsAppend(feed: seq<Upstream>, r: Upstream)
    ensures FeedIds(feed + [r]) == FeedIds(feed) + {r.id}
  {
    assert forall x :: x in feed + [r] <==> x in feed || x == r;
  }

  lemma ListingAppend(feed: seq<Upstream>, r: Upstream, id: string)
    ensures Listing(feed + [r], id) == if Listing(feed, id).Some? then Listing(feed, id)
                                       else if r.id == id then Some(r) else None
  {
    assert (feed + [r])[..|feed|] == feed;
  }

  lemma IndexFindsOpenRow(open: map<string, nat>, rows: seq<Row>, source: Source, id: string)
    requires Indexes(open, rows, source)
    ensures OpenRow(rows, source, id) == if id in open then Some(rows[open[id]]) else None
  {
    OpenRowIsTheOpenOne(rows, source, id);
  }

  lemma {:induction false} OpenRowIsTheOpenOne(rows: seq<Row>, source: Source, id: string)
    ensures var o := OpenRow(rows, source, id);
            if o.Some? then exists i :: 0 <= i < |rows| && rows[i] == o.value && IsOpen(rows[i], source) && rows[i].modelId == id
            else forall i :: 0 <= i < |rows| ==> !(IsOpen(rows[i], source) && rows[i].modelId == id)
  {
    if rows != [] {
      var n := |rows| - 1;
      OpenRowIsTheOpenOne(rows[..n], source, id);
      if !(IsOpen(rows[n], source) && rows[n].modelId == id) {
        if OpenRow(rows[..n], source, id).Some? {
          var i :| 0 <= i < n && rows[..n][i] == OpenRow(rows[..n], source, id).value
                   && IsOpen(rows[..n][i], source) && rows[..n][i].modelId == id;
          assert rows[i] == rows[..n][i];
        } else {
          forall i | 0 <= i < |rows| ensures !(IsOpen(rows[i], source) && rows[i].modelId == id) {
            if i < n { assert rows[..n][i] == rows[i]; }
          }
        }
      }
    }
  }

  lemma NewRowsAppend(same: SamePriceTest, rows: seq<Row>, source: Source, feed: seq<Upstream>, r: Upstream, now: int, runId: nat)
    ensures NewRows(same, rows, source, feed + [r], now, runId)
            == NewRows(same, rows, source, feed, now, runId)
               + (if Listing(feed, r.id).None? && FateOf(same, rows, source, r) != Unchanged
                  then [NewRow(source, r, now, runId)] else [])
  {
    assert (feed + [r])[..|feed|] == feed;
  }

  lemma {:induction false} IdsWithMembers(fates: Upstream -> Fate, feed: seq<Upstream>, fate: Fate, id: string)
    ensures id in IdsWith(fates, feed, fate) <==> Listing(feed, id).Some? && fates(Listing(feed, id).value) == fate
  {
    if feed != [] {
      IdsWithMembers(fates, feed[..|feed| - 1], fate, id);
    }
  }

  lemma OneMoreCount(fates: Upstream -> Fate, feed: seq<Upstream>, r: Upstream, fate: Fate)
    ensures |IdsWith(fates, feed + [r], fate)|
            == |IdsWith(fates, feed, fate)| + if Listing(feed, r.id).None? && fates(r) == fate then 1 else 0
  {
    assert (feed + [r])[..|feed|] == feed;
    IdsWithMembers(fates, feed, fate, r.id);
  }

  datatype Tally = Tally(added: nat, changed: nat, unmoved: nat)

  function Bump(t: Tally, fate: Fate): Tally {
    match fate
    case Added => t.(added := t.added + 1)
    case Changed => t.(changed := t.changed + 1)
    case Unchanged => t.(unmoved := t.unmoved + 1)
  }

  function TallyOf(fates: Upstream -> Fate, feed: seq<Upstream>): Tally {
    Tally(|IdsWith(fates, feed, Added)|, |IdsWith(fates, feed, Changed)|, |IdsWith(fates, feed, Unchanged)|)
  }

  lemma OneMoreFate(fates: Upstream -> Fate, feed: seq<Upstream>, r: Upstream)
    ensures TallyOf(fates, feed + [r])
            == if Listing(feed, r.id).Some? then TallyOf(fates, feed) else Bump(TallyOf(fates, feed), fates(r))
  {
    OneMoreCount(fates, feed, r, Added);
    OneMoreCount(fates, feed, r, Changed);
    OneMoreCount(fates, feed, r, Unchanged);
  }

  function ChangesOf(rows: seq<Row>, source: Source, opening: seq<Row>): (changes: seq<PriceChange>)
    ensures |changes| == |opening|
    ensures forall k :: 0 <= k < |opening| ==> changes[k] == ChangeOf(rows, source, opening[k])
  {
    seq(|opening|, k requires 0 <= k < |opening| => ChangeOf(rows, source, opening[k]))
  }

  /** Added, changed and unchanged partition the distinct ids of the feed. */
  lemma FatesPartitionTheFeed(fates: Upstream -> Fate, feed: seq<Upstream>)
    ensures |IdsWith(fates, feed, Added)| + |IdsWith(fates, feed, Changed)| + |IdsWith(fates, feed, Unchanged)|
            == |FeedIds(feed)|
  {
    var a, c, u := IdsWith(fates, feed, Added), IdsWith(fates, feed, Changed), IdsWith(fates, feed, Unchanged);
    forall id ensures id in FeedIds(feed) <==> id in a + c + u {
      ListingIsAMember(feed, id);
      IdsWithMembers(fates, feed, Added, id);
      IdsWithMembers(fates, feed, Changed, id);
      IdsWithMembers(fates, feed, Unchanged, id);
    }
    forall id ensures id !in a * c && id !in (a + c) * u {
      IdsWithMembers(fates, feed, Added, id);
      IdsWithMembers(fates, feed, Changed, id);
      IdsWithMembers(fates, feed, Unchanged, id);
    }
    assert a + c + u == FeedIds(feed);
    assert a * c == {} && (a + c) * u == {};
  }

  function Settle(same: SamePriceTest, row: Row, r: Upstream, now: int): Row {
    if same(row.price, r.price) then Confirm(row, r, now) else Close(row, now)
  }

  lemma BookedRowAppend(same: SamePriceTest, row: Row, source: Source, feed: seq<Upstream>, r: Upstream, now: int)
    ensures BookedRow(same, row, source, feed + [r], now)
            == if IsOpen(row, source) && row.modelId == r.id && Listing(feed, r.id).None? then Settle(same, row, r, now)
               else BookedRow(same, row, source, feed, now)
    ensures IsOpen(row, source) && Listing(feed, row.modelId).None? ==> BookedRow(same, row, source, feed, now) == row
  {
    ListingAppend(feed, r, row.modelId);
  }

  lemma SameExceptAt<T>(a: seq<T>, b: seq<T>, at: nat)
    requires |a| == |b| && at < |a| && forall i :: 0 <= i < |a| && i != at ==> b[i] == a[i]
    ensures b == a[at := b[at]]
  {
  }

  lemma SameEverywhere<T>(a: seq<T>, b: seq<T>)
    requires |a| == |b| && forall i :: 0 <= i < |a| ==> b[i] == a[i]
    ensures b == a
  {
  }

  /** Booking one more, first-time listing touches the open row of its id and no other. */
  lemma BookOneMoreRow(same: SamePriceTest, was: seq<Row>, source: Source, feed: seq<Upstream>, r: Upstream,
                       open: map<string, nat>, now: int, i: nat)
    requires Indexes(open, was, source) && Listing(feed, r.id).None? && i < |was|
    ensures BookedRow(same, was[i], source, feed + [r], now)
            == if r.id in open && open[r.id] == i then Settle(same, was[i], r, now) else BookedRow(same, was[i], source, feed, now)
    ensures r.id in open && open[r.id] == i ==> BookedRow(same, was[i], source, feed, now) == was[i]
  {
    BookedRowAppend(same, was[i], source, feed, r, now);
  }

  lemma BookOneMore(same: SamePriceTest, was: seq<Row>, source: Source, feed: seq<Upstream>, r: Upstream,
                    open: map<string, nat>, now: int)
    requires Indexes(open, was, source) && Listing(feed, r.id).None?
    ensures r.id in open ==> BookedRows(same, was, source, feed, now)[open[r.id]] == was[open[r.id]]
    ensures BookedRows(same, was, source, feed + [r], now)
            == if r.id in open
               then BookedRows(same, was, source, feed, now)[open[r.id] := Settle(same, was[open[r.id]], r, now)]
               else BookedRows(same, was, source, feed, now)
  {
    var a, b := BookedRows(same, was, source, feed, now), BookedRows(same, was, source, feed + [r], now);
    if r.id in open {
      var at := open[r.id];
      BookOneMoreRow(same, was, source, feed, r, open, now, at);
      forall i | 0 <= i < |was| && i != at ensures b[i] == a[i] { BookOneMoreRow(same, was, source, feed, r, open, now, i); }
      SameExceptAt(a, b, at);
    } else {
      forall i | 0 <= i < |was| ensures b[i] == a[i] { BookOneMoreRow(same, was, source, feed, r, open, now, i); }
      SameEverywhere(a, b);
    }
  }

  /** One listing in place: the open row is settled, and unless the price held a new row is appended. */
  function ListingEffect(same: SamePriceTest, rows: seq<Row>, source: Source, r: Upstream, prev: Option<nat>, fate: Fate,
                         now: int, runId: nat): seq<Row>
    requires prev.Some? ==> prev.value < |rows|
  {
    (if prev.Some? then rows[prev.value := Settle(same, rows[prev.value], r, now)] else rows)
    + (if fate != Unchanged then [NewRow(source, r, now, runId)] else [])
  }

  lemma UpdateThenAppend<T>(a: seq<T>, b: seq<T>, at: nat, x: T, tail: seq<T>)
    requires at < |a|
    ensures (a + b)[at := x] + tail == a[at := x] + (b + tail)
  {
  }

  lemma AppendTwice<T>(a: seq<T>, b: seq<T>, tail: seq<T>)
    ensures a + b + tail == a + (b + tail)
  {
  }

  /** Booking a first-time listing in place is booking it in the declarative picture of the book. */
  lemma ListingStep(same: SamePriceTest, was: seq<Row>, source: Source, feed: seq<Upstream>, r: Upstream,
                    open: map<string, nat>, now: int, runId: nat)
    requires Indexes(open, was, source) && Listing(feed, r.id).None?
    ensures var prev := if r.id in open then Some(open[r.id]) else None;
            var booked, opening := BookedRows(same, was, source, feed, now), NewRows(same, was, source, feed, now, runId);
            && (prev.Some? ==> (booked + opening)[prev.value] == was[prev.value])
            && ListingEffect(same, booked + opening, source, r, prev, FateOf(same, was, source, r), now, runId)
               == BookedRows(same, was, source, feed + [r], now) + NewRows(same, was, source, feed + [r], now, runId)
  {
    BookOneMore(same, was, source, feed, r, open, now);
    NewRowsAppend(same, was, source, feed, r, now, runId);
    var booked, opening := BookedRows(same, was, source, feed, now), NewRows(same, was, source, feed, now, runId);
    var tail := if FateOf(same, was, source, r) != Unchanged then [NewRow(source, r, now, runId)] else [];
    if r.id in open {
      UpdateThenAppend(booked, opening, open[r.id], Settle(same, was[open[r.id]], r, now), tail);
    } else {
      AppendTwice(booked, opening, tail);
    }
  }

  lemma ChangesStep(same: SamePriceTest, was: seq<Row>, source: Source, feed: seq<Upstream>, r: Upstream, now: int, runId: nat)
    ensures ChangesOf(was, source, NewRows(same, was, source, feed + [r], now, runId))
            == ChangesOf(was, source, NewRows(same, was, source, feed, now, runId))
               + (if Listing(feed, r.id).None? && FateOf(same, was, source, r) != Unchanged
                  then [ChangeOf(was, source, NewRow(source, r, now, runId))] else [])
  {
    NewRowsAppend(same, was, source, feed, r, now, runId);
  }

  lemma BookRepeat(same: SamePriceTest, was: seq<Row>, source: Source, feed: seq<Upstream>, r: Upstream, now: int)
    requires Listing(feed, r.id).Some?
    ensures BookedRows(same, was, source, feed + [r], now) == BookedRows(same, was, source, feed, now)
  {
    forall i | 0 <= i < |was| ensures Listing(feed + [r], was[i].modelId) == Listing(feed, was[i].modelId) {
      ListingAppend(feed, r, was[i].modelId);
    }
  }

  datatype Attempt = Attempt(source: Source, feed: Result<seq<Upstream>, string>, now: int)

  /** A run is reported ok exactly when its fetch brought rows, and then accounts for every distinct id. */
  predicate Reported(result: SyncResult, a: Attempt) {
    && (result.ok <==> a.feed.Success? && a.feed.value != [])
    && (result.ok ==> result.added + result.changed + result.unmoved == |FeedIds(a.feed.value)|)
    && (!result.ok ==> result.error.Some?)
  }

  /** How far the listing loop has come: the listings `done`, and everything it has written about them. */
  ghost predicate Progress(same: SamePriceTest, was: seq<Row>, source: Source, done: seq<Upstream>, now: int, runId: nat,
                           rows: seq<Row>, seen: set<string>, tally: Tally, changes: seq<PriceChange>)
  {
    && seen == FeedIds(done)
    && rows == BookedRows(same, was, source, done, now) + NewRows(same, was, source, done, now, runId)
    && tally == TallyOf(Fates(same, was, source), done)
    && changes == ChangesOf(was, source, NewRows(same, was, source, done, now, runId))
  }

  lemma ProgressStarts(same: SamePriceTest, was: seq<Row>, source: Source, now: int, runId: nat)
    ensures Progress(same, was, source, [], now, runId, was, {}, Tally(0, 0, 0), [])
  {
    assert BookedRows(same, was, source, [], now) == was && was + [] == was;
  }

  lemma RepeatAddsNothing(same: SamePriceTest, was: seq<Row>, source: Source, done: seq<Upstream>, r: Upstream, now: int, runId: nat)
    requires Listing(done, r.id).Some?
    ensures NewRows(same, was, source, done + [r], now, runId) == NewRows(same, was, source, done, now, runId)
    ensures TallyOf(Fates(same, was, source), done + [r]) == TallyOf(Fates(same, was, source), done)
    ensures FeedIds(done + [r]) == FeedIds(done)
  {
    NewRowsAppend(same, was, source, done, r, now, runId);
    OneMoreFate(Fates(same, was, source), done, r);
    FeedIdsAppend(done, r);
    ListingIsAMember(done, r.id);
  }

  lemma ProgressSkipsRepeat(same: SamePriceTest, was: seq<Row>, source: Source, done: seq<Upstream>, r: Upstream, now: int,
                            runId: nat, rows: seq<Row>, seen: set<string>, tally: Tally, changes: seq<PriceChange>)
    requires Progress(same, was, source, done, now, runId, rows, seen, tally, changes) && r.id in seen
    ensures Progress(same, was, source, done + [r], now, runId, rows, seen, tally, changes)
  {
    ListingIsAMember(done, r.id);
    RepeatAddsNothing(same, was, source, done, r, now, runId);
    BookRepeat(same, was, source, done, r, now);
  }

  lemma ProgressBooksListing(same: SamePriceTest, was: seq<Row>, source: Source, done: seq<Upstream>, r: Upstream, now: int,
                             runId: nat, rows: seq<Row>, seen: set<string>, tally: Tally, changes: seq<PriceChange>,
                             open: map<string, nat>)
    requires Progress(same, was, source, done, now, runId, rows, seen, tally, changes) && r.id !in seen
    requires Indexes(open, was, source)
    ensures var prev := if r.id in open then Some(open[r.id]) else None;
            var fate := FateOf(same, was, source, r);
            && (prev.Some? ==> prev.value < |was| <= |rows| && rows[prev.value] == was[prev.value])
            && fate == (if prev.None? then Added else if same(was[prev.value].price, r.price) then Unchanged else Changed)
            && Progress(same, was, source, done + [r], now, runId,
                        ListingEffect(same, rows, source, r, prev, fate, now, runId), seen + {r.id}, Bump(tally, fate),
                        if fate == Unchanged then changes
                        else changes + [PriceChange(source, r.id, if prev.Some? then Some(was[prev.value].price) else None, r.price)])
  {
    ListingIsAMember(done, r.id);
    FeedIdsAppend(done, r);
    OneMoreFate(Fates(same, was, source), done, r);
    ChangesStep(same, was, source, done, r, now, runId);
    ListingStep(same, was, source, done, r, open, now, runId);
    IndexFindsOpenRow(open, was, source, r.id);
  }

  /** The book while ids no longer listed are being stamped: the first `k` rows are as the sync leaves them. */
  ghost predicate DelistedUpTo(same: SamePriceTest, before: seq<Row>, source: Source, feed: seq<Upstream>, now: int,
                               booked: seq<Row>, rows: seq<Row>, k: nat)
    requires k <= |before| <= |booked|
  {
    && |rows| == |booked| && rows[|before|..] == booked[|before|..]
    && (forall j :: 0 <= j < k ==> rows[j] == SyncedRow(same, before[j], source, feed, now))
    && (forall j :: k <= j < |before| ==> rows[j] == BookedRow(same, before[j], source, feed, now))
  }

  lemma DelistRow(same: SamePriceTest, before: seq<Row>, source: Source, feed: seq<Upstream>, now: int,
                  booked: seq<Row>, rows: seq<Row>, k: nat)
    requires k < |before| <= |booked| && DelistedUpTo(same, before, source, feed, now, booked, rows, k)
    ensures var gone := IsOpen(before[k], source) && Listing(feed, before[k].modelId).None? && before[k].delistedAt.None?;
            DelistedUpTo(same, before, source, feed, now, booked,
                         if gone then rows[k := rows[k].(delistedAt := Some(now))] else rows, k + 1)
  {
  }

  class PriceBook {
    const same: SamePriceTest
    var rows: seq<Row>
    var runs: seq<RunRecord>

    constructor ()
      ensures same == SamePrice && rows == [] && runs == []
    {
      same := SamePrice;
      rows := [];
      runs := [];
    }

    method OpenIndex(source: Source) returns (open: map<string, nat>)
      requires UniqueOpen(rows)
      ensures Indexes(open, rows, source)
    {
      open := map[];
      for i := 0 to |rows|
        invariant forall id :: id in open ==> open[id] < i && IsOpen(rows[open[id]], source) && rows[open[id]].modelId == id
        invariant forall j :: 0 <= j < i && IsOpen(rows[j], source) ==> rows[j].modelId in open && open[rows[j].modelId] == j
      {
        if IsOpen(rows[i], source) {
          open := open[rows[i].modelId := i];
        }
      }
    }

    /** One listing: insert, confirm, or close and insert. `prev` is the position of the id's open row. */
    method BookListing(source: Source, r: Upstream, prev: Option<nat>, now: int, runId: nat) returns (fate: Fate)
      requires prev.Some? ==> prev.value < |rows|
      modifies this`rows
      ensures fate == if prev.None? then Added
                      else if same(old(rows)[prev.value].price, r.price) then Unchanged else Changed
      ensures rows == ListingEffect(same, old(rows), source, r, prev, fate, now, runId)
    {
      if prev.None? {
        rows := rows + [NewRow(source, r, now, runId)];
        return Added;
      }
      var at := prev.value;
      if same(rows[at].price, r.price) {
        rows := rows[at := Confirm(rows[at], r, now)];
        return Unchanged;
      }
      rows := rows[at := Close(rows[at], now)];
      rows := rows + [NewRow(source, r, now, runId)];
      return Changed;
    }

    /** Stamps the open rows of ids no longer listed. */
    method DelistMissing(source: Source, before: seq<Row>, seen: set<string>, now: int, ghost feed: seq<Upstream>) returns (delisted: nat)
      requires |before| <= |rows| && seen == FeedIds(feed)
      requires rows[..|before|] == BookedRows(same, before, source, feed, now)
      modifies this`rows
      ensures rows == SyncedRows(same, before, source, feed, now) + old(rows[|before|..])
      ensures delisted == |DelistedIds(before, source, feed)|
    {
      var n := |before|;
      ghost var booked := rows;
      delisted := 0;
      for i := 0 to n
        invariant DelistedUpTo(same, before, source, feed, now, booked, rows, i)
        invariant delisted == |DelistedIds(before[..i], source, feed)|
      {
        assert before[..i + 1][..i] == before[..i];
        ListingIsAMember(feed, before[i].modelId);
        DelistRow(same, before, source, feed, now, booked, rows, i);
        if IsOpen(before[i], source) && before[i].modelId !in seen && before[i].delistedAt.None? {
          rows := rows[i := rows[i].(delistedAt := Some(now))];
          delisted := delisted + 1;
        }
      }
      assert before[..n] == before;
      assert rows[..n] == SyncedRows(same, before, source, feed, now);
      assert rows == rows[..n] + rows[n..];
    }

    /** The listing loop of the transaction. */
    method BookListings(source: Source, feed: seq<Upstream>, now: int, runId: nat)
      returns (seen: set<string>, tally: Tally, changes: seq<PriceChange>)
      requires UniqueOpen(rows)
      modifies this`rows
      ensures seen == FeedIds(feed)
      ensures rows == BookedRows(same, old(rows), source, feed, now) + NewRows(same, old(rows), source, feed, now, runId)
      ensures tally == TallyOf(Fates(same, old(rows), source), feed)
      ensures changes == ChangesOf(old(rows), source, NewRows(same, old(rows), source, feed, now, runId))
    {
      var before := rows;
      ghost var done: seq<Upstream> := [];
      var open := OpenIndex(source);
      seen, changes, tally := {}, [], Tally(0, 0, 0);
      ProgressStarts(same, before, source, now, runId);
      for k := 0 to |feed|
        invariant done == feed[..k]
        invariant Progress(same, before, source, done, now, runId, rows, seen, tally, changes)
      {
        var r := feed[k];
        TakeOneMore(feed, k);
        if r.id !in seen {
          ProgressBooksListing(same, before, source, done, r, now, runId, rows, seen, tally, changes, open);
          var prev := if r.id in open then Some(open[r.id]) else None;
          var fate := BookListing(source, r, prev, now, runId);
          tally := Bump(tally, fate);
          if fate != Unchanged {
            changes := changes + [PriceChange(source, r.id, if prev.Some? then Some(before[prev.value].price) else None, r.price)];
          }
          seen := seen + {r.id};
        } else {
          ProgressSkipsRepeat(same, before, source, done, r, now, runId, rows, seen, tally, changes);
        }
        done := done + [r];
      }
      TakeAll(feed);
    }

    /** The transaction body: every listing in turn, then the ids no longer listed. */
    method BookFeed(source: Source, feed: seq<Upstream>, now: int, runId: nat) returns (result: SyncResult)
      requires UniqueOpen(rows)
      modifies this`rows
      ensures rows == Sync(same, old(rows), source, feed, now, runId)
      ensures result.ok && result.error.None? && result.models == |feed|
      ensures result.added == |IdsWith(Fates(same, old(rows), source), feed, Added)|
      ensures result.changed == |IdsWith(Fates(same, old(rows), source), feed, Changed)|
      ensures result.unmoved == |IdsWith(Fates(same, old(rows), source), feed, Unchanged)|
      ensures result.delisted == |DelistedIds(old(rows), source, feed)|
      ensures result.changes == ChangesOf(old(rows), source, NewRows(same, old(rows), source, feed, now, runId))
    {
      var before := rows;
      var seen, tally, changes := BookListings(source, feed, now, runId);
      assert rows[..|before|] == BookedRows(same, before, source, feed, now);
      assert rows[|before|..] == NewRows(same, before, source, feed, now, runId);
      var delisted := DelistMissing(source, before, seen, now, feed);
      result := SyncResult(true, |feed|, tally.added, tally.changed, tally.unmoved, delisted, changes, None);
    }

    /** One oracle of `syncPricing`: a failed or empty fetch books nothing but the failure itself. */
    method SyncSource(a: Attempt, startedAt: int) returns (result: SyncResult)
      requires UniqueOpen(rows)
      modifies this
      ensures rows == Attempted(same, old(rows), a.source, a.feed, a.now, |old(runs)|)
      ensures runs == old(runs) + [RunRecord(a.source, startedAt, a.now, result)]
      ensures Reported(result, a)
    {
      var runId := |runs|;
      if a.feed.Failure? || a.feed.value == [] {
        var error := if a.feed.Failure? then a.feed.error else "empty catalog";
        result := SyncResult(false, 0, 0, 0, 0, 0, [], Some(error));
      } else {
        FatesPartitionTheFeed(Fates(same, rows, a.source), a.feed.value);
        result := BookFeed(a.source, a.feed.value, a.now, runId);
      }
      runs := runs + [RunRecord(a.source, startedAt, a.now, result)];
    }
  }

  function Attempted(same: SamePriceTest, rows: seq<Row>, source: Source, feed: Result<seq<Upstream>, string>, now: int, runId: nat): seq<Row> {
    if feed.Success? && feed.value != [] then Sync(same, rows, source, feed.value, now, runId) else rows
  }

  // ── What every sync keeps ────────────────────────────────────────

  predicate HasKey(row: Row, source: Source, id: string) {
    row.source == source && row.modelId == id
  }

  /** Every row an id ever had in one book, oldest first. */
  function History(rows: seq<Row>, source: Source, id: string): (h: seq<Row>)
    ensures forall p :: 0 <= p < |h| ==> HasKey(h[p], source, id)
  {
    if rows == [] then []
    else
      var rest, last := History(rows[..|rows| - 1], source, id), rows[|rows| - 1];
      if HasKey(last, source, id) then rest + [last] else rest
  }

  /** Contiguous intervals, all begun by `clock`, exactly the last of them open. */
  ghost predicate Contiguous(h: seq<Row>, clock: int) {
    && (forall p :: 0 <= p < |h| ==> h[p].effectiveFrom <= clock && (h[p].effectiveTo.None? <==> p == |h| - 1))
    && (forall p :: 0 < p < |h| ==> Follows(h[p - 1], h[p]))
  }

  predicate Follows(a: Row, b: Row) {
    a.effectiveTo == Some(b.effectiveFrom) && a.effectiveFrom <= b.effectiveFrom
  }

  ghost predicate WellFormed(rows: seq<Row>, clock: int) {
    forall source, id :: Contiguous(History(rows, source, id), clock)
  }

  /** The old book is still all there: prices, dates and keys as they were, closed rows untouched. */
  ghost predicate Extends(rows: seq<Row>, rows': seq<Row>) {
    && |rows| <= |rows'|
    && forall i :: 0 <= i < |rows| ==>
         && HasKey(rows'[i], rows[i].source, rows[i].modelId) && rows'[i].price == rows[i].price
         && rows'[i].effectiveFrom == rows[i].effectiveFrom && rows'[i].runId == rows[i].runId
         && (rows[i].effectiveTo.Some? ==> rows'[i] == rows[i])
  }

  lemma {:induction false} HistoryConcat(a: seq<Row>, b: seq<Row>, source: Source, id: string)
    ensures History(a + b, source, id) == History(a, source, id) + History(b, source, id)
    decreases |b|
  {
    if b == [] {
      assert a + b == a;
    } else {
      assert (a + b)[..|a + b| - 1] == a + b[..|b| - 1];
      HistoryConcat(a, b[..|b| - 1], source, id);
    }
  }

  /** Rewriting rows without changing keys rewrites the history alike. */
  lemma {:induction false} HistoryOfSynced(same: SamePriceTest, rows: seq<Row>, source: Source, feed: seq<Upstream>,
                                           now: int, s: Source, id: string)
    ensures History(SyncedRows(same, rows, source, feed, now), s, id)
            == SyncedRows(same, History(rows, s, id), source, feed, now)
  {
    if rows != [] {
      var init, last := rows[..|rows| - 1], rows[|rows| - 1];
      HistoryOfSynced(same, init, source, feed, now, s, id);
      var synced := SyncedRows(same, rows, source, feed, now);
      assert synced[..|synced| - 1] == SyncedRows(same, init, source, feed, now);
      assert synced[|synced| - 1] == SyncedRow(same, last, source, feed, now);
      var h := History(init, s, id);
      assert SyncedRows(same, h + [last], source, feed, now)
             == SyncedRows(same, h, source, feed, now) + [SyncedRow(same, last, source, feed, now)];
    }
  }

  lemma HistoryAppend(rows: seq<Row>, row: Row, source: Source, id: string)
    ensures History(rows + [row], source, id)
            == if HasKey(row, source, id) then History(rows, source, id) + [row] else History(rows, source, id)
    ensures History(rows + [], source, id) == History(rows, source, id)
  {
    assert (rows + [row])[..|rows|] == rows && rows + [] == rows;
  }

  /** What a sync adds to an id's history: at most one row, and only for an id of the synced source. */
  function Addition(same: SamePriceTest, rows: seq<Row>, source: Source, feed: seq<Upstream>, now: int, runId: nat,
                    s: Source, id: string): seq<Row> {
    var r := Listing(feed, id);
    if s == source && r.Some? && FateOf(same, rows, source, r.value) != Unchanged
    then [NewRow(source, r.value, now, runId)] else []
  }

  lemma AdditionOneMore(same: SamePriceTest, rows: seq<Row>, source: Source, feed: seq<Upstream>, last: Upstream, now: int,
                        runId: nat, s: Source, id: string)
    requires History(NewRows(same, rows, source, feed, now, runId), s, id) == Addition(same, rows, source, feed, now, runId, s, id)
    ensures History(NewRows(same, rows, source, feed + [last], now, runId), s, id)
            == Addition(same, rows, source, feed + [last], now, runId, s, id)
  {
    NewRowsAppend(same, rows, source, feed, last, now, runId);
    HistoryAppend(NewRows(same, rows, source, feed, now, runId), NewRow(source, last, now, runId), s, id);
    ListingAppend(feed, last, id);
  }

  lemma {:induction false} HistoryOfNew(same: SamePriceTest, rows: seq<Row>, source: Source, feed: seq<Upstream>,
                                        now: int, runId: nat, s: Source, id: string)
    ensures History(NewRows(same, rows, source, feed, now, runId), s, id)
            == Addition(same, rows, source, feed, now, runId, s, id)
  {
    if feed != [] {
      var init, last := feed[..|feed| - 1], feed[|feed| - 1];
      HistoryOfNew(same, rows, source, init, now, runId, s, id);
      AdditionOneMore(same, rows, source, init, last, now, runId, s, id);
      assert init + [last] == feed;
    }
  }

  /** In a well-formed book the open row of an id is the last of its history. */
  lemma {:induction false} OpenRowIsLast(rows: seq<Row>, source: Source, id: string)
    requires var h := History(rows, source, id); h != [] ==> h[|h| - 1].effectiveTo.None?
    ensures var h := History(rows, source, id);
            OpenRow(rows, source, id) == if h == [] then None else Some(h[|h| - 1])
  {
    if rows != [] && !HasKey(rows[|rows| - 1], source, id) {
      OpenRowIsLast(rows[..|rows| - 1], source, id);
    }
  }

  /** A sync rewrites at most the open end of a contiguous history. */
  lemma SyncedHistory(same: SamePriceTest, h: seq<Row>, source: Source, feed: seq<Upstream>, now: int, clock: int)
    requires h != [] && Contiguous(h, clock)
    ensures SyncedRows(same, h, source, feed, now)
            == h[..|h| - 1] + [SyncedRow(same, h[|h| - 1], source, feed, now)]
  {
    forall p | 0 <= p < |h| - 1 ensures SyncedRow(same, h[p], source, feed, now) == h[p] {
      assert h[p].effectiveTo.Some?;
    }
    assert h == h[..|h| - 1] + [h[|h| - 1]];
  }

  /** What one sync does to one id's history: its open end is rewritten, and one row may follow. */
  lemma SyncHistory(same: SamePriceTest, rows: seq<Row>, source: Source, feed: seq<Upstream>, now: int, runId: nat,
                    s: Source, id: string, clock: int)
    requires Contiguous(History(rows, s, id), clock)
    ensures var h, h' := History(rows, s, id), History(Sync(same, rows, source, feed, now, runId), s, id);
            var r := Listing(feed, id);
            h' == (if h == [] then [] else h[..|h| - 1] + [SyncedRow(same, h[|h| - 1], source, feed, now)])
                  + (if s == source && r.Some? && (h == [] || !same(h[|h| - 1].price, r.value.price))
                     then [NewRow(source, r.value, now, runId)] else [])
  {
    var h := History(rows, s, id);
    HistoryConcat(SyncedRows(same, rows, source, feed, now), NewRows(same, rows, source, feed, now, runId), s, id);
    HistoryOfSynced(same, rows, source, feed, now, s, id);
    HistoryOfNew(same, rows, source, feed, now, runId, s, id);
    OpenRowIsLast(rows, s, id);
    ListingIsAMember(feed, id);
    if h != [] {
      SyncedHistory(same, h, source, feed, now, clock);
    }
  }

  /** A contiguous history stays so when its open end is rewritten in place, or closed and followed. */
  lemma ContiguousSteps(h: seq<Row>, last: Row, next: Option<Row>, clock: int, now: int)
    requires Contiguous(h, clock) && clock <= now
    requires h != [] ==> last.effectiveFrom == h[|h| - 1].effectiveFrom
    requires h != [] ==> last.effectiveTo == if next.Some? then Some(now) else None
    requires next.Some? ==> next.value.effectiveFrom == now && next.value.effectiveTo.None?
    ensures Contiguous((if h == [] then [] else h[..|h| - 1] + [last]) + (if next.Some? then [next.value] else []), now)
  {
    var kept := if h == [] then [] else h[..|h| - 1] + [last];
    var h' := kept + if next.Some? then [next.value] else [];
    forall p | 0 < p < |h'| ensures Follows(h'[p - 1], h'[p]) {
      if p < |h| { assert Follows(h[p - 1], h[p]); }
    }
  }

  lemma SyncKeepsContiguous(same: SamePriceTest, rows: seq<Row>, source: Source, feed: seq<Upstream>, now: int, runId: nat,
                            s: Source, id: string, clock: int)
    requires Contiguous(History(rows, s, id), clock) && clock <= now
    ensures Contiguous(History(Sync(same, rows, source, feed, now, runId), s, id), now)
  {
    var h, r := History(rows, s, id), Listing(feed, id);
    SyncHistory(same, rows, source, feed, now, runId, s, id, clock);
    var next := if s == source && r.Some? && (h == [] || !same(h[|h| - 1].price, r.value.price))
                then Some(NewRow(source, r.value, now, runId)) else None;
    if h == [] {
      ContiguousSteps(h, NewRow(s, Upstream(id, About(None, None, None), Price(0.0, 0.0, 0.0, 0.0)), now, runId), next, clock, now);
    } else {
      assert HasKey(h[|h| - 1], s, id);
      ContiguousSteps(h, SyncedRow(same, h[|h| - 1], source, feed, now), next, clock, now);
    }
  }

  lemma SyncKeepsWellFormed(same: SamePriceTest, rows: seq<Row>, source: Source, feed: seq<Upstream>,
                            clock: int, now: int, runId: nat)
    requires WellFormed(rows, clock) && clock <= now
    ensures WellFormed(Sync(same, rows, source, feed, now, runId), now)
  {
    forall s, id ensures Contiguous(History(Sync(same, rows, source, feed, now, runId), s, id), now) {
      SyncKeepsContiguous(same, rows, source, feed, now, runId, s, id, clock);
    }
  }

  lemma {:induction false} RowsAreInTheirHistory(rows: seq<Row>, i: nat)
    requires i < |rows|
    ensures rows[i] in History(rows, rows[i].source, rows[i].modelId)
  {
    if i < |rows| - 1 {
      RowsAreInTheirHistory(rows[..|rows| - 1], i);
    }
  }

  lemma EarlierRowIsNotLast(rows: seq<Row>, i: nat, j: nat)
    requires i < j < |rows| && HasKey(rows[j], rows[i].source, rows[i].modelId)
    ensures var h := History(rows, rows[i].source, rows[i].modelId);
            exists p :: 0 <= p < |h| - 1 && h[p] == rows[i]
  {
    var s, id := rows[i].source, rows[i].modelId;
    var a, b := rows[..j], rows[j..];
    assert a + b == rows;
    HistoryConcat(a, b, s, id);
    RowsAreInTheirHistory(a, i);
    RowsAreInTheirHistory(b, 0);
    var p :| 0 <= p < |History(a, s, id)| && History(a, s, id)[p] == a[i];
    assert History(rows, s, id)[p] == rows[i];
  }

  lemma WellFormedMeansUniqueOpen(rows: seq<Row>, clock: int)
    requires WellFormed(rows, clock)
    ensures UniqueOpen(rows)
  {
    forall i, j | 0 <= i < j < |rows| && HasKey(rows[j], rows[i].source, rows[i].modelId)
      ensures rows[i].effectiveTo.Some?
    {
      EarlierRowIsNotLast(rows, i, j);
      assert Contiguous(History(rows, rows[i].source, rows[i].modelId), clock);
    }
  }

  // ── Every run of syncs ───────────────────────────────────────────

  /** The book after a run of attempts, the k-th of them under run id k, from an empty ledger. */
  function Book(same: SamePriceTest, attempts: seq<Attempt>): seq<Row> {
    if attempts == [] then []
    else
      var n := |attempts| - 1;
      Attempted(same, Book(same, attempts[..n]), attempts[n].source, attempts[n].feed, attempts[n].now, n)
  }

  ghost predicate ClockNeverRunsBack(attempts: seq<Attempt>) {
    forall i, j :: 0 <= i < j < |attempts| ==> attempts[i].now <= attempts[j].now
  }

  /** Every run of syncs keeps the ledger well formed, so the schema's unique index never fires. */
  lemma {:induction false} EveryRunKeepsTheLedger(same: SamePriceTest, attempts: seq<Attempt>, clock: int)
    requires ClockNeverRunsBack(attempts) && (attempts != [] ==> attempts[|attempts| - 1].now <= clock)
    ensures WellFormed(Book(same, attempts), clock)
    ensures UniqueOpen(Book(same, attempts))
  {
    if attempts != [] {
      var n := |attempts| - 1;
      var a := attempts[n];
      EveryRunKeepsTheLedger(same, attempts[..n], a.now);
      if a.feed.Success? && a.feed.value != [] {
        SyncKeepsWellFormed(same, Book(same, attempts[..n]), a.source, a.feed.value, a.now, a.now, n);
      }
      forall s, id ensures Contiguous(History(Book(same, attempts), s, id), clock) {
        assert Contiguous(History(Book(same, attempts), s, id), a.now);
      }
    }
    WellFormedMeansUniqueOpen(Book(same, attempts), clock);
  }

  lemma AttemptExtends(same: SamePriceTest, rows: seq<Row>, source: Source, feed: Result<seq<Upstream>, string>, now: int, runId: nat)
    ensures Extends(rows, Attempted(same, rows, source, feed, now, runId))
  {
  }

  lemma ExtendsTransitive(a: seq<Row>, b: seq<Row>, c: seq<Row>)
    requires Extends(a, b) && Extends(b, c)
    ensures Extends(a, c)
  {
  }

  /** Append-only: whatever a prefix of the run booked, the whole run still says. */
  lemma {:induction false} RunsOnlyExtend(same: SamePriceTest, attempts: seq<Attempt>, k: nat)
    requires k <= |attempts|
    ensures Extends(Book(same, attempts[..k]), Book(same, attempts))
    decreases |attempts|
  {
    if k == |attempts| {
      assert attempts[..k] == attempts;
    } else {
      var n := |attempts| - 1;
      RunsOnlyExtend(same, attempts[..n], k);
      AttemptExtends(same, Book(same, attempts[..n]), attempts[n].source, attempts[n].feed, attempts[n].now, n);
      assert attempts[..n][..k] == attempts[..k];
      ExtendsTransitive(Book(same, attempts[..k]), Book(same, attempts[..n]), Book(same, attempts));
    }
  }

  /** A failed fetch changes no row at all. */
  lemma FailedFetchBooksNothing(same: SamePriceTest, attempts: seq<Attempt>)
    requires attempts != [] && attempts[|attempts| - 1].feed.Failure?
    ensures Book(same, attempts) == Book(same, attempts[..|attempts| - 1])
  {
  }

  lemma BookAppend(same: SamePriceTest, attempts: seq<Attempt>, a: Attempt)
    ensures Book(same, attempts + [a]) == Attempted(same, Book(same, attempts), a.source, a.feed, a.now, |attempts|)
  {
    assert (attempts + [a])[..|attempts|] == attempts;
  }

  lemma OneMoreAttempt(same: SamePriceTest, run: seq<Attempt>, k: nat)
    requires k < |run| && ClockNeverRunsBack(run)
    ensures UniqueOpen(Book(same, run[..k]))
    ensures Book(same, run[..k + 1]) == Attempted(same, Book(same, run[..k]), run[k].source, run[k].feed, run[k].now, k)
  {
    TakeOneMore(run, k);
    BookAppend(same, run[..k], run[k]);
    EveryRunKeepsTheLedger(same, run[..k], run[k].now);
  }

  /** The book after the first `k` attempts of a run. */
  ghost predicate BookedUpTo(book: PriceBook, run: seq<Attempt>, k: nat)
    reads book
  {
    k <= |run| && |book.runs| == k && book.rows == Book(book.same, run[..k])
  }

  /** The k-th result reports the k-th attempt from position `n` on. */
  ghost predicate AllReported(results: seq<SyncResult>, run: seq<Attempt>, n: nat) {
    n + |results| <= |run| && forall k :: 0 <= k < |results| ==> Reported(results[k], run[n + k])
  }

  method SyncNext(book: PriceBook, run: seq<Attempt>, k: nat) returns (result: SyncResult)
    requires k < |run| && ClockNeverRunsBack(run) && BookedUpTo(book, run, k)
    modifies book
    ensures BookedUpTo(book, run, k + 1) && Reported(result, run[k])
  {
    OneMoreAttempt(book.same, run, k);
    result := book.SyncSource(run[k], run[k].now);
  }

  method SyncEach(book: PriceBook, run: seq<Attempt>, n: nat) returns (results: seq<SyncResult>)
    requires n <= |run| && ClockNeverRunsBack(run) && BookedUpTo(book, run, n)
    modifies book
    ensures BookedUpTo(book, run, |run|) && |results| == |run| - n && AllReported(results, run, n)
  {
    results := [];
    for k := n to |run|
      invariant BookedUpTo(book, run, k) && |results| == k - n && AllReported(results, run, n)
    {
      var result := SyncNext(book, run, k);
      results := results + [result];
    }
  }

  /** `syncPricing` over a list of oracles: the attempts of `run` from position `|book.runs|` on. */
  method SyncPricing(book: PriceBook, run: seq<Attempt>) returns (results: seq<SyncResult>)
    requires |book.runs| <= |run| && ClockNeverRunsBack(run)
    requires book.rows == Book(book.same, run[..|book.runs|])
    modifies book
    ensures book.rows == Book(book.same, run) && |book.runs| == |run|
    ensures |results| == |run| - |old(book.runs)| && AllReported(results, run, |old(book.runs)|)
  {
    results := SyncEach(book, run, |book.runs|);
    TakeAll(run);
  }
}
