/**
 * What a sync of the price ledger comes to, row by row and in the numbers themselves
 * (packages/core/pricing-sync.ts, `samePrice` and `syncPricing`).
 */
module SyncMeaning {
  import opened Wrappers
  import opened Seqs
  import opened PriceLedger

  // ── The same price, in numbers ───────────────────────────────────

  /** Within a billionth of one, or of either of them. */
  predicate Near(x: real, y: real) {
    var gap := if x < y then y - x else x - y;
    || gap <= 0.000000001 || gap <= 0.000000001 * x || gap <= -0.000000001 * x
    || gap <= 0.000000001 * y || gap <= -0.000000001 * y
  }

  predicate NearPrice(a: Price, b: Price) {
    Near(a.input, b.input) && Near(a.output, b.output) && Near(a.cacheRead, b.cacheRead) && Near(a.cacheWrite, b.cacheWrite)
  }

  lemma NearIsCloseTo(x: real, y: real)
    ensures CloseTo(x, y) <==> Near(x, y)
  {
  }

  lemma SamePriceIsNear(a: Price, b: Price)
    ensures SamePrice(a, b) <==> NearPrice(a, b)
  {
    NearIsCloseTo(a.input, b.input);
    NearIsCloseTo(a.output, b.output);
    NearIsCloseTo(a.cacheRead, b.cacheRead);
    NearIsCloseTo(a.cacheWrite, b.cacheWrite);
  }

  // ── A feed's listings ────────────────────────────────────────────

  /** Listing `k` is the feed's first of its id. */
  ghost predicate IsFirst(feed: seq<Upstream>, k: nat) {
    k < |feed| && forall j :: 0 <= j < k ==> feed[j].id != feed[k].id
  }

  ghost predicate Unlisted(feed: seq<Upstream>, id: string) {
    forall j :: 0 <= j < |feed| ==> feed[j].id != id
  }

  lemma {:induction false} FirstIsTheListing(feed: seq<Upstream>, k: nat)
    requires IsFirst(feed, k)
    ensures Listing(feed, feed[k].id) == Some(feed[k])
  {
    var n := |feed| - 1;
    if k < n {
      FirstIsTheListing(feed[..n], k);
    } else {
      NotListed(feed[..n], feed[k].id);
    }
  }

  lemma {:induction false} NotListed(feed: seq<Upstream>, id: string)
    ensures Listing(feed, id).None? <==> Unlisted(feed, id)
  {
    if feed != [] {
      var n := |feed| - 1;
      NotListed(feed[..n], id);
      assert forall j :: 0 <= j < n ==> feed[j] == feed[..n][j];
    }
  }

  // ── The rows there were ──────────────────────────────────────────

  predicate OpenIn(row: Row, source: Source, id: string) {
    row.source == source && row.modelId == id && row.effectiveTo.None?
  }

  function Newer<T>(newer: Option<T>, older: Option<T>): Option<T> {
    match newer
    case Some(x) => Some(x)
    case None => older
  }

  /** Seen now, listed, at the price it had, and described by whatever the listing says. */
  predicate IsConfirmed(row: Row, row': Row, r: Upstream, now: int) {
    row' == Row(row.source, row.modelId,
                About(Newer(r.about.displayName, row.about.displayName), Newer(r.about.contextLen, row.about.contextLen),
                      Newer(r.about.releasedOn, row.about.releasedOn)),
                row.price, row.effectiveFrom, None, now, None, row.runId)
  }

  /** An open row whose listing asks near its price is confirmed. */
  lemma ConfirmedRow(row: Row, source: Source, feed: seq<Upstream>, now: int, k: nat)
    requires IsFirst(feed, k) && OpenIn(row, source, feed[k].id) && NearPrice(row.price, feed[k].price)
    ensures IsConfirmed(row, SyncedRow(SamePrice, row, source, feed, now), feed[k], now)
  {
    FirstIsTheListing(feed, k);
    SamePriceIsNear(row.price, feed[k].price);
  }

  /** One whose listing asks another price is closed at the sync, and otherwise as it was. */
  lemma ClosedRow(row: Row, source: Source, feed: seq<Upstream>, now: int, k: nat)
    requires IsFirst(feed, k) && OpenIn(row, source, feed[k].id) && !NearPrice(row.price, feed[k].price)
    ensures SyncedRow(SamePrice, row, source, feed, now) == row.(effectiveTo := Some(now), lastSeenAt := now)
  {
    FirstIsTheListing(feed, k);
    SamePriceIsNear(row.price, feed[k].price);
  }

  /** One no longer listed keeps its price in force and is stamped, once. */
  lemma DelistedRow(row: Row, source: Source, feed: seq<Upstream>, now: int)
    requires OpenIn(row, source, row.modelId) && Unlisted(feed, row.modelId)
    ensures SyncedRow(SamePrice, row, source, feed, now)
            == row.(delistedAt := if row.delistedAt.Some? then row.delistedAt else Some(now))
  {
    NotListed(feed, row.modelId);
  }

  // ── The rows a sync opens ────────────────────────────────────────

  /** Listing `k` asks a price no open row of its id is near. */
  ghost predicate AsksAnew(rows: seq<Row>, source: Source, feed: seq<Upstream>, k: nat) {
    IsFirst(feed, k) && forall i :: 0 <= i < |rows| && OpenIn(rows[i], source, feed[k].id) ==> !NearPrice(rows[i].price, feed[k].price)
  }

  lemma AnewIsNotUnchanged(rows: seq<Row>, source: Source, feed: seq<Upstream>, k: nat)
    requires UniqueOpen(rows) && IsFirst(feed, k)
    ensures FateOf(SamePrice, rows, source, feed[k]) != Unchanged <==> AsksAnew(rows, source, feed, k)
  {
    var r := feed[k];
    var prev := OpenRow(rows, source, r.id);
    OpenRowIsTheOpenOne(rows, source, r.id);
    if prev.Some? {
      var i :| 0 <= i < |rows| && rows[i] == prev.value && IsOpen(rows[i], source) && rows[i].modelId == r.id;
      SamePriceIsNear(prev.value.price, r.price);
      forall j | 0 <= j < |rows| && OpenIn(rows[j], source, r.id) ensures j == i { }
    }
  }

  /** What a listing counts as: added if its id has no open row, unchanged if it has one near the price, else changed. */
  lemma FateMeans(rows: seq<Row>, source: Source, r: Upstream)
    requires UniqueOpen(rows)
    ensures var fate := FateOf(SamePrice, rows, source, r);
            && (fate == Added <==> forall i :: 0 <= i < |rows| ==> !OpenIn(rows[i], source, r.id))
            && (fate == Unchanged <==> exists i :: 0 <= i < |rows| && OpenIn(rows[i], source, r.id) && NearPrice(rows[i].price, r.price))
  {
    var prev := OpenRow(rows, source, r.id);
    OpenRowIsTheOpenOne(rows, source, r.id);
    if prev.Some? {
      var i :| 0 <= i < |rows| && rows[i] == prev.value && IsOpen(rows[i], source) && rows[i].modelId == r.id;
      assert OpenIn(rows[i], source, r.id);
      SamePriceIsNear(prev.value.price, r.price);
      forall j | 0 <= j < |rows| && OpenIn(rows[j], source, r.id) ensures j == i { }
    }
  }

  /** The new row of a listing: its price, in force from now. */
  predicate Opens(row: Row, source: Source, r: Upstream, now: int, runId: nat) {
    row == Row(source, r.id, r.about, r.price, now, None, now, None, runId)
  }

  /** The row opens one of the listings that ask anew. */
  ghost predicate AddedFor(row: Row, rows: seq<Row>, source: Source, feed: seq<Upstream>, now: int, runId: nat) {
    exists k: nat :: AsksAnew(rows, source, feed, k) && Opens(row, source, feed[k], now, runId)
  }

  ghost predicate EachAddedFor(added: seq<Row>, rows: seq<Row>, source: Source, feed: seq<Upstream>, now: int, runId: nat) {
    forall p :: 0 <= p < |added| ==> AddedFor(added[p], rows, source, feed, now, runId)
  }

  lemma FirstAmongEarlier(feed: seq<Upstream>, k: nat)
    requires k < |feed|
    ensures IsFirst(feed, k) <==> Listing(feed[..k], feed[k].id).None?
  {
    NotListed(feed[..k], feed[k].id);
    assert forall j :: 0 <= j < k ==> feed[..k][j] == feed[j];
  }

  /** The row listing `k` opens, if it opens one. */
  lemma NewRowsOneMore(rows: seq<Row>, source: Source, feed: seq<Upstream>, now: int, runId: nat, k: nat)
    requires UniqueOpen(rows) && k < |feed|
    ensures NewRows(SamePrice, rows, source, feed[..k + 1], now, runId)
            == NewRows(SamePrice, rows, source, feed[..k], now, runId)
               + if AsksAnew(rows, source, feed, k) then [NewRow(source, feed[k], now, runId)] else []
  {
    TakeOneMore(feed, k);
    NewRowsAppend(SamePrice, rows, source, feed[..k], feed[k], now, runId);
    FirstAmongEarlier(feed, k);
    if IsFirst(feed, k) { AnewIsNotUnchanged(rows, source, feed, k); }
  }

  lemma {:induction false} NewRowsAreAddedFor(rows: seq<Row>, source: Source, feed: seq<Upstream>, now: int, runId: nat, n: nat)
    requires UniqueOpen(rows) && n <= |feed|
    ensures EachAddedFor(NewRows(SamePrice, rows, source, feed[..n], now, runId), rows, source, feed, now, runId)
  {
    if n > 0 {
      NewRowsAreAddedFor(rows, source, feed, now, runId, n - 1);
      NewRowsOneMore(rows, source, feed, now, runId, n - 1);
      if AsksAnew(rows, source, feed, n - 1) {
        assert Opens(NewRow(source, feed[n - 1], now, runId), source, feed[n - 1], now, runId);
      }
    }
  }

  lemma {:induction false} AskingOpens(rows: seq<Row>, source: Source, feed: seq<Upstream>, now: int, runId: nat, n: nat, k: nat) returns (p: nat)
    requires UniqueOpen(rows) && k < n <= |feed| && AsksAnew(rows, source, feed, k)
    ensures var added := NewRows(SamePrice, rows, source, feed[..n], now, runId);
            p < |added| && Opens(added[p], source, feed[k], now, runId)
  {
    NewRowsOneMore(rows, source, feed, now, runId, n - 1);
    if k == n - 1 {
      p := |NewRows(SamePrice, rows, source, feed[..k], now, runId)|;
    } else {
      p := AskingOpens(rows, source, feed, now, runId, n - 1, k);
    }
  }

  // ── The whole sync ───────────────────────────────────────────────

  /** What becomes of an open row whose first listing is this one: confirmed if the price is near, else closed. */
  predicate IsMet(row: Row, row': Row, r: Upstream, now: int) {
    if NearPrice(row.price, r.price) then IsConfirmed(row, row', r, now)
    else row' == row.(effectiveTo := Some(now), lastSeenAt := now)
  }

  /** A row of another book, or closed before, is as it was; an open one is met by its listing, or stamped for want of one. */
  ghost predicate Met(row: Row, row': Row, source: Source, feed: seq<Upstream>, now: int) {
    && (row.source != source || row.effectiveTo.Some? ==> row' == row)
    && (forall k: nat :: IsFirst(feed, k) && OpenIn(row, source, feed[k].id) ==> IsMet(row, row', feed[k], now))
    && ((OpenIn(row, source, row.modelId) && Unlisted(feed, row.modelId)) ==>
          row' == row.(delistedAt := if row.delistedAt.Some? then row.delistedAt else Some(now)))
  }

  lemma SyncedRowIsMet(row: Row, source: Source, feed: seq<Upstream>, now: int)
    ensures Met(row, SyncedRow(SamePrice, row, source, feed, now), source, feed, now)
  {
    forall k: nat | IsFirst(feed, k) && OpenIn(row, source, feed[k].id)
      ensures IsMet(row, SyncedRow(SamePrice, row, source, feed, now), feed[k], now)
    {
      if NearPrice(row.price, feed[k].price) {
        ConfirmedRow(row, source, feed, now, k);
      } else {
        ClosedRow(row, source, feed, now, k);
      }
    }
    if OpenIn(row, source, row.modelId) && Unlisted(feed, row.modelId) { DelistedRow(row, source, feed, now); }
  }

  /** What a sync leaves: the rows there were, each met as its listing says, and one more for each listing that asks anew. */
  ghost predicate Booked(rows: seq<Row>, rows': seq<Row>, source: Source, feed: seq<Upstream>, now: int, runId: nat) {
    && |rows| <= |rows'|
    && (forall i :: 0 <= i < |rows| ==> Met(rows[i], rows'[i], source, feed, now))
    && (forall i :: |rows| <= i < |rows'| ==> AddedFor(rows'[i], rows, source, feed, now, runId))
    && (forall k: nat :: AsksAnew(rows, source, feed, k) ==> HasOpened(rows', source, feed[k], now, runId))
  }

  ghost predicate HasOpened(rows: seq<Row>, source: Source, r: Upstream, now: int, runId: nat) {
    exists i :: 0 <= i < |rows| && Opens(rows[i], source, r, now, runId)
  }

  ghost predicate EachMet(rows: seq<Row>, kept: seq<Row>, source: Source, feed: seq<Upstream>, now: int) {
    |kept| == |rows| && forall i :: 0 <= i < |rows| ==> Met(rows[i], kept[i], source, feed, now)
  }

  lemma OldRowsAreMet(rows: seq<Row>, source: Source, feed: seq<Upstream>, now: int)
    ensures EachMet(rows, SyncedRows(SamePrice, rows, source, feed, now), source, feed, now)
  {
    forall i | 0 <= i < |rows| ensures Met(rows[i], SyncedRows(SamePrice, rows, source, feed, now)[i], source, feed, now) {
      SyncedRowIsMet(rows[i], source, feed, now);
    }
  }

  lemma OpenedThere(kept: seq<Row>, added: seq<Row>, source: Source, r: Upstream, now: int, runId: nat, p: nat)
    requires p < |added| && Opens(added[p], source, r, now, runId)
    ensures HasOpened(kept + added, source, r, now, runId)
  {
    assert (kept + added)[|kept| + p] == added[p];
  }

  lemma EveryAskingOpens(rows: seq<Row>, kept: seq<Row>, source: Source, feed: seq<Upstream>, now: int, runId: nat)
    requires UniqueOpen(rows)
    ensures forall k: nat :: AsksAnew(rows, source, feed, k)
              ==> HasOpened(kept + NewRows(SamePrice, rows, source, feed, now, runId), source, feed[k], now, runId)
  {
    TakeAll(feed);
    forall k: nat | AsksAnew(rows, source, feed, k)
      ensures HasOpened(kept + NewRows(SamePrice, rows, source, feed, now, runId), source, feed[k], now, runId)
    {
      var p := AskingOpens(rows, source, feed, now, runId, |feed|, k);
      OpenedThere(kept, NewRows(SamePrice, rows, source, feed, now, runId), source, feed[k], now, runId, p);
    }
  }

  lemma AllAddedFor(rows: seq<Row>, source: Source, feed: seq<Upstream>, now: int, runId: nat)
    requires UniqueOpen(rows)
    ensures EachAddedFor(NewRows(SamePrice, rows, source, feed, now, runId), rows, source, feed, now, runId)
  {
    TakeAll(feed);
    NewRowsAreAddedFor(rows, source, feed, now, runId, |feed|);
  }

  lemma KeptAndAdded(rows: seq<Row>, kept: seq<Row>, added: seq<Row>, source: Source, feed: seq<Upstream>, now: int, runId: nat)
    requires EachMet(rows, kept, source, feed, now)
    requires EachAddedFor(added, rows, source, feed, now, runId)
    requires forall k: nat :: AsksAnew(rows, source, feed, k) ==> HasOpened(kept + added, source, feed[k], now, runId)
    ensures Booked(rows, kept + added, source, feed, now, runId)
  {
  }

  lemma SyncBooks(rows: seq<Row>, source: Source, feed: seq<Upstream>, now: int, runId: nat)
    requires UniqueOpen(rows)
    ensures Booked(rows, Sync(SamePrice, rows, source, feed, now, runId), source, feed, now, runId)
  {
    var kept, added := SyncedRows(SamePrice, rows, source, feed, now), NewRows(SamePrice, rows, source, feed, now, runId);
    OldRowsAreMet(rows, source, feed, now);
    AllAddedFor(rows, source, feed, now, runId);
    EveryAskingOpens(rows, kept, source, feed, now, runId);
    KeptAndAdded(rows, kept, added, source, feed, now, runId);
  }

  /** Some open row of the id holds a price near this one. */
  ghost predicate InForce(rows: seq<Row>, source: Source, id: string, price: Price) {
    exists i :: 0 <= i < |rows| && Holds(rows[i], source, id, price)
  }

  predicate Holds(row: Row, source: Source, id: string, price: Price) {
    OpenIn(row, source, id) && NearPrice(row.price, price)
  }

  lemma NewRowHolds(row: Row, source: Source, r: Upstream, now: int, runId: nat)
    requires Opens(row, source, r, now, runId)
    ensures Holds(row, source, r.id, r.price)
  {
  }

  lemma MetRowHolds(row: Row, row': Row, source: Source, feed: seq<Upstream>, now: int, k: nat)
    requires IsFirst(feed, k) && Met(row, row', source, feed, now) && Holds(row, source, feed[k].id, feed[k].price)
    requires HasKey(row', row.source, row.modelId) && row'.price == row.price
    ensures Holds(row', source, feed[k].id, feed[k].price)
  {
  }

  /** After a sync every id listed has an open row near its first listing in each of the four prices. */
  lemma ListedPricesAreInForce(rows: seq<Row>, rows': seq<Row>, source: Source, feed: seq<Upstream>, now: int, runId: nat, k: nat)
    requires Booked(rows, rows', source, feed, now, runId) && Extends(rows, rows') && IsFirst(feed, k)
    ensures InForce(rows', source, feed[k].id, feed[k].price)
  {
    if i :| 0 <= i < |rows| && Holds(rows[i], source, feed[k].id, feed[k].price) {
      MetRowHolds(rows[i], rows'[i], source, feed, now, k);
    } else {
      assert AsksAnew(rows, source, feed, k) by {
        forall i | 0 <= i < |rows| && OpenIn(rows[i], source, feed[k].id) ensures !NearPrice(rows[i].price, feed[k].price) {
          assert !Holds(rows[i], source, feed[k].id, feed[k].price);
        }
      }
      var i :| 0 <= i < |rows'| && Opens(rows'[i], source, feed[k], now, runId);
      NewRowHolds(rows'[i], source, feed[k], now, runId);
    }
  }

  ghost predicate AllInForce(rows: seq<Row>, source: Source, feed: seq<Upstream>) {
    forall k: nat :: IsFirst(feed, k) ==> InForce(rows, source, feed[k].id, feed[k].price)
  }

  lemma AttemptBooks(rows: seq<Row>, a: Attempt, runId: nat)
    requires UniqueOpen(rows) && a.feed.Success? && a.feed.value != []
    ensures var rows' := Attempted(SamePrice, rows, a.source, a.feed, a.now, runId);
            Booked(rows, rows', a.source, a.feed.value, a.now, runId) && AllInForce(rows', a.source, a.feed.value)
  {
    var rows' := Attempted(SamePrice, rows, a.source, a.feed, a.now, runId);
    SyncBooks(rows, a.source, a.feed.value, a.now, runId);
    AttemptExtends(SamePrice, rows, a.source, a.feed, a.now, runId);
    forall k: nat | IsFirst(a.feed.value, k) ensures InForce(rows', a.source, a.feed.value[k].id, a.feed.value[k].price) {
      ListedPricesAreInForce(rows, rows', a.source, a.feed.value, a.now, runId, k);
    }
  }

  /**
   * Of every run of the program's own book: a successful sync leaves what `Booked` says, and every id it lists
   * in force at a price near its first listing.
   */
  lemma EveryRunBooksItsPrices(run: seq<Attempt>, k: nat)
    requires k < |run| && ClockNeverRunsBack(run) && run[k].feed.Success? && run[k].feed.value != []
    ensures Booked(Book(SamePrice, run[..k]), Book(SamePrice, run[..k + 1]), run[k].source, run[k].feed.value, run[k].now, k)
    ensures AllInForce(Book(SamePrice, run[..k + 1]), run[k].source, run[k].feed.value)
  {
    OneMoreAttempt(SamePrice, run, k);
    AttemptBooks(Book(SamePrice, run[..k]), run[k], k);
  }

  /** An output price of 15 that falls to 12 is booked: the row closes and another opens at 12. */
  lemma OutputPriceAloneIsAChange()
    ensures !NearPrice(Price(3.0, 15.0, 0.3, 3.75), Price(3.0, 12.0, 0.3, 3.75))
    ensures !SamePrice(Price(3.0, 15.0, 0.3, 3.75), Price(3.0, 12.0, 0.3, 3.75))
  {
    SamePriceIsNear(Price(3.0, 15.0, 0.3, 3.75), Price(3.0, 12.0, 0.3, 3.75));
  }
}
