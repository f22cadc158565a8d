/**
 * Pricing at an instant (packages/core/pricing.ts): the in-memory history built from the ledger, the
 * lookup that searches it, and what a later sync can and cannot change about an earlier answer.
 */
module PriceLookup {
  import opened Wrappers
  import opened Seqs
  import opened PriceLedger

  datatype Entry = Entry(
    id: string, source: Source, price: Price, fetchedAt: int, effectiveFrom: Option<int>, effectiveTo: Option<int>,
    releasedOn: Option<string>)

  /** An entry without `effectiveFrom` is effective since its `fetchedAt`. */
  function Start(e: Entry): int {
    if e.effectiveFrom.Some? then e.effectiveFrom.value else e.fetchedAt
  }

  predicate Covers(e: Entry, at: int) {
    Start(e) <= at && (e.effectiveTo.None? || e.effectiveTo.value > at)
  }

  // ── priceAt over one id's list ───────────────────────────────────

  datatype Found = Found(entry: Entry, backdated: bool)

  /** The first position whose interval covers the instant, or the length of the list. */
  function CoverIndex(list: seq<Entry>, at: int): (k: nat)
    ensures k <= |list|
    ensures k < |list| ==> Covers(list[k], at)
    ensures forall p :: 0 <= p < k ==> !Covers(list[p], at)
  {
    if list == [] then 0 else if Covers(list[0], at) then 0 else 1 + CoverIndex(list[1..], at)
  }

  function PriceIn(list: seq<Entry>, at: int): Option<Found> {
    if list == [] then None
    else
      var k := CoverIndex(list, at);
      if k < |list| then Some(Found(list[k], false))
      else if at < Start(list[0]) then Some(Found(list[0], true))
      else Some(Found(list[|list| - 1], true))
  }

  // ── The in-memory book ───────────────────────────────────────────

  function ToEntry(row: Row): Entry {
    Entry(row.modelId, row.source, row.price, row.lastSeenAt, Some(row.effectiveFrom), row.effectiveTo, row.about.releasedOn)
  }

  function ToEntries(rows: seq<Row>): (es: seq<Entry>)
    ensures |es| == |rows| && forall i :: 0 <= i < |rows| ==> es[i] == ToEntry(rows[i])
  {
    seq(|rows|, i requires 0 <= i < |rows| => ToEntry(rows[i]))
  }

  function OfSource(rows: seq<Row>, source: Source): seq<Row> {
    if rows == [] then []
    else
      var rest, last := OfSource(rows[..|rows| - 1], source), rows[|rows| - 1];
      if last.source == source then rest + [last] else rest
  }

  /** The entries filed under one lower-cased key, in the order they arrived. */
  function Filed(lower: string -> string, entries: seq<Entry>, key: string): seq<Entry> {
    if entries == [] then []
    else
      var rest, last := Filed(lower, entries[..|entries| - 1], key), entries[|entries| - 1];
      if lower(last.id) == key then rest + [last] else rest
  }

  function Dated(e: Entry): Entry {
    e.(effectiveFrom := Some(Start(e)))
  }

  /** Insertion from the right, after every entry that starts no later: a stable sort by start. */
  function InsertByStart(sorted: seq<Entry>, e: Entry): seq<Entry> {
    if sorted == [] || Start(sorted[|sorted| - 1]) <= Start(e) then sorted + [e]
    else InsertByStart(sorted[..|sorted| - 1], e) + [sorted[|sorted| - 1]]
  }

  function SortByStart(entries: seq<Entry>): seq<Entry> {
    if entries == [] then [] else InsertByStart(SortByStart(entries[..|entries| - 1]), entries[|entries| - 1])
  }

  ghost predicate SortedByStart(entries: seq<Entry>) {
    forall i, j :: 0 <= i < j < |entries| ==> Start(entries[i]) <= Start(entries[j])
  }

  function DatedAll(entries: seq<Entry>): (es: seq<Entry>)
    ensures |es| == |entries| && forall i :: 0 <= i < |entries| ==> es[i] == Dated(entries[i])
  {
    seq(|entries|, i requires 0 <= i < |entries| => Dated(entries[i]))
  }

  function Keys(lower: string -> string, entries: seq<Entry>): set<string> {
    set e | e in entries :: lower(e.id)
  }

  /** Per key, every entry filed under it. */
  function Grouped(lower: string -> string, entries: seq<Entry>): map<string, seq<Entry>> {
    map key | key in Keys(lower, entries) :: Filed(lower, entries, key)
  }

  function HistoryOf(lower: string -> string, entries: seq<Entry>): map<string, seq<Entry>> {
    SortEach(Grouped(lower, DatedAll(entries)))
  }

  function SortEach(m: map<string, seq<Entry>>): map<string, seq<Entry>> {
    map key | key in m :: SortByStart(m[key])
  }

  /** A later entry under the same key replaces an earlier one. */
  function CatalogOf(lower: string -> string, entries: seq<Entry>): map<string, Entry> {
    if entries == [] then map[]
    else CatalogOf(lower, entries[..|entries| - 1])[lower(entries[|entries| - 1].id) := entries[|entries| - 1]]
  }

  function Current(entries: seq<Entry>): seq<Entry> {
    if entries == [] then []
    else
      var rest, last := Current(entries[..|entries| - 1]), entries[|entries| - 1];
      if last.effectiveTo.None? then rest + [last] else rest
  }

  datatype Memory = Memory(catalog: map<Source, map<string, Entry>>, history: map<Source, map<string, seq<Entry>>>)

  const SOURCES: seq<Source> := [OpenRouter, ModelsDev, LiteLlm, LlmPrices, Nous]

  function Hydrated(lower: string -> string, rows: seq<Row>): Memory {
    Memory(map s: Source | s in SOURCES :: CatalogOf(lower, Current(ToEntries(OfSource(rows, s)))),
           map s: Source | s in SOURCES :: HistoryOf(lower, ToEntries(OfSource(rows, s))))
  }

  lemma EverySourceIsListed(s: Source)
    ensures s in SOURCES
  {
    assert SOURCES[0] == OpenRouter && SOURCES[1] == ModelsDev && SOURCES[2] == LiteLlm
           && SOURCES[3] == LlmPrices && SOURCES[4] == Nous;
  }

  function PriceAt(lower: string -> string, mem: Memory, source: Source, id: string, at: int): Option<Found> {
    if source in mem.history && lower(id) in mem.history[source] then PriceIn(mem.history[source][lower(id)], at)
    else None
  }

  // ── The code ─────────────────────────────────────────────────────

  lemma KeysAppend(lower: string -> string, entries: seq<Entry>, e: Entry)
    ensures Keys(lower, entries + [e]) == Keys(lower, entries) + {lower(e.id)}
  {
    assert forall x :: x in entries + [e] <==> x in entries || x == e;
  }

  lemma FiledAppend(lower: string -> string, entries: seq<Entry>, e: Entry, key: string)
    ensures Filed(lower, entries + [e], key)
            == if lower(e.id) == key then Filed(lower, entries, key) + [e] else Filed(lower, entries, key)
  {
    assert (entries + [e])[..|entries|] == entries;
  }

  lemma GroupedAt(lower: string -> string, entries: seq<Entry>, key: string)
    ensures key in Grouped(lower, entries) <==> key in Keys(lower, entries)
    ensures key in Keys(lower, entries) ==> Grouped(lower, entries)[key] == Filed(lower, entries, key)
    ensures key !in Keys(lower, entries) ==> Filed(lower, entries, key) == []
  {
    FiledOnlyUnderKeys(lower, entries, key);
  }

  lemma SameMap<K, V>(a: map<K, V>, b: map<K, V>)
    requires forall k :: k in a <==> k in b
    requires forall k :: k in a ==> a[k] == b[k]
    ensures a == b
  {
  }

  lemma GroupedAppend(lower: string -> string, entries: seq<Entry>, e: Entry)
    ensures var m, key := Grouped(lower, entries), lower(e.id);
            Grouped(lower, entries + [e]) == m[key := if key in m then m[key] + [e] else [e]]
  {
    var m, m', key := Grouped(lower, entries), Grouped(lower, entries + [e]), lower(e.id);
    var want := m[key := if key in m then m[key] + [e] else [e]];
    KeysAppend(lower, entries, e);
    forall k ensures (k in m' <==> k in want) && (k in m' ==> m'[k] == want[k]) {
      GroupedAt(lower, entries, k);
      GroupedAt(lower, entries + [e], k);
      FiledAppend(lower, entries, e, k);
    }
    SameMap(m', want);
  }

  lemma {:induction false} FiledOnlyUnderKeys(lower: string -> string, entries: seq<Entry>, key: string)
    ensures Filed(lower, entries, key) == [] <==> key !in Keys(lower, entries)
  {
    if entries != [] {
      FiledOnlyUnderKeys(lower, entries[..|entries| - 1], key);
      assert entries == entries[..|entries| - 1] + [entries[|entries| - 1]];
    }
  }

  lemma DatedAppend(entries: seq<Entry>, k: nat)
    requires k < |entries|
    ensures DatedAll(entries[..k + 1]) == DatedAll(entries[..k]) + [Dated(entries[k])]
  {
  }

  class PriceMemory {
    const lower: string -> string
    var catalog: map<Source, map<string, Entry>>
    var history: map<Source, map<string, seq<Entry>>>

    constructor (lower: string -> string)
      ensures this.lower == lower
      ensures catalog == (map s: Source | s in SOURCES :: map[]) && history == (map s: Source | s in SOURCES :: map[])
    {
      this.lower := lower;
      catalog := map s: Source | s in SOURCES :: map[];
      history := map s: Source | s in SOURCES :: map[];
    }

    /** Replaces the in-memory catalog of one oracle. */
    method SetPriceCatalog(source: Source, entries: seq<Entry>)
      modifies this`catalog
      ensures catalog == old(catalog)[source := CatalogOf(lower, entries)]
    {
      var m: map<string, Entry> := map[];
      for k := 0 to |entries|
        invariant m == CatalogOf(lower, entries[..k])
      {
        assert entries[..k + 1][..k] == entries[..k];
        m := m[lower(entries[k].id) := entries[k]];
      }
      assert entries[..|entries|] == entries;
      catalog := catalog[source := m];
    }

    /** Replaces the in-memory history of one oracle: grouped by id ignoring case, each group sorted by start. */
    method SetPriceHistory(source: Source, entries: seq<Entry>)
      modifies this`history
      ensures history == old(history)[source := HistoryOf(lower, entries)]
    {
      var m: map<string, seq<Entry>> := map[];
      ghost var dated: seq<Entry> := [];
      for k := 0 to |entries|
        invariant dated == DatedAll(entries[..k])
        invariant m == Grouped(lower, dated) && history == old(history)
      {
        var row := entries[k].(effectiveFrom := Some(Start(entries[k])));
        var key := lower(row.id);
        DatedAppend(entries, k);
        GroupedAppend(lower, dated, row);
        m := m[key := if key in m then m[key] + [row] else [row]];
        dated := dated + [row];
      }
      TakeAll(entries);
      assert m == Grouped(lower, DatedAll(entries));
      history := history[source := SortEach(m)];
    }
  }

  // ── Sorting ──────────────────────────────────────────────────────

  lemma {:induction false} SortedStaysPut(entries: seq<Entry>)
    requires SortedByStart(entries)
    ensures SortByStart(entries) == entries
  {
    if entries != [] {
      SortedStaysPut(entries[..|entries| - 1]);
    }
  }

  lemma {:induction false} InsertPermutes(sorted: seq<Entry>, e: Entry)
    ensures multiset(InsertByStart(sorted, e)) == multiset(sorted) + multiset{e}
  {
    if sorted != [] && Start(sorted[|sorted| - 1]) > Start(e) {
      InsertPermutes(sorted[..|sorted| - 1], e);
      assert sorted == sorted[..|sorted| - 1] + [sorted[|sorted| - 1]];
    }
  }

  lemma InsertMembers(sorted: seq<Entry>, e: Entry, x: Entry)
    requires x in InsertByStart(sorted, e)
    ensures x in sorted || x == e
  {
    InsertPermutes(sorted, e);
    assert x in multiset(InsertByStart(sorted, e));
  }

  lemma {:induction false} InsertKeepsSorted(sorted: seq<Entry>, e: Entry)
    requires SortedByStart(sorted)
    ensures SortedByStart(InsertByStart(sorted, e))
  {
    if sorted != [] && Start(sorted[|sorted| - 1]) > Start(e) {
      var init, last := sorted[..|sorted| - 1], sorted[|sorted| - 1];
      InsertKeepsSorted(init, e);
      var out := InsertByStart(init, e);
      forall i | 0 <= i < |out| ensures Start(out[i]) <= Start(last) {
        InsertMembers(init, e, out[i]);
      }
    }
  }

  /** Whatever order the rows arrive in, each list ends sorted by start, with the same entries. */
  lemma {:induction false} SortSorts(entries: seq<Entry>)
    ensures SortedByStart(SortByStart(entries)) && multiset(SortByStart(entries)) == multiset(entries)
  {
    if entries != [] {
      SortSorts(entries[..|entries| - 1]);
      InsertKeepsSorted(SortByStart(entries[..|entries| - 1]), entries[|entries| - 1]);
      InsertPermutes(SortByStart(entries[..|entries| - 1]), entries[|entries| - 1]);
      assert entries == entries[..|entries| - 1] + [entries[|entries| - 1]];
    }
  }

  // ── From ledger to lookup ────────────────────────────────────────

  ghost predicate DistinctIgnoringCase(lower: string -> string, rows: seq<Row>, source: Source) {
    forall i, j :: 0 <= i < |rows| && 0 <= j < |rows| && rows[i].source == source && rows[j].source == source
                   && lower(rows[i].modelId) == lower(rows[j].modelId)
                   ==> rows[i].modelId == rows[j].modelId
  }

  lemma EntriesAppend(rows: seq<Row>, row: Row)
    ensures ToEntries(rows + [row]) == ToEntries(rows) + [ToEntry(row)]
  {
  }

  lemma DatedOneMore(rows: seq<Row>, row: Row)
    ensures DatedAll(ToEntries(rows + [row])) == DatedAll(ToEntries(rows)) + [ToEntry(row)]
  {
    EntriesAppend(rows, row);
    assert Dated(ToEntry(row)) == ToEntry(row);
  }

  lemma {:induction false} FiledIsHistory(lower: string -> string, rows: seq<Row>, source: Source, id: string)
    requires forall i :: 0 <= i < |rows| && rows[i].source == source && lower(rows[i].modelId) == lower(id) ==> rows[i].modelId == id
    ensures Filed(lower, DatedAll(ToEntries(OfSource(rows, source))), lower(id)) == ToEntries(History(rows, source, id))
  {
    if rows != [] {
      var init, last := rows[..|rows| - 1], rows[|rows| - 1];
      FiledIsHistory(lower, init, source, id);
      if last.source == source {
        DatedOneMore(OfSource(init, source), last);
        FiledAppend(lower, DatedAll(ToEntries(OfSource(init, source))), ToEntry(last), lower(id));
        EntriesAppend(History(init, source, id), last);
      }
    }
  }

  lemma {:induction false} ContiguousIsSorted(h: seq<Row>, clock: int, i: nat, j: nat)
    requires Contiguous(h, clock) && i <= j < |h|
    ensures h[i].effectiveFrom <= h[j].effectiveFrom
    ensures i < j ==> h[i].effectiveTo.Some? && h[i].effectiveTo.value <= h[j].effectiveFrom
  {
    if i < j {
      assert Follows(h[j - 1], h[j]);
      ContiguousIsSorted(h, clock, i, j - 1);
    }
  }

  /** On a well-formed ledger, the lookup reads exactly the id's own history. */
  lemma LookupReadsHistory(lower: string -> string, rows: seq<Row>, source: Source, id: string, clock: int, at: int)
    requires Contiguous(History(rows, source, id), clock)
    requires forall i :: 0 <= i < |rows| && rows[i].source == source && lower(rows[i].modelId) == lower(id) ==> rows[i].modelId == id
    ensures PriceAt(lower, Hydrated(lower, rows), source, id, at) == PriceIn(ToEntries(History(rows, source, id)), at)
  {
    var entries := ToEntries(OfSource(rows, source));
    var h := History(rows, source, id);
    EverySourceIsListed(source);
    FiledIsHistory(lower, rows, source, id);
    FiledOnlyUnderKeys(lower, DatedAll(entries), lower(id));
    forall i, j | 0 <= i < j < |h| ensures Start(ToEntries(h)[i]) <= Start(ToEntries(h)[j]) {
      ContiguousIsSorted(h, clock, i, j);
    }
    SortedStaysPut(ToEntries(h));
  }

  // ── Exactly one interval in force ────────────────────────────────

  /** The last row begun by an instant covers it, so some row of a contiguous history always does. */
  lemma {:induction false} SomeRowCovers(h: seq<Row>, clock: int, at: int, k: nat) returns (p: nat)
    requires Contiguous(h, clock) && k < |h| && h[k].effectiveFrom <= at
    ensures p < |h| && Covers(ToEntry(h[p]), at)
    decreases |h| - k
  {
    if k == |h| - 1 || h[k].effectiveTo.value > at {
      p := k;
    } else {
      assert Follows(h[k], h[k + 1]);
      p := SomeRowCovers(h, clock, at, k + 1);
    }
  }

  /**
   * From an id's first effective date on, exactly one row covers any instant, the lookup returns it,
   * and it is never flagged: the gap fallback is dead code on a ledger built by syncs.
   */
  lemma ExactlyOneRowInForce(lower: string -> string, rows: seq<Row>, source: Source, id: string, clock: int, at: int)
    requires WellFormed(rows, clock) && DistinctIgnoringCase(lower, rows, source)
    requires var h := History(rows, source, id); h != [] && h[0].effectiveFrom <= at
    ensures var h := History(rows, source, id);
            exists p :: 0 <= p < |h| && Covers(ToEntry(h[p]), at)
              && (forall q :: 0 <= q < |h| && Covers(ToEntry(h[q]), at) ==> q == p)
              && PriceAt(lower, Hydrated(lower, rows), source, id, at) == Some(Found(ToEntry(h[p]), false))
  {
    var h := History(rows, source, id);
    var p := SomeRowCovers(h, clock, at, 0);
    forall q | 0 <= q < |h| && Covers(ToEntry(h[q]), at) ensures q == p {
      if q < p { ContiguousIsSorted(h, clock, q, p); }
      if p < q { ContiguousIsSorted(h, clock, p, q); }
    }
    KnownIdIsDistinct(lower, rows, source, id);
    LookupReadsHistory(lower, rows, source, id, clock, at);
    var k := CoverIndex(ToEntries(h), at);
    assert ToEntries(h)[p] == ToEntry(h[p]);
    assert k < |h| && ToEntries(h)[k] == ToEntry(h[k]);
  }

  lemma {:induction false} HistoryComesFromRows(rows: seq<Row>, source: Source, id: string)
    ensures History(rows, source, id) != [] <==> exists i :: 0 <= i < |rows| && HasKey(rows[i], source, id)
  {
    if rows != [] {
      var n := |rows| - 1;
      HistoryComesFromRows(rows[..n], source, id);
      if HasKey(rows[n], source, id) {
      } else if History(rows[..n], source, id) != [] {
        var i :| 0 <= i < n && HasKey(rows[..n][i], source, id);
        assert HasKey(rows[i], source, id);
      } else {
        forall i | 0 <= i < |rows| ensures !HasKey(rows[i], source, id) {
          if i < n { assert rows[..n][i] == rows[i]; }
        }
      }
    }
  }

  lemma KnownIdIsDistinct(lower: string -> string, rows: seq<Row>, source: Source, id: string)
    requires DistinctIgnoringCase(lower, rows, source) && History(rows, source, id) != []
    ensures forall i :: 0 <= i < |rows| && rows[i].source == source && lower(rows[i].modelId) == lower(id) ==> rows[i].modelId == id
  {
    HistoryComesFromRows(rows, source, id);
  }

  // ── The past is frozen ───────────────────────────────────────────

  /** The same row of the book, seen before and after a sync: closed at the earliest at `now`. */
  ghost predicate SameRowUntil(e: Entry, e': Entry, now: int) {
    && e'.id == e.id && e'.source == e.source && e'.price == e.price && e'.effectiveFrom == e.effectiveFrom
    && e.effectiveFrom.Some?
    && (e'.effectiveTo == e.effectiveTo || (e.effectiveTo.None? && e'.effectiveTo == Some(now)))
  }

  ghost predicate SameListUntil(a: seq<Entry>, b: seq<Entry>, now: int) {
    && |a| <= |b|
    && (forall p :: 0 <= p < |a| ==> SameRowUntil(a[p], b[p], now))
    && (forall p :: |a| <= p < |b| ==> Start(b[p]) >= now)
  }

  /** Before `now` the two lists answer alike, up to when the answering row ends. */
  lemma SameAnswerUntil(a: seq<Entry>, b: seq<Entry>, now: int, at: int)
    requires SameListUntil(a, b, now) && at < now && a != []
    requires CoverIndex(a, at) < |a| || at < Start(a[0])
    ensures PriceIn(a, at).Some? && PriceIn(b, at).Some?
    ensures PriceIn(b, at).value.backdated == PriceIn(a, at).value.backdated
    ensures SameRowUntil(PriceIn(a, at).value.entry, PriceIn(b, at).value.entry, now)
  {
    var i, j := CoverIndex(a, at), CoverIndex(b, at);
    forall p | 0 <= p < |a| ensures Covers(b[p], at) <==> Covers(a[p], at) {
      assert SameRowUntil(a[p], b[p], now);
    }
    assert SameRowUntil(a[0], b[0], now);
    if i < |a| {
      assert j == i;
    } else {
      assert j == |b|;
    }
  }

  /** A history whose open end was rewritten in place, and followed by rows that start at `now`, is the same list until then. */
  lemma SameListSteps(h: seq<Row>, last: Row, tail: seq<Row>, now: int)
    requires h != [] ==> SameRowUntil(ToEntry(h[|h| - 1]), ToEntry(last), now)
    requires forall p :: 0 <= p < |tail| ==> tail[p].effectiveFrom >= now
    ensures SameListUntil(ToEntries(h), ToEntries((if h == [] then [] else h[..|h| - 1] + [last]) + tail), now)
  {
    var kept := if h == [] then [] else h[..|h| - 1] + [last];
    forall p | 0 <= p < |h| ensures SameRowUntil(ToEntry(h[p]), ToEntry((kept + tail)[p]), now) {
      assert (kept + tail)[p] == if p == |h| - 1 then last else h[p];
    }
    forall p | |h| <= p < |kept + tail| ensures Start(ToEntry((kept + tail)[p])) >= now {
      assert (kept + tail)[p] == tail[p - |h|];
    }
  }

  /** A sync leaves an id's history the same list, up to the sync's own instant. */
  lemma SyncKeepsListUntil(same: SamePriceTest, rows: seq<Row>, source: Source, feed: seq<Upstream>, now: int, runId: nat,
                           s: Source, id: string, clock: int)
    requires Contiguous(History(rows, s, id), clock) && clock <= now
    ensures SameListUntil(ToEntries(History(rows, s, id)),
                          ToEntries(History(Sync(same, rows, source, feed, now, runId), s, id)), now)
  {
    var h, r := History(rows, s, id), Listing(feed, id);
    SyncHistory(same, rows, source, feed, now, runId, s, id, clock);
    var tail := if s == source && r.Some? && (h == [] || !same(h[|h| - 1].price, r.value.price))
                then [NewRow(source, r.value, now, runId)] else [];
    if h == [] {
      SameListSteps(h, NewRow(s, Upstream(id, About(None, None, None), Price(0.0, 0.0, 0.0, 0.0)), now, runId), tail, now);
    } else {
      SameListSteps(h, SyncedRow(same, h[|h| - 1], source, feed, now), tail, now);
    }
  }

  /**
   * The past is frozen: for an id already in the book, a sync changes neither the price nor the
   * backdated flag of any instant before it.
   */
  lemma PastPricesAreFrozen(lower: string -> string, same: SamePriceTest, rows: seq<Row>, source: Source, feed: seq<Upstream>,
                            clock: int, now: int, runId: nat, s: Source, id: string, at: int)
    requires WellFormed(rows, clock) && clock <= now && at < now
    requires DistinctIgnoringCase(lower, rows, s) && DistinctIgnoringCase(lower, Sync(same, rows, source, feed, now, runId), s)
    requires History(rows, s, id) != []
    ensures var rows' := Sync(same, rows, source, feed, now, runId);
            var old_, new_ := PriceAt(lower, Hydrated(lower, rows), s, id, at), PriceAt(lower, Hydrated(lower, rows'), s, id, at);
            && old_.Some? && new_.Some? && new_.value.backdated == old_.value.backdated
            && SameRowUntil(old_.value.entry, new_.value.entry, now)
  {
    var rows' := Sync(same, rows, source, feed, now, runId);
    var h, h' := History(rows, s, id), History(rows', s, id);
    SyncKeepsWellFormed(same, rows, source, feed, clock, now, runId);
    SyncKeepsListUntil(same, rows, source, feed, now, runId, s, id, clock);
    KnownIdIsDistinct(lower, rows, s, id);
    KnownIdIsDistinct(lower, rows', s, id);
    LookupReadsHistory(lower, rows, s, id, clock, at);
    LookupReadsHistory(lower, rows', s, id, now, at);
    assert Contiguous(h, clock);
    if h[0].effectiveFrom <= at {
      var p := SomeRowCovers(h, clock, at, 0);
      assert ToEntries(h)[p] == ToEntry(h[p]);
    }
    SameAnswerUntil(ToEntries(h), ToEntries(h'), now, at);
  }
}
