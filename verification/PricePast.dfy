/**
 * What a later sync leaves alone about the price of an earlier instant (packages/core/pricing.ts,
 * packages/core/pricing-sync.ts): which candidates it makes known, and the answers it does not overtake.
 */
module PricePast {
  import opened Wrappers
  import opened Seqs
  import opened PriceLedger
  import opened PriceLookup
  import opened PriceCost

  // ── A booked past never moves ────────────────────────────────────

  /** A resolved price apart from when it ended. */
  ghost predicate SamePriceAnswer(a: Option<Resolved>, b: Option<Resolved>) {
    if a.None? || b.None? then a == b else b.value == a.value.(effectiveTo := b.value.effectiveTo)
  }

  /** A source's book has some id that reads as this candidate. */
  ghost predicate Known(rules: Rules, rows: seq<Row>, source: Source, candidate: string) {
    exists i :: 0 <= i < |rows| && rows[i].source == source && rules.lower(rows[i].modelId) == rules.lower(candidate)
  }

  /** The history map holds exactly the known keys. */
  lemma HistoryHoldsKnown(rules: Rules, rows: seq<Row>, source: Source, candidate: string)
    ensures Known(rules, rows, source, candidate)
            <==> rules.lower(candidate) in Hydrated(rules.lower, rows).history[source]
  {
    var key, entries := rules.lower(candidate), DatedAll(ToEntries(OfSource(rows, source)));
    EverySourceIsListed(source);
    OfSourceMembers(rows, source, key, rules.lower);
    if key in Keys(rules.lower, entries) {
      var e :| e in entries && rules.lower(e.id) == key;
      var p :| 0 <= p < |entries| && entries[p] == e;
      assert rules.lower(OfSource(rows, source)[p].modelId) == key;
    }
    if Known(rules, rows, source, candidate) {
      var p :| 0 <= p < |OfSource(rows, source)| && rules.lower(OfSource(rows, source)[p].modelId) == key;
      assert entries[p] in entries;
    }
  }

  lemma {:induction false} OfSourceMembers(rows: seq<Row>, source: Source, key: string, lower: string -> string)
    ensures (exists i :: 0 <= i < |rows| && rows[i].source == source && lower(rows[i].modelId) == key)
            <==> (exists p :: 0 <= p < |OfSource(rows, source)| && lower(OfSource(rows, source)[p].modelId) == key)
  {
    if rows != [] {
      var n, init, last := |rows| - 1, rows[..|rows| - 1], rows[|rows| - 1];
      OfSourceMembers(init, source, key, lower);
      var os, os' := OfSource(init, source), OfSource(rows, source);
      assert forall i :: 0 <= i < n ==> rows[i] == init[i];
      assert forall p :: 0 <= p < |os| ==> os'[p] == os[p];
      if last.source == source {
        assert os'[|os|] == last;
        if lower(last.modelId) == key { assert rows[n].source == source; }
      }
    }
  }

  /** Every catalog key is a history key: nothing current is missing from the book. */
  lemma CatalogKeysAreKnown(lower: string -> string, entries: seq<Entry>, key: string)
    requires key in CatalogOf(lower, Current(entries))
    ensures key in Keys(lower, DatedAll(entries))
  {
    CatalogKeys(lower, Current(entries), key);
    var e :| e in Current(entries) && lower(e.id) == key;
    CurrentIsSubset(entries, e);
    var i :| 0 <= i < |entries| && entries[i] == e;
    assert DatedAll(entries)[i] in DatedAll(entries);
  }

  lemma {:induction false} CatalogKeys(lower: string -> string, entries: seq<Entry>, key: string)
    ensures key in CatalogOf(lower, entries) ==> key in Keys(lower, entries)
  {
    if entries != [] {
      CatalogKeys(lower, entries[..|entries| - 1], key);
      assert entries == entries[..|entries| - 1] + [entries[|entries| - 1]];
    }
  }

  lemma {:induction false} CurrentIsSubset(entries: seq<Entry>, e: Entry)
    ensures e in Current(entries) ==> e in entries
  {
    if entries != [] {
      CurrentIsSubset(entries[..|entries| - 1], e);
    }
  }

  /** With a time asked for, the catalog never answers what history did not: it holds no id the book lacks. */
  lemma {:induction false} CatalogAddsNothing(rules: Rules, rows: seq<Row>, source: Source, candidates: seq<string>)
    requires forall k :: 0 <= k < |candidates| ==>
               rules.lower(candidates[k]) == candidates[k] && !Known(rules, rows, source, candidates[k])
    ensures FromCatalog(rules, Hydrated(rules.lower, rows), source, candidates) == None
  {
    if candidates != [] {
      var c := candidates[0];
      HistoryHoldsKnown(rules, rows, source, c);
      EverySourceIsListed(source);
      if c in Hydrated(rules.lower, rows).catalog[source] {
        CatalogKeysAreKnown(rules.lower, ToEntries(OfSource(rows, source)), c);
      }
      CatalogAddsNothing(rules, rows, source, candidates[1..]);
    }
  }

  ghost predicate LowerCased(rules: Rules, candidates: seq<string>) {
    forall c :: c in candidates ==> rules.lower(c) == c
  }

  ghost predicate AllDistinctIgnoringCase(rules: Rules, rows: seq<Row>) {
    forall s :: DistinctIgnoringCase(rules.lower, rows, s)
  }

  /** The two states a sync joins: well-formed, closed under growth, distinct ignoring case. */
  ghost predicate SyncJoins(rules: Rules, same: SamePriceTest, rows: seq<Row>, rows': seq<Row>, a: Attempt, runId: nat, clock: int) {
    && a.feed.Success? && rows' == Sync(same, rows, a.source, a.feed.value, a.now, runId)
    && WellFormed(rows, clock) && clock <= a.now
    && AllDistinctIgnoringCase(rules, rows) && AllDistinctIgnoringCase(rules, rows')
  }

  // ── When a known candidate is overtaken ──────────────────────────

  /** Which candidates which books know. */
  type Knowledge = (Source, string) -> bool

  ghost function KnownIn(rules: Rules, rows: seq<Row>): Knowledge {
    (s, c) => Known(rules, rows, s, c)
  }

  ghost predicate KnowsNone(knows: Knowledge, source: Source, candidates: seq<string>) {
    forall j :: 0 <= j < |candidates| ==> !knows(source, candidates[j])
  }

  /** Within one book: a candidate came to be known, and neither it nor any before it was known before. */
  ghost predicate OvertakenIn(was: Knowledge, knows: Knowledge, source: Source, candidates: seq<string>) {
    exists j :: 0 <= j < |candidates| && knows(source, candidates[j]) && KnowsNone(was, source, candidates[..j + 1])
  }

  /** A preferred book was overtaken, and no book preferred to it knew any candidate before. */
  ghost predicate Overtaken(was: Knowledge, knows: Knowledge, prefer: seq<Source>, candidates: seq<string>) {
    exists p :: 0 <= p < |prefer| && OvertakenIn(was, knows, prefer[p], candidates)
                && forall q :: 0 <= q < p ==> KnowsNone(was, prefer[q], candidates)
  }

  lemma OvertakenInTail(was: Knowledge, knows: Knowledge, s: Source, candidates: seq<string>)
    requires candidates != [] && !was(s, candidates[0])
    ensures OvertakenIn(was, knows, s, candidates)
            <==> knows(s, candidates[0]) || OvertakenIn(was, knows, s, candidates[1..])
  {
    var rest := candidates[1..];
    if knows(s, candidates[0]) {
      assert KnowsNone(was, s, candidates[..0 + 1]);
    } else {
      if OvertakenIn(was, knows, s, rest) {
        var j :| 0 <= j < |rest| && knows(s, rest[j]) && KnowsNone(was, s, rest[..j + 1]);
        assert candidates[..j + 2] == [candidates[0]] + rest[..j + 1] && KnowsNone(was, s, candidates[..j + 1 + 1]);
        assert knows(s, candidates[j + 1]);
      }
      OvertakenInLater(was, knows, s, candidates);
    }
  }

  lemma OvertakenInLater(was: Knowledge, knows: Knowledge, s: Source, candidates: seq<string>)
    requires candidates != [] && !knows(s, candidates[0])
    ensures OvertakenIn(was, knows, s, candidates) ==> OvertakenIn(was, knows, s, candidates[1..])
  {
    var rest := candidates[1..];
    if OvertakenIn(was, knows, s, candidates) {
      var j :| 0 <= j < |candidates| && knows(s, candidates[j]) && KnowsNone(was, s, candidates[..j + 1]);
      forall i | 0 <= i < j ensures !was(s, rest[..j][i]) {
        assert rest[..j][i] == candidates[..j + 1][i + 1];
      }
      assert rest[j - 1] == candidates[j] && KnowsNone(was, s, rest[..j - 1 + 1]);
    }
  }

  lemma OvertakenTail(was: Knowledge, knows: Knowledge, prefer: seq<Source>, candidates: seq<string>)
    requires prefer != []
    ensures Overtaken(was, knows, prefer, candidates)
            <==> OvertakenIn(was, knows, prefer[0], candidates)
                 || (KnowsNone(was, prefer[0], candidates) && Overtaken(was, knows, prefer[1..], candidates))
  {
    var rest := prefer[1..];
    if Overtaken(was, knows, prefer, candidates) {
      var p :| 0 <= p < |prefer| && OvertakenIn(was, knows, prefer[p], candidates)
               && forall q :: 0 <= q < p ==> KnowsNone(was, prefer[q], candidates);
      if p > 0 {
        assert rest[p - 1] == prefer[p];
        forall q | 0 <= q < p - 1 ensures KnowsNone(was, rest[q], candidates) { assert rest[q] == prefer[q + 1]; }
      }
    }
    if KnowsNone(was, prefer[0], candidates) && Overtaken(was, knows, rest, candidates) {
      var p :| 0 <= p < |rest| && OvertakenIn(was, knows, rest[p], candidates)
               && forall q :: 0 <= q < p ==> KnowsNone(was, rest[q], candidates);
      forall q | 0 <= q < p + 1 ensures KnowsNone(was, prefer[q], candidates) { if q > 0 { assert prefer[q] == rest[q - 1]; } }
      assert prefer[p + 1] == rest[p];
    }
  }

  lemma KnowsNoneTail(knows: Knowledge, s: Source, candidates: seq<string>)
    requires candidates != []
    ensures KnowsNone(knows, s, candidates) <==> !knows(s, candidates[0]) && KnowsNone(knows, s, candidates[1..])
  {
    var rest := candidates[1..];
    if !knows(s, candidates[0]) && KnowsNone(knows, s, rest) {
      forall j | 0 <= j < |candidates| ensures !knows(s, candidates[j]) { if j > 0 { assert candidates[j] == rest[j - 1]; } }
    }
    if KnowsNone(knows, s, candidates) {
      forall j | 0 <= j < |rest| ensures !knows(s, rest[j]) { assert rest[j] == candidates[j + 1]; }
    }
  }

  /** A book that was not overtaken, and knew nothing, knows nothing still. */
  lemma StillKnowsNone(was: Knowledge, knows: Knowledge, s: Source, candidates: seq<string>)
    requires KnowsNone(was, s, candidates) && !OvertakenIn(was, knows, s, candidates)
    ensures KnowsNone(knows, s, candidates)
  {
    forall j | 0 <= j < |candidates| ensures !knows(s, candidates[j]) {
      assert KnowsNone(was, s, candidates[..j + 1]);
    }
  }

  ghost predicate Within(a: Knowledge, b: Knowledge) {
    forall s, c :: a(s, c) ==> b(s, c)
  }

  lemma NoneWithin(a: Knowledge, b: Knowledge, s: Source, candidates: seq<string>)
    requires Within(a, b) && KnowsNone(b, s, candidates)
    ensures KnowsNone(a, s, candidates)
  {
  }

  /** What is overtaken in two steps is overtaken in one. */
  lemma OvertakenInWiden(a: Knowledge, b: Knowledge, c: Knowledge, d: Knowledge, s: Source, candidates: seq<string>)
    requires Within(a, b) && Within(c, d) && OvertakenIn(b, c, s, candidates)
    ensures OvertakenIn(a, d, s, candidates)
  {
    var j :| 0 <= j < |candidates| && c(s, candidates[j]) && KnowsNone(b, s, candidates[..j + 1]);
    NoneWithin(a, b, s, candidates[..j + 1]);
    assert d(s, candidates[j]);
  }

  lemma OvertakenWiden(a: Knowledge, b: Knowledge, c: Knowledge, d: Knowledge, prefer: seq<Source>, candidates: seq<string>)
    requires Within(a, b) && Within(c, d) && Overtaken(b, c, prefer, candidates)
    ensures Overtaken(a, d, prefer, candidates)
  {
    var p :| 0 <= p < |prefer| && OvertakenIn(b, c, prefer[p], candidates)
             && forall q :: 0 <= q < p ==> KnowsNone(b, prefer[q], candidates);
    OvertakenInWiden(a, b, c, d, prefer[p], candidates);
    forall q | 0 <= q < p ensures KnowsNone(a, prefer[q], candidates) {
      NoneWithin(a, b, prefer[q], candidates);
    }
  }

  lemma KnownGrows(rules: Rules, rows: seq<Row>, rows': seq<Row>)
    requires Extends(rows, rows')
    ensures Within(KnownIn(rules, rows), KnownIn(rules, rows'))
  {
    forall s, c | Known(rules, rows, s, c) ensures Known(rules, rows', s, c) {
      var i :| 0 <= i < |rows| && rows[i].source == s && rules.lower(rows[i].modelId) == rules.lower(c);
      assert HasKey(rows'[i], rows[i].source, rows[i].modelId);
    }
  }

  ghost predicate Lists(rules: Rules, feed: seq<Upstream>, c: string) {
    exists r :: r in feed && rules.lower(r.id) == rules.lower(c)
  }

  lemma {:induction false} NewRowsAreListed(same: SamePriceTest, rows: seq<Row>, source: Source, feed: seq<Upstream>, now: int, runId: nat)
    ensures forall i :: 0 <= i < |NewRows(same, rows, source, feed, now, runId)| ==>
              var row := NewRows(same, rows, source, feed, now, runId)[i];
              && row.source == source && row.effectiveFrom == now
              && exists r :: r in feed && r.id == row.modelId
  {
    if feed != [] {
      var init, last := feed[..|feed| - 1], feed[|feed| - 1];
      NewRowsAreListed(same, rows, source, init, now, runId);
      assert feed == init + [last] && last in feed;
    }
  }

  /** What a sync makes known can be read off its feed. */
  lemma SyncMakesKnown(rules: Rules, same: SamePriceTest, rows: seq<Row>, source: Source, feed: seq<Upstream>, now: int, runId: nat,
                       s: Source, c: string)
    ensures Known(rules, Sync(same, rows, source, feed, now, runId), s, c)
            <==> Known(rules, rows, s, c) || (s == source && Lists(rules, feed, c))
  {
    var rows' := Sync(same, rows, source, feed, now, runId);
    KnownGrows(rules, rows, rows');
    if KnownIn(rules, rows)(s, c) {
      assert KnownIn(rules, rows')(s, c);
    } else if s == source && Lists(rules, feed, c) {
      var r :| r in feed && rules.lower(r.id) == rules.lower(c);
      ListedIsBooked(same, rows, source, feed, now, runId, r);
      var i :| 0 <= i < |rows'| && HasKey(rows'[i], source, r.id);
      assert rows'[i].source == source;
    } else if Known(rules, rows', s, c) {
      var i :| 0 <= i < |rows'| && rows'[i].source == s && rules.lower(rows'[i].modelId) == rules.lower(c);
      NewRowsAreListed(same, rows, source, feed, now, runId);
      if i < |rows| { assert rows[i].source == s; }
    }
  }

  lemma ListedIsBooked(same: SamePriceTest, rows: seq<Row>, source: Source, feed: seq<Upstream>, now: int, runId: nat, r: Upstream)
    requires r in feed
    ensures var rows' := Sync(same, rows, source, feed, now, runId);
            exists i :: 0 <= i < |rows'| && HasKey(rows'[i], source, r.id)
  {
    var rows' := Sync(same, rows, source, feed, now, runId);
    HistoryComesFromRows(rows, source, r.id);
    HistoryComesFromRows(rows', source, r.id);
    if History(rows, source, r.id) == [] {
      ListingIsAMember(feed, r.id);
      SyncHistory(same, rows, source, feed, now, runId, source, r.id, now);
    } else {
      var i :| 0 <= i < |rows| && HasKey(rows[i], source, r.id);
      assert HasKey(rows'[i], source, r.id);
    }
  }

  // ── What a lookup can answer from ────────────────────────────────

  lemma {:induction false} FiledComesFrom(lower: string -> string, entries: seq<Entry>, key: string, e: Entry)
    requires e in Filed(lower, entries, key)
    ensures e in entries && lower(e.id) == key
  {
    var init, last := entries[..|entries| - 1], entries[|entries| - 1];
    assert entries == init + [last];
    if e in Filed(lower, init, key) { FiledComesFrom(lower, init, key, e); }
  }

  lemma {:induction false} OfSourceComesFrom(rows: seq<Row>, source: Source, row: Row)
    requires row in OfSource(rows, source)
    ensures row in rows && row.source == source
  {
    var init, last := rows[..|rows| - 1], rows[|rows| - 1];
    assert rows == init + [last];
    if row in OfSource(init, source) { OfSourceComesFrom(init, source, row); }
  }

  lemma SortedMembers(entries: seq<Entry>)
    ensures |SortByStart(entries)| == |entries| && forall e :: e in SortByStart(entries) ==> e in entries
  {
    SortSorts(entries);
    assert |multiset(SortByStart(entries))| == |SortByStart(entries)| && |multiset(entries)| == |entries|;
    forall e | e in SortByStart(entries) ensures e in entries {
      assert e in multiset(SortByStart(entries));
    }
  }

  lemma PriceInIsListed(list: seq<Entry>, at: int)
    requires list != []
    ensures PriceIn(list, at).Some? && PriceIn(list, at).value.entry in list
    ensures !PriceIn(list, at).value.backdated ==> Start(PriceIn(list, at).value.entry) <= at
  {
  }

  lemma HistoryIsSorted(lower: string -> string, rows: seq<Row>, source: Source, key: string)
    requires key in Hydrated(lower, rows).history[source]
    ensures Hydrated(lower, rows).history[source][key]
            == SortByStart(Filed(lower, DatedAll(ToEntries(OfSource(rows, source))), key)) != []
  {
    var entries := DatedAll(ToEntries(OfSource(rows, source)));
    EverySourceIsListed(source);
    FiledOnlyUnderKeys(lower, entries, key);
    SortedMembers(Filed(lower, entries, key));
  }

  /** A lookup answers exactly for what its book knows. */
  lemma KnownIsPriced(rules: Rules, rows: seq<Row>, source: Source, c: string, at: int)
    ensures Known(rules, rows, source, c) <==> PriceAt(rules.lower, Hydrated(rules.lower, rows), source, c, at).Some?
  {
    HistoryHoldsKnown(rules, rows, source, c);
    EverySourceIsListed(source);
    if Known(rules, rows, source, c) {
      HistoryIsSorted(rules.lower, rows, source, rules.lower(c));
      PriceInIsListed(Hydrated(rules.lower, rows).history[source][rules.lower(c)], at);
    }
  }

  /** What it answers is a row of the book under that key, begun by the instant unless flagged. */
  lemma EntryIsARow(lower: string -> string, rows: seq<Row>, source: Source, c: string, at: int) returns (i: nat)
    requires PriceAt(lower, Hydrated(lower, rows), source, c, at).Some?
    ensures i < |rows| && rows[i].source == source && lower(rows[i].modelId) == lower(c)
    ensures var found := PriceAt(lower, Hydrated(lower, rows), source, c, at).value;
            found.entry == ToEntry(rows[i]) && (!found.backdated ==> rows[i].effectiveFrom <= at)
  {
    var key, os := lower(c), OfSource(rows, source);
    var entries := DatedAll(ToEntries(os));
    var e := PriceAt(lower, Hydrated(lower, rows), source, c, at).value.entry;
    HistoryIsSorted(lower, rows, source, key);
    PriceInIsListed(Hydrated(lower, rows).history[source][key], at);
    SortedMembers(Filed(lower, entries, key));
    FiledComesFrom(lower, entries, key, e);
    var p :| 0 <= p < |entries| && entries[p] == e;
    OfSourceComesFrom(rows, source, os[p]);
    i :| 0 <= i < |rows| && rows[i] == os[p];
  }

  lemma {:induction false} HistoryAnswersKnown(rules: Rules, rows: seq<Row>, source: Source, candidates: seq<string>, at: int)
    ensures FromHistory(rules, Hydrated(rules.lower, rows), source, candidates, at).None?
            <==> KnowsNone(KnownIn(rules, rows), source, candidates)
  {
    if candidates != [] {
      KnownIsPriced(rules, rows, source, candidates[0], at);
      HistoryAnswersKnown(rules, rows, source, candidates[1..], at);
      KnowsNoneTail(KnownIn(rules, rows), source, candidates);
    }
  }

  /** With a time asked for, a source's answer is its history's, and there is one exactly if a candidate is known. */
  lemma SourceIsHistory(rules: Rules, rows: seq<Row>, source: Source, candidates: seq<string>, at: int)
    requires LowerCased(rules, candidates)
    ensures FromSource(rules, Hydrated(rules.lower, rows), source, candidates, Some(at))
            == FromHistory(rules, Hydrated(rules.lower, rows), source, candidates, at)
    ensures FromSource(rules, Hydrated(rules.lower, rows), source, candidates, Some(at)).None?
            <==> KnowsNone(KnownIn(rules, rows), source, candidates)
  {
    HistoryAnswersKnown(rules, rows, source, candidates, at);
    if KnowsNone(KnownIn(rules, rows), source, candidates) {
      forall k | 0 <= k < |candidates| ensures !Known(rules, rows, source, candidates[k]) {
        assert !KnownIn(rules, rows)(source, candidates[k]);
      }
      CatalogAddsNothing(rules, rows, source, candidates);
    }
  }

  // ── Unless overtaken, an answer stands ───────────────────────────

  lemma SameKeySameAnswer(lower: string -> string, mem: Memory, s: Source, id: string, c: string, at: int)
    requires lower(id) == lower(c)
    ensures PriceAt(lower, mem, s, id, at) == PriceAt(lower, mem, s, c, at)
  {
  }

  /** One candidate in two books: priced the same if the older knew it, else priced by the newer alone if at all. */
  ghost predicate AnswersAlike(rules: Rules, old_: Memory, new_: Memory, s: Source, c: string, at: int, now: int, was: bool, knows: bool) {
    var a, b := PriceAt(rules.lower, old_, s, c, at), PriceAt(rules.lower, new_, s, c, at);
    if was
    then a.Some? && b.Some? && b.value.backdated == a.value.backdated && SameRowUntil(a.value.entry, b.value.entry, now)
    else a.None? && (b.Some? <==> knows)
  }

  lemma KnownIsFrozen(rules: Rules, same: SamePriceTest, rows: seq<Row>, rows': seq<Row>, a: Attempt, runId: nat,
                      clock: int, s: Source, c: string, at: int, id: string)
    requires SyncJoins(rules, same, rows, rows', a, runId, clock) && at < a.now
    requires rules.lower(id) == rules.lower(c) && exists i :: 0 <= i < |rows| && HasKey(rows[i], s, id)
    ensures AnswersAlike(rules, Hydrated(rules.lower, rows), Hydrated(rules.lower, rows'), s, c, at, a.now, true, true)
  {
    HistoryComesFromRows(rows, s, id);
    SameKeySameAnswer(rules.lower, Hydrated(rules.lower, rows), s, id, c, at);
    SameKeySameAnswer(rules.lower, Hydrated(rules.lower, rows'), s, id, c, at);
    PastPricesAreFrozen(rules.lower, same, rows, a.source, a.feed.value, clock, a.now, runId, s, id, at);
  }

  /** One candidate, one source, one sync: priced the same by both books if it was known, else by the newer exactly if it now is. */
  lemma CandidateIsFrozen(rules: Rules, same: SamePriceTest, rows: seq<Row>, rows': seq<Row>, a: Attempt, runId: nat,
                          clock: int, s: Source, c: string, at: int)
    requires SyncJoins(rules, same, rows, rows', a, runId, clock) && at < a.now
    ensures AnswersAlike(rules, Hydrated(rules.lower, rows), Hydrated(rules.lower, rows'), s, c, at, a.now,
                         Known(rules, rows, s, c), Known(rules, rows', s, c))
  {
    if Known(rules, rows, s, c) {
      var i :| 0 <= i < |rows| && rows[i].source == s && rules.lower(rows[i].modelId) == rules.lower(c);
      assert HasKey(rows[i], s, rows[i].modelId);
      KnownIsFrozen(rules, same, rows, rows', a, runId, clock, s, c, at, rows[i].modelId);
    } else {
      KnownIsPriced(rules, rows, s, c, at);
      KnownIsPriced(rules, rows', s, c, at);
    }
  }

  lemma FromEntryAlike(rules: Rules, a: Entry, b: Entry, s: Source, backdated: bool, now: int)
    requires SameRowUntil(a, b, now)
    ensures SamePriceAnswer(Some(FromEntry(rules, a, s, backdated)), Some(FromEntry(rules, b, s, backdated)))
  {
  }

  lemma {:induction false} FromHistoryAlike(rules: Rules, old_: Memory, new_: Memory, s: Source, candidates: seq<string>, at: int,
                                            now: int, was: Knowledge, knows: Knowledge)
    requires forall c :: c in candidates ==> AnswersAlike(rules, old_, new_, s, c, at, now, was(s, c), knows(s, c))
    requires !OvertakenIn(was, knows, s, candidates)
    ensures SamePriceAnswer(FromHistory(rules, old_, s, candidates, at), FromHistory(rules, new_, s, candidates, at))
  {
    if candidates != [] {
      var c := candidates[0];
      assert AnswersAlike(rules, old_, new_, s, c, at, now, was(s, c), knows(s, c));
      if was(s, c) {
        FromEntryAlike(rules, PriceAt(rules.lower, old_, s, c, at).value.entry, PriceAt(rules.lower, new_, s, c, at).value.entry,
                       s, PriceAt(rules.lower, old_, s, c, at).value.backdated, now);
      } else {
        OvertakenInTail(was, knows, s, candidates);
        FromHistoryAlike(rules, old_, new_, s, candidates[1..], at, now, was, knows);
      }
    }
  }

  lemma SourceAnswerIsFrozen(rules: Rules, same: SamePriceTest, rows: seq<Row>, rows': seq<Row>, a: Attempt,
                             runId: nat, clock: int, s: Source, candidates: seq<string>, at: int)
    requires SyncJoins(rules, same, rows, rows', a, runId, clock) && at < a.now && LowerCased(rules, candidates)
    requires !OvertakenIn(KnownIn(rules, rows), KnownIn(rules, rows'), s, candidates)
    ensures SamePriceAnswer(FromSource(rules, Hydrated(rules.lower, rows), s, candidates, Some(at)),
                            FromSource(rules, Hydrated(rules.lower, rows'), s, candidates, Some(at)))
  {
    var old_, new_ := Hydrated(rules.lower, rows), Hydrated(rules.lower, rows');
    var was, knows := KnownIn(rules, rows), KnownIn(rules, rows');
    forall c | c in candidates ensures AnswersAlike(rules, old_, new_, s, c, at, a.now, was(s, c), knows(s, c)) {
      CandidateIsFrozen(rules, same, rows, rows', a, runId, clock, s, c, at);
    }
    FromHistoryAlike(rules, old_, new_, s, candidates, at, a.now, was, knows);
    SourceIsHistory(rules, rows, s, candidates, at);
    SourceIsHistory(rules, rows', s, candidates, at);
  }

  lemma {:induction false} SourcesAnswerIsFrozen(rules: Rules, same: SamePriceTest, rows: seq<Row>, rows': seq<Row>, a: Attempt,
                                                 runId: nat, clock: int, prefer: seq<Source>, candidates: seq<string>, at: int)
    requires SyncJoins(rules, same, rows, rows', a, runId, clock) && at < a.now && LowerCased(rules, candidates)
    requires !Overtaken(KnownIn(rules, rows), KnownIn(rules, rows'), prefer, candidates)
    ensures SamePriceAnswer(FromSources(rules, Hydrated(rules.lower, rows), prefer, candidates, Some(at)),
                            FromSources(rules, Hydrated(rules.lower, rows'), prefer, candidates, Some(at)))
  {
    if prefer != [] {
      OvertakenTail(KnownIn(rules, rows), KnownIn(rules, rows'), prefer, candidates);
      SourceAnswerIsFrozen(rules, same, rows, rows', a, runId, clock, prefer[0], candidates, at);
      SourceIsHistory(rules, rows, prefer[0], candidates, at);
      if KnowsNone(KnownIn(rules, rows), prefer[0], candidates) {
        SourcesAnswerIsFrozen(rules, same, rows, rows', a, runId, clock, prefer[1..], candidates, at);
      }
    }
  }

  // ── ... over any number of syncs ─────────────────────────────────

  lemma DistinctShrinks(rules: Rules, rows: seq<Row>, rows': seq<Row>)
    requires Extends(rows, rows') && AllDistinctIgnoringCase(rules, rows')
    ensures AllDistinctIgnoringCase(rules, rows)
  {
    forall s ensures DistinctIgnoringCase(rules.lower, rows, s) {
      assert DistinctIgnoringCase(rules.lower, rows', s);
      forall i | 0 <= i < |rows| ensures HasKey(rows'[i], rows[i].source, rows[i].modelId) { }
    }
  }

  /** Whether the syncs of a run from the k-th on overtake what the book knew of some candidates. */
  ghost predicate OvertakenSince(rules: Rules, same: SamePriceTest, run: seq<Attempt>, k: nat, prefer: seq<Source>, candidates: seq<string>)
    requires k <= |run|
  {
    Overtaken(KnownIn(rules, Book(same, run[..k])), KnownIn(rules, Book(same, run)), prefer, candidates)
  }

  /**
   * Past answers are frozen over every run: an instant before the k-th sync resolves after all of
   * them to the price, source, id, promotion and flag it resolved to before them, unless they overtake it.
   */
  lemma {:induction false} RunKeepsPastAnswers(rules: Rules, same: SamePriceTest, run: seq<Attempt>, k: nat,
                                               prefer: seq<Source>, candidates: seq<string>, at: int)
    requires k <= |run| && ClockNeverRunsBack(run) && LowerCased(rules, candidates)
    requires forall i :: k <= i < |run| ==> at < run[i].now
    requires AllDistinctIgnoringCase(rules, Book(same, run))
    requires !OvertakenSince(rules, same, run, k, prefer, candidates)
    ensures SamePriceAnswer(FromSources(rules, Hydrated(rules.lower, Book(same, run[..k])), prefer, candidates, Some(at)),
                            FromSources(rules, Hydrated(rules.lower, Book(same, run)), prefer, candidates, Some(at)))
    decreases |run|
  {
    if k == |run| {
      TakeAll(run);
    } else {
      var n := |run| - 1;
      var mid, a := run[..n], run[n];
      var rows, rows' := Book(same, mid), Book(same, run);
      assert mid[..k] == run[..k];
      RunsOnlyExtend(same, run, n);
      RunsOnlyExtend(same, mid, k);
      DistinctShrinks(rules, rows, rows');
      StepsNotOvertaken(rules, Book(same, run[..k]), rows, rows', prefer, candidates);
      RunKeepsPastAnswers(rules, same, mid, k, prefer, candidates, at);
      if a.feed.Success? && a.feed.value != [] {
        EveryRunKeepsTheLedger(same, mid, a.now);
        SourcesAnswerIsFrozen(rules, same, rows, rows', a, n, a.now, prefer, candidates, at);
      }
    }
  }

  lemma StepsNotOvertaken(rules: Rules, first: seq<Row>, mid: seq<Row>, last: seq<Row>, prefer: seq<Source>, candidates: seq<string>)
    requires Extends(first, mid) && Extends(mid, last)
    requires !Overtaken(KnownIn(rules, first), KnownIn(rules, last), prefer, candidates)
    ensures !Overtaken(KnownIn(rules, first), KnownIn(rules, mid), prefer, candidates)
    ensures !Overtaken(KnownIn(rules, mid), KnownIn(rules, last), prefer, candidates)
  {
    var a, b, c := KnownIn(rules, first), KnownIn(rules, mid), KnownIn(rules, last);
    KnownGrows(rules, first, mid);
    KnownGrows(rules, mid, last);
    if Overtaken(a, b, prefer, candidates) { OvertakenWiden(a, a, b, c, prefer, candidates); }
    if Overtaken(b, c, prefer, candidates) { OvertakenWiden(a, b, c, c, prefer, candidates); }
  }
}
