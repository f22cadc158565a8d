/**
 * Exactly when a later sync moves a past price, and the sums that never move (packages/core/pricing.ts,
 * packages/core/pricing-sync.ts).
 */
module PriceMoves {
  import opened Wrappers
  import opened Seqs
  import opened PriceLedger
  import opened PriceLookup
  import opened PriceCost
  import opened PricePast

  // ── Once overtaken, it moves ─────────────────────────────────────

  /** An answer is a row of the book, priced as `FromEntry` says, begun by the instant unless flagged. */
  ghost predicate IsRow(rules: Rules, rows: seq<Row>, i: nat, r: Option<Resolved>, at: int) {
    && i < |rows| && r.Some? && r.value == FromEntry(rules, ToEntry(rows[i]), rows[i].source, r.value.backdated)
    && (!r.value.backdated ==> rows[i].effectiveFrom <= at)
  }

  lemma {:induction false} HistoryAnswersARow(rules: Rules, rows: seq<Row>, s: Source, candidates: seq<string>, at: int) returns (i: nat)
    requires FromHistory(rules, Hydrated(rules.lower, rows), s, candidates, at).Some?
    ensures IsRow(rules, rows, i, FromHistory(rules, Hydrated(rules.lower, rows), s, candidates, at), at)
  {
    if PriceAt(rules.lower, Hydrated(rules.lower, rows), s, candidates[0], at).Some? {
      i := EntryIsARow(rules.lower, rows, s, candidates[0], at);
    } else {
      i := HistoryAnswersARow(rules, rows, s, candidates[1..], at);
    }
  }

  lemma {:induction false} AnswerIsARow(rules: Rules, rows: seq<Row>, prefer: seq<Source>, candidates: seq<string>, at: int) returns (i: nat)
    requires LowerCased(rules, candidates) && FromSources(rules, Hydrated(rules.lower, rows), prefer, candidates, Some(at)).Some?
    ensures IsRow(rules, rows, i, FromSources(rules, Hydrated(rules.lower, rows), prefer, candidates, Some(at)), at)
  {
    SourceIsHistory(rules, rows, prefer[0], candidates, at);
    if FromSource(rules, Hydrated(rules.lower, rows), prefer[0], candidates, Some(at)).Some? {
      i := HistoryAnswersARow(rules, rows, prefer[0], candidates, at);
    } else {
      i := AnswerIsARow(rules, rows, prefer[1..], candidates, at);
    }
  }

  /** A row whose id its source did not know before: one the older book does not have. */
  ghost predicate IsNewcomer(rules: Rules, rows: seq<Row>, rows': seq<Row>, i: nat) {
    |rows| <= i < |rows'| && !Known(rules, rows, rows'[i].source, rows'[i].modelId)
  }

  lemma OldRowsAreKnown(rules: Rules, rows: seq<Row>, rows': seq<Row>, i: nat, c: string)
    requires Extends(rows, rows') && i < |rows'| && rules.lower(rows'[i].modelId) == rules.lower(c)
    ensures !Known(rules, rows, rows'[i].source, c) ==> IsNewcomer(rules, rows, rows', i)
  {
    if i < |rows| { assert HasKey(rows'[i], rows[i].source, rows[i].modelId); }
  }

  lemma HeadWasUnknown(was: Knowledge, knows: Knowledge, s: Source, candidates: seq<string>)
    requires OvertakenIn(was, knows, s, candidates)
    ensures candidates != [] && !was(s, candidates[0])
  {
    var j :| 0 <= j < |candidates| && knows(s, candidates[j]) && KnowsNone(was, s, candidates[..j + 1]);
    assert candidates[..j + 1][0] == candidates[0];
  }

  lemma {:induction false} OvertakenInIsANewcomer(rules: Rules, rows: seq<Row>, rows': seq<Row>, s: Source, candidates: seq<string>, at: int)
      returns (i: nat)
    requires Extends(rows, rows') && OvertakenIn(KnownIn(rules, rows), KnownIn(rules, rows'), s, candidates)
    ensures IsNewcomer(rules, rows, rows', i)
    ensures IsRow(rules, rows', i, FromHistory(rules, Hydrated(rules.lower, rows'), s, candidates, at), at)
  {
    var was, knows := KnownIn(rules, rows), KnownIn(rules, rows');
    HeadWasUnknown(was, knows, s, candidates);
    OvertakenInTail(was, knows, s, candidates);
    var c := candidates[0];
    KnownIsPriced(rules, rows', s, c, at);
    if knows(s, c) {
      i := EntryIsARow(rules.lower, rows', s, c, at);
      OldRowsAreKnown(rules, rows, rows', i, c);
    } else {
      i := OvertakenInIsANewcomer(rules, rows, rows', s, candidates[1..], at);
    }
  }

  /** An overtaken answer is given by a newcomer. */
  lemma {:induction false} OvertakenIsANewcomer(rules: Rules, rows: seq<Row>, rows': seq<Row>, prefer: seq<Source>, candidates: seq<string>,
                                                at: int) returns (i: nat)
    requires Extends(rows, rows') && LowerCased(rules, candidates)
    requires Overtaken(KnownIn(rules, rows), KnownIn(rules, rows'), prefer, candidates)
    ensures IsNewcomer(rules, rows, rows', i)
    ensures IsRow(rules, rows', i, FromSources(rules, Hydrated(rules.lower, rows'), prefer, candidates, Some(at)), at)
  {
    var was, knows, s := KnownIn(rules, rows), KnownIn(rules, rows'), prefer[0];
    OvertakenTail(was, knows, prefer, candidates);
    SourceIsHistory(rules, rows', s, candidates, at);
    if OvertakenIn(was, knows, s, candidates) {
      i := OvertakenInIsANewcomer(rules, rows, rows', s, candidates, at);
    } else {
      StillKnowsNone(was, knows, s, candidates);
      i := OvertakenIsANewcomer(rules, rows, rows', prefer[1..], candidates, at);
    }
  }

  // ── ... unless one free listing stands for another ───────────────

  /** What a caller sees of a price: both unknown, or the same amounts, source, id, promotion and flag. */
  ghost predicate SameQuote(a: Option<Resolved>, b: Option<Resolved>) {
    if a.None? || b.None? then a == b
    else a.value.price == b.value.price && a.value.source == b.value.source && a.value.matchedId == b.value.matchedId
         && a.value.promo == b.value.promo && a.value.backdated == b.value.backdated
  }

  /** Two free answers under one id, the older a guess about the past already. */
  predicate FreeTwins(a: Option<Resolved>, b: Option<Resolved>) {
    a.Some? && b.Some? && a.value.source == Free && b.value.source == Free && a.value.matchedId == b.value.matchedId && a.value.backdated
  }

  /** Free is free, promotion or not. */
  lemma FreeCostsNothing(rules: Rules, e: Entry, s: Source, backdated: bool)
    requires FromEntry(rules, e, s, backdated).source == Free
    ensures FromEntry(rules, e, s, backdated).price == Price(0.0, 0.0, 0.0, 0.0)
    ensures FromEntry(rules, e, s, backdated).promo == PromoOf(rules, e.id)
  {
  }

  /** A newcomer's flagged answer quotes as an older row's did only as a free twin: no book lists the same id anew. */
  lemma NewcomerQuotes(rules: Rules, rows: seq<Row>, rows': seq<Row>, i: nat, j: nat, a: Option<Resolved>, b: Option<Resolved>, at: int)
    requires IsRow(rules, rows, i, a, at) && IsRow(rules, rows', j, b, at) && IsNewcomer(rules, rows, rows', j) && b.value.backdated
    ensures SameQuote(a, b) <==> FreeTwins(a, b)
  {
    if a.value.source == Free && b.value.source == Free {
      FreeCostsNothing(rules, ToEntry(rows[i]), rows[i].source, a.value.backdated);
      FreeCostsNothing(rules, ToEntry(rows'[j]), rows'[j].source, b.value.backdated);
    }
  }

  /** The new rows of a book all begin after an instant. */
  ghost predicate LaterRows(rows: seq<Row>, rows': seq<Row>, at: int) {
    Extends(rows, rows') && forall i :: |rows| <= i < |rows'| ==> at < rows'[i].effectiveFrom
  }

  lemma OvertakenQuotes(rules: Rules, rows: seq<Row>, rows': seq<Row>, prefer: seq<Source>, candidates: seq<string>, at: int)
    requires LaterRows(rows, rows', at) && LowerCased(rules, candidates)
    requires Overtaken(KnownIn(rules, rows), KnownIn(rules, rows'), prefer, candidates)
    ensures var a := FromSources(rules, Hydrated(rules.lower, rows), prefer, candidates, Some(at));
            var b := FromSources(rules, Hydrated(rules.lower, rows'), prefer, candidates, Some(at));
            b.Some? && b.value.backdated && b.value.source != Table && (SameQuote(a, b) <==> FreeTwins(a, b))
  {
    var a := FromSources(rules, Hydrated(rules.lower, rows), prefer, candidates, Some(at));
    var b := FromSources(rules, Hydrated(rules.lower, rows'), prefer, candidates, Some(at));
    var j := OvertakenIsANewcomer(rules, rows, rows', prefer, candidates, at);
    if a.Some? {
      var i := AnswerIsARow(rules, rows, prefer, candidates, at);
      NewcomerQuotes(rules, rows, rows', i, j, a, b, at);
    }
  }

  /**
   * One sync leaves price, source, id, promotion and flag of a past answer as they were if and only if it does
   * not overtake it, or replaces one free listing by another of the same id.
   */
  lemma PastStandsIff(rules: Rules, same: SamePriceTest, rows: seq<Row>, rows': seq<Row>, a: Attempt, runId: nat,
                      clock: int, prefer: seq<Source>, candidates: seq<string>, at: int)
    requires SyncJoins(rules, same, rows, rows', a, runId, clock) && at < a.now && LowerCased(rules, candidates)
    ensures var before := FromSources(rules, Hydrated(rules.lower, rows), prefer, candidates, Some(at));
            var after := FromSources(rules, Hydrated(rules.lower, rows'), prefer, candidates, Some(at));
            SameQuote(before, after)
            <==> !Overtaken(KnownIn(rules, rows), KnownIn(rules, rows'), prefer, candidates) || FreeTwins(before, after)
  {
    if Overtaken(KnownIn(rules, rows), KnownIn(rules, rows'), prefer, candidates) {
      NewRowsAreListed(same, rows, a.source, a.feed.value, a.now, runId);
      OvertakenQuotes(rules, rows, rows', prefer, candidates, at);
    } else {
      SourcesAnswerIsFrozen(rules, same, rows, rows', a, runId, clock, prefer, candidates, at);
    }
  }

  lemma AttemptAdds(same: SamePriceTest, rows: seq<Row>, a: Attempt, runId: nat)
    ensures var rows' := Attempted(same, rows, a.source, a.feed, a.now, runId);
            Extends(rows, rows') && forall i :: |rows| <= i < |rows'| ==> rows'[i].effectiveFrom == a.now
  {
    AttemptExtends(same, rows, a.source, a.feed, a.now, runId);
    if a.feed.Success? { NewRowsAreListed(same, rows, a.source, a.feed.value, a.now, runId); }
  }

  lemma LaterRowsOn(first: seq<Row>, mid: seq<Row>, last: seq<Row>, at: int, now: int)
    requires LaterRows(first, mid, at) && Extends(mid, last) && at < now
    requires forall i :: |mid| <= i < |last| ==> last[i].effectiveFrom == now
    ensures LaterRows(first, last, at)
  {
    ExtendsTransitive(first, mid, last);
  }

  lemma BooksLaterOn(same: SamePriceTest, run: seq<Attempt>, first: seq<Row>, n: nat, at: int)
    requires n < |run| && ClockNeverRunsBack(run) && LaterRows(first, Book(same, run[..n]), at) && at < run[n].now
    ensures LaterRows(first, Book(same, run[..n + 1]), at)
  {
    OneMoreAttempt(same, run, n);
    AttemptAdds(same, Book(same, run[..n]), run[n], n);
    LaterRowsOn(first, Book(same, run[..n]), Book(same, run[..n + 1]), at, run[n].now);
  }

  lemma NothingLater(rows: seq<Row>, at: int)
    ensures LaterRows(rows, rows, at)
  {
  }

  lemma {:induction false} RunBooksLater(same: SamePriceTest, run: seq<Attempt>, k: nat, n: nat, at: int)
    requires k <= n <= |run| && ClockNeverRunsBack(run) && forall i :: k <= i < |run| ==> at < run[i].now
    ensures LaterRows(Book(same, run[..k]), Book(same, run[..n]), at)
    decreases n
  {
    if n == k {
      NothingLater(Book(same, run[..k]), at);
    } else {
      RunBooksLater(same, run, k, n - 1, at);
      BooksLaterOn(same, run, Book(same, run[..k]), n - 1, at);
    }
  }

  /** What the tables add when no book answers changes neither half. */
  lemma ResolvedQuotes(rules: Rules, before: Memory, after: Memory, model: string, prefer: seq<Source>, at: int, overtaken: bool)
    requires var a := FromSources(rules, before, prefer, rules.candidates(model), Some(at));
             var b := FromSources(rules, after, prefer, rules.candidates(model), Some(at));
             if overtaken then b.Some? && b.value.source != Table && (SameQuote(a, b) <==> FreeTwins(a, b)) else SameQuote(a, b)
    ensures var a := FromSources(rules, before, prefer, rules.candidates(model), Some(at));
            var b := FromSources(rules, after, prefer, rules.candidates(model), Some(at));
            SameQuote(ResolvePrice(rules, before, model, prefer, Some(at)), ResolvePrice(rules, after, model, prefer, Some(at)))
            <==> model == "" || rules.synthetic(model) || !overtaken || FreeTwins(a, b)
  {
  }

  /** The exact condition for a past quote to stand over a run. */
  ghost predicate Stands(rules: Rules, same: SamePriceTest, run: seq<Attempt>, k: nat, model: string, prefer: seq<Source>, at: int)
    requires k <= |run|
  {
    || model == "" || rules.synthetic(model)
    || !OvertakenSince(rules, same, run, k, prefer, rules.candidates(model))
    || FreeTwins(FromSources(rules, Hydrated(rules.lower, Book(same, run[..k])), prefer, rules.candidates(model), Some(at)),
                 FromSources(rules, Hydrated(rules.lower, Book(same, run)), prefer, rules.candidates(model), Some(at)))
  }

  /**
   * Over any run, an instant before the k-th sync is quoted after all of them as it was before: the same price,
   * source, id, promotion and flag, if and only if the model is never looked up, or its answer is not
   * overtaken, or a free listing stands for another.
   */
  lemma RunPastStandsIff(rules: Rules, same: SamePriceTest, run: seq<Attempt>, k: nat, model: string, prefer: seq<Source>, at: int)
    requires k <= |run| && ClockNeverRunsBack(run) && forall i :: k <= i < |run| ==> at < run[i].now
    requires LowerCased(rules, rules.candidates(model)) && AllDistinctIgnoringCase(rules, Book(same, run))
    ensures SameQuote(ResolvePrice(rules, Hydrated(rules.lower, Book(same, run[..k])), model, prefer, Some(at)),
                      ResolvePrice(rules, Hydrated(rules.lower, Book(same, run)), model, prefer, Some(at)))
            <==> Stands(rules, same, run, k, model, prefer, at)
  {
    var overtaken := OvertakenSince(rules, same, run, k, prefer, rules.candidates(model));
    if overtaken {
      RunBooksLater(same, run, k, |run|, at);
      TakeAll(run);
      OvertakenQuotes(rules, Book(same, run[..k]), Book(same, run), prefer, rules.candidates(model), at);
    } else {
      RunKeepsPastAnswers(rules, same, run, k, prefer, rules.candidates(model), at);
    }
    ResolvedQuotes(rules, Hydrated(rules.lower, Book(same, run[..k])), Hydrated(rules.lower, Book(same, run)), model, prefer, at, overtaken);
  }

  // ── The date of an answer tells them apart ───────────────────────

  ghost predicate BeganBefore(rows: seq<Row>, since: int) {
    forall i :: 0 <= i < |rows| ==> rows[i].effectiveFrom < since
  }

  lemma OldAnswersAreOld(rules: Rules, rows: seq<Row>, prefer: seq<Source>, candidates: seq<string>, at: int, since: int)
    requires LowerCased(rules, candidates) && BeganBefore(rows, since)
    ensures IsOld(FromSources(rules, Hydrated(rules.lower, rows), prefer, candidates, Some(at)), since)
  {
    if FromSources(rules, Hydrated(rules.lower, rows), prefer, candidates, Some(at)).Some? {
      var i := AnswerIsARow(rules, rows, prefer, candidates, at);
    }
  }

  /** No answer, or one effective from before `since`. */
  predicate IsOld(r: Option<Resolved>, since: int) {
    r.Some? ==> r.value.effectiveFrom.Some? && r.value.effectiveFrom.value < since
  }

  /** An answer effective from `since` or later. */
  predicate IsNews(r: Option<Resolved>, since: int) {
    r.Some? && r.value.effectiveFrom.Some? && since <= r.value.effectiveFrom.value
  }

  lemma OvertakenIsNews(rules: Rules, rows: seq<Row>, rows': seq<Row>, prefer: seq<Source>, candidates: seq<string>, at: int, since: int)
    requires LaterRows(rows, rows', since - 1) && LowerCased(rules, candidates)
    requires Overtaken(KnownIn(rules, rows), KnownIn(rules, rows'), prefer, candidates)
    ensures IsNews(FromSources(rules, Hydrated(rules.lower, rows'), prefer, candidates, Some(at)), since)
  {
    var i := OvertakenIsANewcomer(rules, rows, rows', prefer, candidates, at);
  }

  lemma StartedBy(rows: seq<Row>, clock: int, since: int)
    requires WellFormed(rows, clock) && clock < since
    ensures BeganBefore(rows, since)
  {
    forall i | 0 <= i < |rows| ensures rows[i].effectiveFrom < since {
      RowsAreInTheirHistory(rows, i);
      assert Contiguous(History(rows, rows[i].source, rows[i].modelId), clock);
    }
  }

  /** When a sync overtakes a past answer, the new answer is a row of that very sync, backdated, and so another answer. */
  lemma LateListingRewritesThePast(rules: Rules, same: SamePriceTest, rows: seq<Row>, rows': seq<Row>, a: Attempt, runId: nat,
                                   clock: int, prefer: seq<Source>, candidates: seq<string>, at: int)
    requires SyncJoins(rules, same, rows, rows', a, runId, clock) && at < a.now && clock < a.now && LowerCased(rules, candidates)
    requires Overtaken(KnownIn(rules, rows), KnownIn(rules, rows'), prefer, candidates)
    ensures var before := FromSources(rules, Hydrated(rules.lower, rows), prefer, candidates, Some(at));
            var after := FromSources(rules, Hydrated(rules.lower, rows'), prefer, candidates, Some(at));
            after.Some? && after.value.backdated && after.value.effectiveFrom == Some(a.now) && !SamePriceAnswer(before, after)
  {
    StartedBy(rows, clock, a.now);
    OldAnswersAreOld(rules, rows, prefer, candidates, at, a.now);
    NewRowsAreListed(same, rows, a.source, a.feed.value, a.now, runId);
    var i := OvertakenIsANewcomer(rules, rows, rows', prefer, candidates, at);
  }

  /** Date included, one sync leaves a past answer as it was if and only if it does not overtake it. */
  lemma PastMovesIffOvertaken(rules: Rules, same: SamePriceTest, rows: seq<Row>, rows': seq<Row>, a: Attempt, runId: nat,
                              clock: int, prefer: seq<Source>, candidates: seq<string>, at: int)
    requires SyncJoins(rules, same, rows, rows', a, runId, clock) && at < a.now && clock < a.now && LowerCased(rules, candidates)
    ensures SamePriceAnswer(FromSources(rules, Hydrated(rules.lower, rows), prefer, candidates, Some(at)),
                            FromSources(rules, Hydrated(rules.lower, rows'), prefer, candidates, Some(at)))
            <==> !Overtaken(KnownIn(rules, rows), KnownIn(rules, rows'), prefer, candidates)
  {
    if Overtaken(KnownIn(rules, rows), KnownIn(rules, rows'), prefer, candidates) {
      LateListingRewritesThePast(rules, same, rows, rows', a, runId, clock, prefer, candidates, at);
    } else {
      SourcesAnswerIsFrozen(rules, same, rows, rows', a, runId, clock, prefer, candidates, at);
    }
  }

  lemma BookBegan(same: SamePriceTest, run: seq<Attempt>, k: nat)
    requires k < |run| && ClockNeverRunsBack(run) && (k > 0 ==> run[k - 1].now < run[k].now)
    ensures BeganBefore(Book(same, run[..k]), run[k].now)
  {
    var clock := if k > 0 then run[k - 1].now else run[k].now - 1;
    EveryRunKeepsTheLedger(same, run[..k], clock);
    StartedBy(Book(same, run[..k]), clock, run[k].now);
  }

  lemma SameSourcesSamePrice(rules: Rules, before: Memory, after: Memory, model: string, prefer: seq<Source>, at: int)
    requires SamePriceAnswer(FromSources(rules, before, prefer, rules.candidates(model), Some(at)),
                             FromSources(rules, after, prefer, rules.candidates(model), Some(at)))
    ensures SamePriceAnswer(ResolvePrice(rules, before, model, prefer, Some(at)), ResolvePrice(rules, after, model, prefer, Some(at)))
  {
  }

  lemma NewsMovesThePrice(rules: Rules, before: Memory, after: Memory, model: string, prefer: seq<Source>, at: int, since: int)
    requires IsOld(FromSources(rules, before, prefer, rules.candidates(model), Some(at)), since)
    requires IsNews(FromSources(rules, after, prefer, rules.candidates(model), Some(at)), since)
    ensures SamePriceAnswer(ResolvePrice(rules, before, model, prefer, Some(at)), ResolvePrice(rules, after, model, prefer, Some(at)))
            <==> model == "" || rules.synthetic(model)
  {
  }

  /**
   * Date included, and over any run, an instant before the k-th sync resolves as it did before it if and only if
   * no sync from then on overtakes the answer. The tables a model may fall back to change nothing.
   */
  lemma RunMovesPastIffOvertaken(rules: Rules, same: SamePriceTest, run: seq<Attempt>, k: nat, model: string, prefer: seq<Source>, at: int)
    requires k < |run| && ClockNeverRunsBack(run) && (k > 0 ==> run[k - 1].now < run[k].now) && at < run[k].now
    requires LowerCased(rules, rules.candidates(model)) && AllDistinctIgnoringCase(rules, Book(same, run))
    ensures SamePriceAnswer(ResolvePrice(rules, Hydrated(rules.lower, Book(same, run[..k])), model, prefer, Some(at)),
                            ResolvePrice(rules, Hydrated(rules.lower, Book(same, run)), model, prefer, Some(at)))
            <==> model == "" || rules.synthetic(model) || !OvertakenSince(rules, same, run, k, prefer, rules.candidates(model))
  {
    if OvertakenSince(rules, same, run, k, prefer, rules.candidates(model)) {
      var rows, rows' := Book(same, run[..k]), Book(same, run);
      BookBegan(same, run, k);
      RunBooksLater(same, run, k, |run|, run[k].now - 1);
      TakeAll(run);
      OldAnswersAreOld(rules, rows, prefer, rules.candidates(model), at, run[k].now);
      OvertakenIsNews(rules, rows, rows', prefer, rules.candidates(model), at, run[k].now);
      NewsMovesThePrice(rules, Hydrated(rules.lower, rows), Hydrated(rules.lower, rows'), model, prefer, at, run[k].now);
    } else {
      RunKeepsPastAnswers(rules, same, run, k, prefer, rules.candidates(model), at);
      SameSourcesSamePrice(rules, Hydrated(rules.lower, Book(same, run[..k])), Hydrated(rules.lower, Book(same, run)), model, prefer, at);
    }
  }

  // ── Sums over settled rows stand ─────────────────────────────────

  lemma SameQuoteSameBreakdown(rules: Rules, a: Option<Resolved>, b: Option<Resolved>, model: string, tokens: Tokens, selfHosted: bool)
    requires SameQuote(a, b)
    ensures Breakdown(rules, a, model, tokens, selfHosted) == Breakdown(rules, b, model, tokens, selfHosted)
  {
  }

  /** A usage row whose instant is past and whose quote stands. */
  ghost predicate Settled(rules: Rules, same: SamePriceTest, run: seq<Attempt>, k: nat, row: Usage)
    requires k <= |run|
  {
    && row.at.Some? && (forall i :: k <= i < |run| ==> row.at.value < run[i].now)
    && LowerCased(rules, rules.candidates(row.model))
    && Stands(rules, same, run, k, row.model, Preference(row.provider), row.at.value)
  }

  /** The closed month stands: sums over settled rows are the same number before and after any run of syncs. */
  lemma SettledCostsNeverMove(rules: Rules, same: SamePriceTest, run: seq<Attempt>, k: nat, rows: seq<Usage>)
    requires k <= |run| && ClockNeverRunsBack(run) && AllDistinctIgnoringCase(rules, Book(same, run))
    requires forall i :: 0 <= i < |rows| ==> Settled(rules, same, run, k, rows[i])
    ensures Sum(Costs(rules, Hydrated(rules.lower, Book(same, run[..k])), rows))
            == Sum(Costs(rules, Hydrated(rules.lower, Book(same, run)), rows))
  {
    var before, after := Hydrated(rules.lower, Book(same, run[..k])), Hydrated(rules.lower, Book(same, run));
    forall i | 0 <= i < |rows| ensures CostForUsage(rules, before, rows[i]) == CostForUsage(rules, after, rows[i]) {
      SettledCostNeverMoves(rules, same, run, k, rows[i]);
    }
    SameCosts(rules, before, after, rows);
  }

  lemma SameCosts(rules: Rules, before: Memory, after: Memory, rows: seq<Usage>)
    requires forall i :: 0 <= i < |rows| ==> CostForUsage(rules, before, rows[i]) == CostForUsage(rules, after, rows[i])
    ensures Costs(rules, before, rows) == Costs(rules, after, rows)
  {
  }

  lemma SettledCostNeverMoves(rules: Rules, same: SamePriceTest, run: seq<Attempt>, k: nat, row: Usage)
    requires k <= |run| && ClockNeverRunsBack(run) && AllDistinctIgnoringCase(rules, Book(same, run))
    requires Settled(rules, same, run, k, row)
    ensures CostForUsage(rules, Hydrated(rules.lower, Book(same, run[..k])), row)
            == CostForUsage(rules, Hydrated(rules.lower, Book(same, run)), row)
  {
    var before, after := Hydrated(rules.lower, Book(same, run[..k])), Hydrated(rules.lower, Book(same, run));
    RunPastStandsIff(rules, same, run, k, row.model, Preference(row.provider), row.at.value);
    SameQuoteSameCost(rules, before, after, row);
  }

  lemma SameQuoteSameCost(rules: Rules, before: Memory, after: Memory, row: Usage)
    requires var prefer := Preference(row.provider);
             SameQuote(ResolvePrice(rules, before, row.model, prefer, row.at), ResolvePrice(rules, after, row.model, prefer, row.at))
    ensures CostForUsage(rules, before, row) == CostForUsage(rules, after, row)
  {
    var prefer := Preference(row.provider);
    SameQuoteSameBreakdown(rules, ResolvePrice(rules, before, row.model, prefer, row.at),
                            ResolvePrice(rules, after, row.model, prefer, row.at), row.model, row.tokens,
                            rules.selfHosted(row.model, row.endpoint, row.provider));
  }

  /** An id first listed by a sync answers, backdated, for every instant before it. */
  lemma LateListingIsBackdated(rules: Rules, same: SamePriceTest, rows: seq<Row>, rows': seq<Row>, a: Attempt, runId: nat,
                               clock: int, c: string, at: int, r: Upstream)
    requires SyncJoins(rules, same, rows, rows', a, runId, clock) && at < a.now
    requires Listing(a.feed.value, r.id) == Some(r) && rules.lower(r.id) == rules.lower(c)
    requires !Known(rules, rows, a.source, c)
    ensures PriceAt(rules.lower, Hydrated(rules.lower, rows'), a.source, c, at)
            == Some(Found(ToEntry(NewRow(a.source, r, a.now, runId)), true))
  {
    var h, h' := History(rows, a.source, r.id), History(rows', a.source, r.id);
    HistoryComesFromRows(rows, a.source, r.id);
    assert Contiguous(h, clock);
    SyncHistory(same, rows, a.source, a.feed.value, a.now, runId, a.source, r.id, clock);
    assert h == [] && h' == [NewRow(a.source, r, a.now, runId)];
    SyncKeepsWellFormed(same, rows, a.source, a.feed.value, clock, a.now, runId);
    KnownIdIsDistinct(rules.lower, rows', a.source, r.id);
    LookupReadsHistory(rules.lower, rows', a.source, r.id, a.now, at);
    SameKeySameAnswer(rules.lower, Hydrated(rules.lower, rows'), a.source, r.id, c, at);
  }

  // ── A closed month that moves ────────────────────────────────────

  /** A model named by one id, in no table, billed at list price. */
  const PLAIN_RULES := Rules(
    (s: string) => s, (model: string) => false, (model: string) => [model], (model: string) => None, (id: string) => None,
    (model: string, endpoint: Option<string>, provider: Option<string>) => false, (model: string, tokens: Tokens) => 0.0)

  function Listed(input: real): Upstream {
    Upstream("m", About(None, None, None), Price(input, 0.0, 0.0, 0.0))
  }

  /** One book lists a model, and later a preferred one does. */
  function LateRun(low: Upstream, high: Upstream): seq<Attempt> {
    [Attempt(LiteLlm, Success([low]), 100), Attempt(OpenRouter, Success([high]), 200)]
  }

  const PAST_USAGE := Usage("m", Tokens(1000000.0, 0.0, 0.0, 0.0), None, None, Some(50), None)

  lemma NothingIsWellFormed(clock: int)
    ensures WellFormed([], clock)
  {
  }

  lemma PlainIdsAreDistinct(rows: seq<Row>)
    ensures AllDistinctIgnoringCase(PLAIN_RULES, rows)
  {
  }

  /** The answer is that of the first source, in order of preference, that has one. */
  lemma {:induction false} FirstSourceAnswers(rules: Rules, mem: Memory, prefer: seq<Source>, candidates: seq<string>, at: Option<int>, p: nat)
    requires p < |prefer| && FromSource(rules, mem, prefer[p], candidates, at).Some?
    requires forall q :: 0 <= q < p ==> FromSource(rules, mem, prefer[q], candidates, at).None?
    ensures FromSources(rules, mem, prefer, candidates, at) == FromSource(rules, mem, prefer[p], candidates, at)
  {
    if p > 0 { FirstSourceAnswers(rules, mem, prefer[1..], candidates, at, p - 1); }
  }

  lemma AloneAnswers(rules: Rules, mem: Memory, source: Source, id: string, at: int)
    requires PriceAt(rules.lower, mem, source, id, at).Some?
    ensures var found := PriceAt(rules.lower, mem, source, id, at).value;
            FromSource(rules, mem, source, [id], Some(at)) == Some(FromEntry(rules, found.entry, source, found.backdated))
  {
  }

  lemma UnknownIsSkipped(rules: Rules, rows: seq<Row>, source: Source, id: string, at: int)
    requires !Known(rules, rows, source, id) && rules.lower(id) == id
    ensures FromSource(rules, Hydrated(rules.lower, rows), source, [id], Some(at)).None?
  {
    assert !KnownIn(rules, rows)(source, id);
    SourceIsHistory(rules, rows, source, [id], at);
  }

  lemma OneListing(feed: seq<Upstream>, r: Upstream)
    requires feed == [r]
    ensures Listing(feed, r.id) == Some(r) && forall c :: Lists(PLAIN_RULES, feed, c) <==> c == r.id
  {
    assert feed[..0] == [];
    assert forall x :: x in feed <==> x == r;
  }

  lemma LateRunBooks(same: SamePriceTest, low: Upstream, high: Upstream)
    ensures Book(same, LateRun(low, high)[..1]) == Sync(same, [], LiteLlm, [low], 100, 0)
    ensures Book(same, LateRun(low, high)) == Sync(same, Book(same, LateRun(low, high)[..1]), OpenRouter, [high], 200, 1)
  {
    var run := LateRun(low, high);
    var a, b := run[0], run[1];
    assert run[..1] == [] + [a] && run == [a] + [b];
    BookAppend(same, [], a);
    BookAppend(same, [a], b);
  }

  lemma CostOf(mem: Memory, r: Upstream, source: Source, runId: nat, now: int)
    requires r.price == Price(r.price.input, 0.0, 0.0, 0.0) && r.price.input != 0.0
    requires FromSources(PLAIN_RULES, mem, SOURCES, ["m"], Some(50))
             == Some(FromEntry(PLAIN_RULES, ToEntry(NewRow(source, r, now, runId)), source, true))
    ensures CostForUsage(PLAIN_RULES, mem, PAST_USAGE).total == r.price.input
  {
  }

  /** A model's first listing answers for the past, once no preferred book knows the model. */
  lemma AnswerOnceListed(same: SamePriceTest, rows: seq<Row>, rows': seq<Row>, a: Attempt, r: Upstream, runId: nat, clock: int, p: nat)
    requires SyncJoins(PLAIN_RULES, same, rows, rows', a, runId, clock) && a.feed.value == [r] && 50 < a.now && r.id == "m"
    requires p < |SOURCES| && SOURCES[p] == a.source && !Known(PLAIN_RULES, rows, a.source, "m")
    requires forall q :: 0 <= q < p ==> !Known(PLAIN_RULES, rows', SOURCES[q], "m")
    ensures FromSources(PLAIN_RULES, Hydrated(PLAIN_RULES.lower, rows'), SOURCES, ["m"], Some(50))
            == Some(FromEntry(PLAIN_RULES, ToEntry(NewRow(a.source, r, a.now, runId)), a.source, true))
  {
    var mem := Hydrated(PLAIN_RULES.lower, rows');
    OneListing(a.feed.value, r);
    LateListingIsBackdated(PLAIN_RULES, same, rows, rows', a, runId, clock, "m", 50, r);
    AloneAnswers(PLAIN_RULES, mem, a.source, "m", 50);
    forall q | 0 <= q < p ensures FromSource(PLAIN_RULES, mem, SOURCES[q], ["m"], Some(50)).None? {
      UnknownIsSkipped(PLAIN_RULES, rows', SOURCES[q], "m", 50);
    }
    FirstSourceAnswers(PLAIN_RULES, mem, SOURCES, ["m"], Some(50), p);
  }

  lemma FirstListingBooks(same: SamePriceTest, r: Upstream)
    requires r.id == "m"
    ensures var rows := Sync(same, [], LiteLlm, [r], 100, 0);
            WellFormed(rows, 100) && forall s :: Known(PLAIN_RULES, rows, s, "m") <==> s == LiteLlm
  {
    NothingIsWellFormed(0);
    SyncKeepsWellFormed(same, [], LiteLlm, [r], 0, 100, 0);
    OneListing([r], r);
    forall s ensures Known(PLAIN_RULES, Sync(same, [], LiteLlm, [r], 100, 0), s, "m") <==> s == LiteLlm {
      SyncMakesKnown(PLAIN_RULES, same, [], LiteLlm, [r], 100, 0, s, "m");
    }
  }

  /** LiteLlm lists the model at 100, OpenRouter at 200: each listing answers in its turn for instant 50. */
  lemma TwoListings(same: SamePriceTest, low: Upstream, high: Upstream)
    requires low.id == "m" && high.id == "m"
    ensures FromSources(PLAIN_RULES, Hydrated(PLAIN_RULES.lower, Book(same, LateRun(low, high)[..1])), SOURCES, ["m"], Some(50))
            == Some(FromEntry(PLAIN_RULES, ToEntry(NewRow(LiteLlm, low, 100, 0)), LiteLlm, true))
    ensures FromSources(PLAIN_RULES, Hydrated(PLAIN_RULES.lower, Book(same, LateRun(low, high))), SOURCES, ["m"], Some(50))
            == Some(FromEntry(PLAIN_RULES, ToEntry(NewRow(OpenRouter, high, 200, 1)), OpenRouter, true))
  {
    var run := LateRun(low, high);
    var rows, rows' := Book(same, run[..1]), Book(same, run);
    LateRunBooks(same, low, high);
    FirstListingBooks(same, low);
    NothingIsWellFormed(0);
    PlainIdsAreDistinct([]);
    PlainIdsAreDistinct(rows);
    PlainIdsAreDistinct(rows');
    AnswerOnceListed(same, [], rows, run[0], low, 0, 0, 2);
    AnswerOnceListed(same, rows, rows', run[1], high, 1, 100, 0);
  }

  /** Usage at instant 50, costed at 1 when only one book lists its model, costs 2 once a preferred book lists it at instant 200. */
  lemma ClosedMonthMoves(same: SamePriceTest)
    ensures CostForUsage(PLAIN_RULES, Hydrated(PLAIN_RULES.lower, Book(same, LateRun(Listed(1.0), Listed(2.0))[..1])), PAST_USAGE).total == 1.0
    ensures CostForUsage(PLAIN_RULES, Hydrated(PLAIN_RULES.lower, Book(same, LateRun(Listed(1.0), Listed(2.0)))), PAST_USAGE).total == 2.0
  {
    var run := LateRun(Listed(1.0), Listed(2.0));
    TwoListings(same, Listed(1.0), Listed(2.0));
    CostOf(Hydrated(PLAIN_RULES.lower, Book(same, run[..1])), Listed(1.0), LiteLlm, 0, 100);
    CostOf(Hydrated(PLAIN_RULES.lower, Book(same, run)), Listed(2.0), OpenRouter, 1, 200);
  }

  /** Had both books listed it free, the answer would have been overtaken too, and the quote would stand. */
  lemma FreeListingStands(same: SamePriceTest)
    ensures var run := LateRun(Listed(0.0), Listed(0.0));
            && OvertakenSince(PLAIN_RULES, same, run, 1, SOURCES, ["m"])
            && SameQuote(FromSources(PLAIN_RULES, Hydrated(PLAIN_RULES.lower, Book(same, run[..1])), SOURCES, ["m"], Some(50)),
                         FromSources(PLAIN_RULES, Hydrated(PLAIN_RULES.lower, Book(same, run)), SOURCES, ["m"], Some(50)))
  {
    var r := Listed(0.0);
    var run := LateRun(r, r);
    var was, knows := KnownIn(PLAIN_RULES, Book(same, run[..1])), KnownIn(PLAIN_RULES, Book(same, run));
    TwoListings(same, r, r);
    LateRunBooks(same, r, r);
    FirstListingBooks(same, r);
    OneListing([r], r);
    SyncMakesKnown(PLAIN_RULES, same, Book(same, run[..1]), OpenRouter, [r], 200, 1, OpenRouter, "m");
    assert !was(OpenRouter, "m") && knows(OpenRouter, "m");
    OvertakenInTail(was, knows, OpenRouter, ["m"]);
    OvertakenTail(was, knows, SOURCES, ["m"]);
  }
}
