/**
 * What a cost comes to in tokens and prices, class by class, and which listing a price was read from
 * (packages/core/pricing.ts, `applyPrice`, `costForUsage`, `costForUsageRows`, `resolvePrice`).
 */
module CostMeaning {
  import opened Wrappers
  import opened Seqs
  import opened PriceLedger
  import opened PriceLookup
  import opened PriceCost
  import opened PricePast

  // ── Tokens times prices ──────────────────────────────────────────

  /** A million of the currency's units of each class cost is tokens times price, each class at its own price. */
  predicate AtPrice(c: Cost, t: Tokens, p: Price) {
    && c.input * 1000000.0 == t.input * p.input
    && c.output * 1000000.0 == t.output * p.output
    && c.cacheRead * 1000000.0 == t.cacheRead * p.cacheRead
    && c.cacheWrite * 1000000.0 == t.cacheWrite * p.cacheWrite
  }

  lemma MillionthTimes(tokens: real, price: real)
    ensures tokens / 1000000.0 * price * 1000000.0 == tokens * price
  {
    var m := tokens / 1000000.0;
    assert m * 1000000.0 == tokens;
    assert m * price * 1000000.0 == m * 1000000.0 * price;
  }

  lemma PricedAtPrice(p: Price, t: Tokens)
    ensures AtPrice(Priced(p, t), t, p)
  {
    MillionthTimes(t.input, p.input);
    MillionthTimes(t.output, p.output);
    MillionthTimes(t.cacheRead, p.cacheRead);
    MillionthTimes(t.cacheWrite, p.cacheWrite);
  }

  function PriceFor(rules: Rules, mem: Memory, row: Usage): Option<Resolved> {
    ResolvePrice(rules, mem, row.model, if row.provider == Some("nous") then [Nous, OpenRouter, ModelsDev, LiteLlm, LlmPrices]
                                        else [OpenRouter, ModelsDev, LiteLlm, LlmPrices, Nous], row.at)
  }

  /** A row that has no invoice and a price of its own, not a made-up model's. */
  predicate IsBought(rules: Rules, mem: Memory, row: Usage) {
    var r := PriceFor(rules, mem, row);
    row.observed.None? && r.Some? && r.value.source != Synthetic
  }

  /** What the row was told about its price. */
  predicate SaysWhere(c: Cost, r: Resolved) {
    c.source == r.source && c.matchedId == r.matchedId && c.promo == r.promo && c.backdated == r.backdated
  }

  /** What serving a row ourselves took and saved; nothing of a row served elsewhere. */
  predicate PowerBill(c: Cost, selfHosted: bool, energy: real) {
    && c.selfHosted == selfHosted
    && c.energy == (if selfHosted then energy else 0.0)
    && c.avoided == (if selfHosted && energy < c.market then c.market - energy else 0.0)
  }

  /** Tokens times prices, whoever served them; the total is what they cost to buy, its electricity beside it. */
  lemma BoughtRow(rules: Rules, mem: Memory, row: Usage)
    requires IsBought(rules, mem, row)
    ensures var c, r := CostForUsage(rules, mem, row), PriceFor(rules, mem, row).value;
            && AtPrice(c, row.tokens, r.price) && SaysWhere(c, r)
            && c.total == c.input + c.output + c.cacheRead + c.cacheWrite && c.market == c.total
            && PowerBill(c, rules.selfHosted(row.model, row.endpoint, row.provider), rules.energy(row.model, row.tokens))
  {
    PricedAtPrice(PriceFor(rules, mem, row).value.price, row.tokens);
  }

  predicate CostsNothing(c: Cost) {
    c.input == 0.0 && c.output == 0.0 && c.cacheRead == 0.0 && c.cacheWrite == 0.0 && c.total == 0.0 && c.market == 0.0
  }

  /** A made-up model costs nothing and says so; one nobody prices says it is unknown, which is not free. */
  lemma UnboughtRow(rules: Rules, mem: Memory, row: Usage)
    requires row.observed.None? && !IsBought(rules, mem, row)
    ensures var c, r := CostForUsage(rules, mem, row), PriceFor(rules, mem, row);
            CostsNothing(c) && c.source == (if r.Some? then Synthetic else Unknown)
  {
  }

  /** Two amounts in the ratio of a new total to an old one, with the old one written on the other side. */
  predicate InRatio(part: real, estimate: real, observed: real, total: real) {
    part * total == estimate * observed
  }

  lemma ScaledInRatio(estimate: real, observed: real, total: real)
    requires total > 0.0
    ensures InRatio(estimate * (observed / total), estimate, observed, total)
  {
    var s := observed / total;
    assert s * total == observed;
    assert estimate * s * total == estimate * (s * total);
  }

  /** `paid` is the total of `c`; its classes keep the proportions of the estimate `e`, and all else of the estimate stands. */
  ghost predicate Invoiced(c: Cost, e: Cost, paid: real) {
    && c.total == paid && c.source == Invoice
    && c.market == e.market && c.energy == e.energy && c.avoided == e.avoided
    && c.matchedId == e.matchedId && c.promo == e.promo && c.selfHosted == e.selfHosted && c.backdated == e.backdated
    && (e.total > 0.0 ==>
          && InRatio(c.input, e.input, paid, e.total) && InRatio(c.output, e.output, paid, e.total)
          && InRatio(c.cacheRead, e.cacheRead, paid, e.total) && InRatio(c.cacheWrite, e.cacheWrite, paid, e.total))
    && (e.total <= 0.0 ==> c.input == 0.0 && c.output == 0.0 && c.cacheRead == 0.0 && c.cacheWrite == 0.0)
  }

  lemma WithInvoiceIs(e: Cost, paid: real)
    ensures Invoiced(WithInvoice(e, paid), e, paid)
  {
    if e.total > 0.0 {
      ScaledInRatio(e.input, paid, e.total);
      ScaledInRatio(e.output, paid, e.total);
      ScaledInRatio(e.cacheRead, paid, e.total);
      ScaledInRatio(e.cacheWrite, paid, e.total);
    }
  }

  /** A row with an invoice costs what was paid, split as its estimate is. */
  lemma InvoicedRow(rules: Rules, mem: Memory, row: Usage)
    requires row.observed.Some? && row.model != ""
    ensures Invoiced(CostForUsage(rules, mem, row), CostForUsage(rules, mem, row.(observed := None)), row.observed.value)
  {
    WithInvoiceIs(CostForUsage(rules, mem, row.(observed := None)), row.observed.value);
  }

  // ── ... over many rows ───────────────────────────────────────────

  function Along(cs: seq<Cost>, amount: Cost -> real): real {
    if cs == [] then 0.0 else Along(cs[..|cs| - 1], amount) + amount(cs[|cs| - 1])
  }

  /** Every amount of a sum is the sum of that amount. */
  lemma {:induction false} SumAlong(cs: seq<Cost>)
    ensures var s := Sum(cs);
            && s.input == Along(cs, (c: Cost) => c.input) && s.output == Along(cs, (c: Cost) => c.output)
            && s.cacheRead == Along(cs, (c: Cost) => c.cacheRead) && s.cacheWrite == Along(cs, (c: Cost) => c.cacheWrite)
            && s.total == Along(cs, (c: Cost) => c.total) && s.market == Along(cs, (c: Cost) => c.market)
            && s.energy == Along(cs, (c: Cost) => c.energy) && s.avoided == Along(cs, (c: Cost) => c.avoided)
  {
    if cs != [] { SumAlong(cs[..|cs| - 1]); }
  }

  /** What the rows' tokens come to at their prices, a class at a time. */
  function Due(rows: seq<Usage>, prices: seq<Price>, class_: (Tokens, Price) -> real): real
    requires |rows| == |prices|
  {
    if rows == [] then 0.0
    else
      var n := |rows| - 1;
      Due(rows[..n], prices[..n], class_) + class_(rows[n].tokens, prices[n])
  }

  ghost predicate BoughtAt(rules: Rules, mem: Memory, rows: seq<Usage>, prices: seq<Price>) {
    && |rows| == |prices|
    && forall i :: 0 <= i < |rows| ==> IsBought(rules, mem, rows[i]) && prices[i] == PriceFor(rules, mem, rows[i]).value.price
  }

  lemma {:induction false} AlongIsDue(cs: seq<Cost>, rows: seq<Usage>, prices: seq<Price>, amount: Cost -> real, class_: (Tokens, Price) -> real)
    requires |cs| == |rows| == |prices|
    requires forall i :: 0 <= i < |cs| ==> amount(cs[i]) * 1000000.0 == class_(rows[i].tokens, prices[i])
    ensures Along(cs, amount) * 1000000.0 == Due(rows, prices, class_)
  {
    if cs != [] {
      var n := |cs| - 1;
      AlongIsDue(cs[..n], rows[..n], prices[..n], amount, class_);
    }
  }

  lemma EachIsBought(rules: Rules, mem: Memory, rows: seq<Usage>, prices: seq<Price>)
    requires BoughtAt(rules, mem, rows, prices)
    ensures forall i :: 0 <= i < |rows| ==> AtPrice(Costs(rules, mem, rows)[i], rows[i].tokens, prices[i])
    ensures forall i :: 0 <= i < |rows| ==> PartsMakeTotal(Costs(rules, mem, rows)[i])
  {
    forall i | 0 <= i < |rows|
      ensures AtPrice(Costs(rules, mem, rows)[i], rows[i].tokens, prices[i]) && PartsMakeTotal(Costs(rules, mem, rows)[i])
    {
      BoughtRow(rules, mem, rows[i]);
    }
  }

  /** A sum over rows bought is, class by class, the sum of tokens times prices. */
  lemma BoughtRows(rules: Rules, mem: Memory, rows: seq<Usage>, prices: seq<Price>)
    requires BoughtAt(rules, mem, rows, prices)
    ensures var s := Sum(Costs(rules, mem, rows));
            && s.input * 1000000.0 == Due(rows, prices, (t: Tokens, p: Price) => t.input * p.input)
            && s.output * 1000000.0 == Due(rows, prices, (t: Tokens, p: Price) => t.output * p.output)
            && s.cacheRead * 1000000.0 == Due(rows, prices, (t: Tokens, p: Price) => t.cacheRead * p.cacheRead)
            && s.cacheWrite * 1000000.0 == Due(rows, prices, (t: Tokens, p: Price) => t.cacheWrite * p.cacheWrite)
            && s.total == s.input + s.output + s.cacheRead + s.cacheWrite
  {
    var cs := Costs(rules, mem, rows);
    EachIsBought(rules, mem, rows, prices);
    CostsAtPrices(cs, rows, prices);
  }

  lemma CostsAtPrices(cs: seq<Cost>, rows: seq<Usage>, prices: seq<Price>)
    requires |cs| == |rows| == |prices|
    requires forall i :: 0 <= i < |rows| ==> AtPrice(cs[i], rows[i].tokens, prices[i])
    requires forall i :: 0 <= i < |rows| ==> PartsMakeTotal(cs[i])
    ensures var s := Sum(cs);
            && s.input * 1000000.0 == Due(rows, prices, (t: Tokens, p: Price) => t.input * p.input)
            && s.output * 1000000.0 == Due(rows, prices, (t: Tokens, p: Price) => t.output * p.output)
            && s.cacheRead * 1000000.0 == Due(rows, prices, (t: Tokens, p: Price) => t.cacheRead * p.cacheRead)
            && s.cacheWrite * 1000000.0 == Due(rows, prices, (t: Tokens, p: Price) => t.cacheWrite * p.cacheWrite)
            && PartsMakeTotal(s)
  {
    SumAlong(cs);
    SumParts(cs);
    AlongIsDue(cs, rows, prices, (c: Cost) => c.input, (t: Tokens, p: Price) => t.input * p.input);
    AlongIsDue(cs, rows, prices, (c: Cost) => c.output, (t: Tokens, p: Price) => t.output * p.output);
    AlongIsDue(cs, rows, prices, (c: Cost) => c.cacheRead, (t: Tokens, p: Price) => t.cacheRead * p.cacheRead);
    AlongIsDue(cs, rows, prices, (c: Cost) => c.cacheWrite, (t: Tokens, p: Price) => t.cacheWrite * p.cacheWrite);
  }

  /** A model priced by the table alone, four different prices. */
  const FOUR_PRICES := Rules(
    (s: string) => s, (model: string) => false, (model: string) => [], (model: string) => Some(Price(3.0, 15.0, 0.3, 3.75)),
    (id: string) => None, (model: string, endpoint: Option<string>, provider: Option<string>) => false,
    (model: string, tokens: Tokens) => 0.0)

  /** Two million in, one out, one read from cache, four written to it: 6, 15, 0.3 and 15. */
  lemma FourPrices(mem: Memory)
    ensures var c := CostForUsage(FOUR_PRICES, mem, Usage("m", Tokens(2000000.0, 1000000.0, 1000000.0, 4000000.0), None, None, None, None));
            c.input == 6.0 && c.output == 15.0 && c.cacheRead == 0.3 && c.cacheWrite == 15.0 && c.total == 36.3
  {
    NoneListed(mem, SOURCES);
  }

  lemma {:induction false} NoneListed(mem: Memory, prefer: seq<Source>)
    ensures FromSources(FOUR_PRICES, mem, prefer, [], None).None?
  {
    if prefer != [] { NoneListed(mem, prefer[1..]); }
  }

  // ── The listing a price was read from ────────────────────────────

  /** A price quoted from an entry: its amounts times the promotion's multiplier, if it has one that is positive. */
  ghost predicate QuotedFrom(rules: Rules, e: Entry, source: Source, backdated: bool, r: Resolved) {
    var promo := rules.promo(rules.lower(e.id));
    var m := if promo.Some? && promo.value > 0.0 then promo.value else 1.0;
    && r.price.input == e.price.input * m && r.price.output == e.price.output * m
    && r.price.cacheRead == e.price.cacheRead * m && r.price.cacheWrite == e.price.cacheWrite * m
    && r.promo == (if promo.Some? && promo.value > 0.0 then promo else None)
    && r.matchedId == Some(e.id) && r.backdated == backdated && r.effectiveTo == e.effectiveTo
    && (e.effectiveFrom.Some? ==> r.effectiveFrom == e.effectiveFrom)
    && (e.effectiveFrom.None? ==> r.effectiveFrom == Some(e.fetchedAt))
    && (if e.price.input == 0.0 && e.price.output == 0.0 && e.price.cacheRead == 0.0 && e.price.cacheWrite == 0.0
        then r.source == Free else r.source == FromBook(source))
  }

  lemma EntryIsQuoted(rules: Rules, e: Entry, source: Source, backdated: bool)
    ensures QuotedFrom(rules, e, source, backdated, FromEntry(rules, e, source, backdated))
  {
  }

  lemma {:induction false} FirstKnownCandidate(rules: Rules, rows: seq<Row>, s: Source, candidates: seq<string>, at: int) returns (j: nat)
    requires FromHistory(rules, Hydrated(rules.lower, rows), s, candidates, at).Some?
    ensures j < |candidates| && Known(rules, rows, s, candidates[j]) && forall i :: 0 <= i < j ==> !Known(rules, rows, s, candidates[i])
    ensures PriceAt(rules.lower, Hydrated(rules.lower, rows), s, candidates[j], at).Some?
    ensures var found := PriceAt(rules.lower, Hydrated(rules.lower, rows), s, candidates[j], at).value;
            QuotedFrom(rules, found.entry, s, found.backdated, FromHistory(rules, Hydrated(rules.lower, rows), s, candidates, at).value)
  {
    KnownIsPriced(rules, rows, s, candidates[0], at);
    var found := PriceAt(rules.lower, Hydrated(rules.lower, rows), s, candidates[0], at);
    if found.Some? {
      j := 0;
      EntryIsQuoted(rules, found.value.entry, s, found.value.backdated);
    } else {
      var i := FirstKnownCandidate(rules, rows, s, candidates[1..], at);
      j := i + 1;
      forall k | 0 <= k < j ensures !Known(rules, rows, s, candidates[k]) {
        if k > 0 { assert candidates[k] == candidates[1..][k - 1]; }
      }
    }
  }

  /**
   * A price for an instant is quoted from the most preferred source that knows any candidate, from the first
   * candidate it knows, at what that candidate's book says of the instant.
   */
  lemma {:induction false} FirstKnownAnswers(rules: Rules, rows: seq<Row>, prefer: seq<Source>, candidates: seq<string>, at: int)
      returns (p: nat, j: nat)
    requires LowerCased(rules, candidates) && FromSources(rules, Hydrated(rules.lower, rows), prefer, candidates, Some(at)).Some?
    ensures p < |prefer| && j < |candidates| && Known(rules, rows, prefer[p], candidates[j])
    ensures forall i :: 0 <= i < j ==> !Known(rules, rows, prefer[p], candidates[i])
    ensures forall q :: 0 <= q < p ==> KnowsNone(KnownIn(rules, rows), prefer[q], candidates)
    ensures PriceAt(rules.lower, Hydrated(rules.lower, rows), prefer[p], candidates[j], at).Some?
    ensures var found := PriceAt(rules.lower, Hydrated(rules.lower, rows), prefer[p], candidates[j], at).value;
            QuotedFrom(rules, found.entry, prefer[p], found.backdated,
                       FromSources(rules, Hydrated(rules.lower, rows), prefer, candidates, Some(at)).value)
  {
    SourceIsHistory(rules, rows, prefer[0], candidates, at);
    if FromSource(rules, Hydrated(rules.lower, rows), prefer[0], candidates, Some(at)).Some? {
      p := 0;
      j := FirstKnownCandidate(rules, rows, prefer[0], candidates, at);
    } else {
      var q;
      q, j := FirstKnownAnswers(rules, rows, prefer[1..], candidates, at);
      p := q + 1;
      forall k | 0 <= k < p ensures KnowsNone(KnownIn(rules, rows), prefer[k], candidates) {
        if k > 0 { assert prefer[k] == prefer[1..][k - 1]; }
      }
    }
  }

  lemma {:induction false} NoSourceAnswers(rules: Rules, rows: seq<Row>, prefer: seq<Source>, candidates: seq<string>, at: int)
    requires LowerCased(rules, candidates) && forall q :: 0 <= q < |prefer| ==> KnowsNone(KnownIn(rules, rows), prefer[q], candidates)
    ensures FromSources(rules, Hydrated(rules.lower, rows), prefer, candidates, Some(at)).None?
  {
    if prefer != [] {
      SourceIsHistory(rules, rows, prefer[0], candidates, at);
      NoSourceAnswers(rules, rows, prefer[1..], candidates, at);
    }
  }

  /** A model no source lists is priced from the table, undated, or not at all; a made-up one is nothing without asking anybody. */
  lemma UnlistedIsTabled(rules: Rules, rows: seq<Row>, model: string, prefer: seq<Source>, at: int)
    requires model != "" && LowerCased(rules, rules.candidates(model))
    requires forall q :: 0 <= q < |prefer| ==> KnowsNone(KnownIn(rules, rows), prefer[q], rules.candidates(model))
    ensures var r := ResolvePrice(rules, Hydrated(rules.lower, rows), model, prefer, Some(at));
            && (rules.synthetic(model) ==> r.Some? && r.value.source == Synthetic && r.value.price == Price(0.0, 0.0, 0.0, 0.0))
            && (!rules.synthetic(model) && rules.table(model).None? ==> r.None?)
            && (!rules.synthetic(model) && rules.table(model).Some? ==>
                  && r.Some? && r.value.price == rules.table(model).value && r.value.source == Table
                  && r.value.matchedId.None? && r.value.effectiveFrom.None? && !r.value.backdated)
  {
    NoSourceAnswers(rules, rows, prefer, rules.candidates(model), at);
  }

  // ── Today's price ────────────────────────────────────────────────

  lemma {:induction false} CatalogComesFrom(lower: string -> string, entries: seq<Entry>, key: string)
    requires key in CatalogOf(lower, entries)
    ensures CatalogOf(lower, entries)[key] in entries && lower(CatalogOf(lower, entries)[key].id) == key
  {
    var init, last := entries[..|entries| - 1], entries[|entries| - 1];
    assert entries == init + [last];
    if lower(last.id) != key { CatalogComesFrom(lower, init, key); }
  }

  lemma {:induction false} CatalogHasAll(lower: string -> string, entries: seq<Entry>, e: Entry)
    requires e in entries
    ensures lower(e.id) in CatalogOf(lower, entries)
  {
    var init, last := entries[..|entries| - 1], entries[|entries| - 1];
    assert entries == init + [last];
    if e != last { CatalogHasAll(lower, init, e); }
  }

  lemma {:induction false} CurrentAreOpen(entries: seq<Entry>)
    ensures forall e :: e in Current(entries) <==> e in entries && e.effectiveTo.None?
  {
    if entries != [] {
      CurrentAreOpen(entries[..|entries| - 1]);
      assert entries == entries[..|entries| - 1] + [entries[|entries| - 1]];
    }
  }

  lemma {:induction false} OfSourceHas(rows: seq<Row>, source: Source, i: nat)
    requires i < |rows| && rows[i].source == source
    ensures rows[i] in OfSource(rows, source)
  {
    if i < |rows| - 1 { OfSourceHas(rows[..|rows| - 1], source, i); }
  }

  /** Without a time asked for, an id in the book is priced by its open row. */
  lemma TodaysEntryIsTheOpenRow(lower: string -> string, rows: seq<Row>, source: Source, i: nat)
    requires UniqueOpen(rows) && DistinctIgnoringCase(lower, rows, source)
    requires i < |rows| && rows[i].source == source && rows[i].effectiveTo.None?
    ensures var catalog := Hydrated(lower, rows).catalog;
            source in catalog && lower(rows[i].modelId) in catalog[source] && catalog[source][lower(rows[i].modelId)] == ToEntry(rows[i])
  {
    var os, key := OfSource(rows, source), lower(rows[i].modelId);
    var entries := ToEntries(os);
    EverySourceIsListed(source);
    OfSourceHas(rows, source, i);
    var p :| 0 <= p < |os| && os[p] == rows[i];
    assert entries[p] == ToEntry(rows[i]);
    CurrentAreOpen(entries);
    CatalogHasAll(lower, Current(entries), entries[p]);
    CatalogComesFrom(lower, Current(entries), key);
    var e := CatalogOf(lower, Current(entries))[key];
    var q :| 0 <= q < |entries| && entries[q] == e;
    OfSourceComesFrom(rows, source, os[q]);
    var j :| 0 <= j < |rows| && rows[j] == os[q];
    OnlyOpenRow(lower, rows, source, i, j);
  }

  lemma OnlyOpenRow(lower: string -> string, rows: seq<Row>, source: Source, i: nat, j: nat)
    requires UniqueOpen(rows) && DistinctIgnoringCase(lower, rows, source) && i < |rows| && j < |rows|
    requires rows[i].source == source == rows[j].source && lower(rows[i].modelId) == lower(rows[j].modelId)
    requires rows[i].effectiveTo.None? && rows[j].effectiveTo.None?
    ensures i == j
  {
    assert rows[i].modelId == rows[j].modelId;
  }

  // ── The row in force at an instant ───────────────────────────────

  /** From its start, or from when it was fetched if it has none, up to its end if it has one. */
  predicate InForceAt(e: Entry, at: int) {
    (match e.effectiveFrom case Some(t) => t <= at case None => e.fetchedAt <= at)
    && (match e.effectiveTo case Some(t) => at < t case None => true)
  }

  predicate StartsAfter(e: Entry, at: int) {
    match e.effectiveFrom case Some(t) => at < t case None => at < e.fetchedAt
  }

  lemma {:induction false} FirstInForce(list: seq<Entry>, at: int, k: nat)
    requires k < |list| && InForceAt(list[k], at) && forall j :: 0 <= j < k ==> !InForceAt(list[j], at)
    ensures CoverIndex(list, at) == k
  {
    if k > 0 { FirstInForce(list[1..], at, k - 1); }
  }

  /**
   * The first row in force answers unflagged; before the first row's start that row answers, and after the last
   * row's end that one, both flagged as backdated.
   */
  lemma PriceInMeans(list: seq<Entry>, at: int, k: nat)
    requires list != []
    ensures k < |list| && InForceAt(list[k], at) && (forall j :: 0 <= j < k ==> !InForceAt(list[j], at))
            ==> PriceIn(list, at) == Some(Found(list[k], false))
    ensures (forall j :: 0 <= j < |list| ==> !InForceAt(list[j], at))
            ==> PriceIn(list, at) == Some(Found(if StartsAfter(list[0], at) then list[0] else list[|list| - 1], true))
  {
    if k < |list| && InForceAt(list[k], at) && forall j :: 0 <= j < k ==> !InForceAt(list[j], at) {
      FirstInForce(list, at, k);
    }
    if forall j :: 0 <= j < |list| ==> !InForceAt(list[j], at) {
      assert CoverIndex(list, at) == |list|;
    }
  }
}
