/**
 * From a model name and an instant to a cost (packages/core/pricing.ts): `resolvePrice`,
 * `costForUsage`, `withInvoice` and `costForUsageRows`.
 */
module PriceCost {
  import opened Wrappers
  import opened Seqs
  import opened PriceLedger
  import opened PriceLookup

  datatype PriceSource = FromBook(source: Source) | Table | Invoice | Synthetic | Free | Unknown

  datatype Tokens = Tokens(input: real, output: real, cacheRead: real, cacheWrite: real)

  /** The tables and name rules this code consults, all pure functions of a model's name. */
  datatype Rules = Rules(
    lower: string -> string, synthetic: string -> bool, candidates: string -> seq<string>,
    table: string -> Option<Price>, promo: string -> Option<real>,
    selfHosted: (string, Option<string>, Option<string>) -> bool, energy: (string, Tokens) -> real)

  datatype Resolved = Resolved(
    price: Price, source: PriceSource, matchedId: Option<string>, promo: Option<real>,
    effectiveFrom: Option<int>, effectiveTo: Option<int>, backdated: bool)

  // ── resolvePrice ─────────────────────────────────────────────────

  function Scale(p: Price, m: real): Price {
    Price(p.input * m, p.output * m, p.cacheRead * m, p.cacheWrite * m)
  }

  /** A known promotion in force for an id: its multiplier, when positive. */
  function PromoOf(rules: Rules, id: string): Option<real> {
    match rules.promo(rules.lower(id))
    case Some(m) => if m > 0.0 then Some(m) else None
    case None => None
  }

  function FromEntry(rules: Rules, hit: Entry, source: Source, backdated: bool): Resolved {
    var promo := PromoOf(rules, hit.id);
    Resolved(if promo.Some? then Scale(hit.price, promo.value) else hit.price,
             if hit.price == Price(0.0, 0.0, 0.0, 0.0) then Free else FromBook(source),
             Some(hit.id), promo, Some(Start(hit)), hit.effectiveTo, backdated)
  }

  /** The first candidate the history of a source knows, priced at the instant. */
  function FromHistory(rules: Rules, mem: Memory, source: Source, candidates: seq<string>, at: int): Option<Resolved> {
    if candidates == [] then None
    else
      match PriceAt(rules.lower, mem, source, candidates[0], at)
      case Some(found) => Some(FromEntry(rules, found.entry, source, found.backdated))
      case None => FromHistory(rules, mem, source, candidates[1..], at)
  }

  function FromCatalog(rules: Rules, mem: Memory, source: Source, candidates: seq<string>): Option<Resolved> {
    if candidates == [] || source !in mem.catalog then None
    else if candidates[0] in mem.catalog[source] then Some(FromEntry(rules, mem.catalog[source][candidates[0]], source, false))
    else FromCatalog(rules, mem, source, candidates[1..])
  }

  /** One oracle's answer: history first when a time was asked for and history is loaded, then today's catalog. */
  function FromSource(rules: Rules, mem: Memory, source: Source, candidates: seq<string>, at: Option<int>): Option<Resolved> {
    var dated := if at.Some? then FromHistory(rules, mem, source, candidates, at.value) else None;
    if dated.Some? then dated else FromCatalog(rules, mem, source, candidates)
  }

  function FromSources(rules: Rules, mem: Memory, prefer: seq<Source>, candidates: seq<string>, at: Option<int>): Option<Resolved> {
    if prefer == [] then None
    else
      var r := FromSource(rules, mem, prefer[0], candidates, at);
      if r.Some? then r else FromSources(rules, mem, prefer[1..], candidates, at)
  }

  function ResolvePrice(rules: Rules, mem: Memory, model: string, prefer: seq<Source>, at: Option<int>): Option<Resolved> {
    if model == "" then None
    else if rules.synthetic(model) then Some(Resolved(Price(0.0, 0.0, 0.0, 0.0), Synthetic, None, None, None, None, false))
    else
      var r := FromSources(rules, mem, prefer, rules.candidates(model), at);
      if r.Some? then r
      else
        match rules.table(model)
        case Some(p) => Some(Resolved(p, Table, None, None, None, None, false))
        case None => None
  }

  // ── costForUsage ─────────────────────────────────────────────────

  datatype Usage = Usage(
    model: string, tokens: Tokens, provider: Option<string>, endpoint: Option<string>, at: Option<int>, observed: Option<real>)

  datatype Cost = Cost(
    input: real, output: real, cacheRead: real, cacheWrite: real, total: real, market: real, energy: real, avoided: real,
    source: PriceSource, matchedId: Option<string>, promo: Option<real>, selfHosted: bool, backdated: bool)

  const NO_COST := Cost(0.0, 0.0, 0.0, 0.0, 0.0, 0.0, 0.0, 0.0, Unknown, None, None, false, false)

  const NOUS_PREFERENCE: seq<Source> := [Nous, OpenRouter, ModelsDev, LiteLlm, LlmPrices]

  function Preference(provider: Option<string>): seq<Source> {
    if provider == Some("nous") then NOUS_PREFERENCE else SOURCES
  }

  /** Tokens at a price, class by class; `total` is their sum. */
  function Priced(p: Price, t: Tokens): Cost {
    var i, o := t.input / 1000000.0 * p.input, t.output / 1000000.0 * p.output;
    var r, w := t.cacheRead / 1000000.0 * p.cacheRead, t.cacheWrite / 1000000.0 * p.cacheWrite;
    NO_COST.(input := i, output := o, cacheRead := r, cacheWrite := w, total := i + o + r + w, market := i + o + r + w)
  }

  /** The breakdown of a row whose price lookup answered `resolved`. */
  function Breakdown(rules: Rules, resolved: Option<Resolved>, model: string, tokens: Tokens, selfHosted: bool): Cost {
    if resolved.Some? && resolved.value.source == Synthetic then NO_COST.(source := Synthetic)
    else
      var market := if resolved.Some? then Priced(resolved.value.price, tokens) else NO_COST;
      var named := if resolved.None? then market
                   else market.(source := resolved.value.source, matchedId := resolved.value.matchedId,
                                promo := resolved.value.promo, backdated := resolved.value.backdated);
      if !selfHosted then named
      else
        var energy := rules.energy(model, tokens);
        named.(energy := energy, avoided := Max(0.0, named.market - energy), selfHosted := true)
  }

  /** What the gateway charged replaces the total; the classes are scaled to sum to it. */
  function WithInvoice(computed: Cost, observed: real): Cost {
    var scale := if computed.total > 0.0 then observed / computed.total else 0.0;
    computed.(input := computed.input * scale, output := computed.output * scale, cacheRead := computed.cacheRead * scale,
              cacheWrite := computed.cacheWrite * scale, total := observed, source := Invoice)
  }

  function CostForUsage(rules: Rules, mem: Memory, row: Usage): Cost {
    if row.model == "" then NO_COST
    else
      var resolved := ResolvePrice(rules, mem, row.model, Preference(row.provider), row.at);
      var computed := Breakdown(rules, resolved, row.model, row.tokens, rules.selfHosted(row.model, row.endpoint, row.provider));
      if row.observed.None? then computed else WithInvoice(computed, row.observed.value)
  }

  // ── costForUsageRows ─────────────────────────────────────────────

  function Add(acc: Cost, c: Cost): Cost {
    acc.(input := acc.input + c.input, output := acc.output + c.output, cacheRead := acc.cacheRead + c.cacheRead,
         cacheWrite := acc.cacheWrite + c.cacheWrite, total := acc.total + c.total, market := acc.market + c.market,
         energy := acc.energy + c.energy, avoided := acc.avoided + c.avoided,
         selfHosted := acc.selfHosted || c.selfHosted, backdated := acc.backdated || c.backdated)
  }

  /** Where a sum so far says it came from, after one more cost. */
  function Attribute(sum: Cost, acc: Cost, c: Cost): Cost {
    if acc.source == Unknown && c.source != Unknown then
      sum.(source := c.source, matchedId := c.matchedId, promo := c.promo)
    else if c.source == Invoice then sum.(source := Invoice)
    else sum
  }

  function Sum(cs: seq<Cost>): Cost {
    if cs == [] then NO_COST
    else
      var acc, c := Sum(cs[..|cs| - 1]), cs[|cs| - 1];
      Attribute(Add(acc, c), acc, c)
  }

  function Costs(rules: Rules, mem: Memory, rows: seq<Usage>): (cs: seq<Cost>)
    ensures |cs| == |rows| && forall k :: 0 <= k < |rows| ==> cs[k] == CostForUsage(rules, mem, rows[k])
  {
    seq(|rows|, k requires 0 <= k < |rows| => CostForUsage(rules, mem, rows[k]))
  }

  lemma CostsAppend(rules: Rules, mem: Memory, rows: seq<Usage>, k: nat)
    requires k < |rows|
    ensures Costs(rules, mem, rows[..k + 1]) == Costs(rules, mem, rows[..k]) + [CostForUsage(rules, mem, rows[k])]
  {
  }

  lemma SumAppend(cs: seq<Cost>, c: Cost)
    ensures Sum(cs + [c]) == Attribute(Add(Sum(cs), c), Sum(cs), c)
  {
    assert (cs + [c])[..|cs|] == cs;
  }

  method CostForUsageRows(rules: Rules, mem: Memory, rows: seq<Usage>) returns (acc: Cost)
    ensures acc == Sum(Costs(rules, mem, rows))
  {
    acc := NO_COST;
    var any := false;
    ghost var cs: seq<Cost> := [];
    for k := 0 to |rows|
      invariant cs == Costs(rules, mem, rows[..k])
      invariant acc == Sum(cs) && (any <==> acc.source != Unknown)
    {
      var c := CostForUsage(rules, mem, rows[k]);
      CostsAppend(rules, mem, rows, k);
      SumAppend(cs, c);
      cs := cs + [c];
      acc := AddTo(acc, any, c);
      any := any || c.source != Unknown;
    }
    TakeAll(rows);
  }

  /** The loop body: amounts, then the name of the source. */
  method AddTo(acc: Cost, any: bool, c: Cost) returns (r: Cost)
    requires any <==> acc.source != Unknown
    ensures r == Attribute(Add(acc, c), acc, c)
    ensures r.source != Unknown <==> any || c.source != Unknown
  {
    r := Add(acc, c);
    if !any && c.source != Unknown {
      r := r.(source := c.source, matchedId := c.matchedId, promo := c.promo);
    } else if c.source == Invoice && r.source != Invoice {
      r := r.(source := Invoice);
    }
  }

  /** A mixed sum names the first real source in it, and any invoice outranks that. */
  ghost predicate NamesItsSource(cs: seq<Cost>, acc: Cost) {
    && (acc.source == Unknown <==> forall k :: 0 <= k < |cs| ==> cs[k].source == Unknown)
    && (acc.source == Invoice <==> exists k :: 0 <= k < |cs| && cs[k].source == Invoice)
    && (acc.source != Unknown ==> exists k :: FirstReal(cs, k) && TakesFrom(acc, cs[k]))
  }

  predicate TakesFrom(acc: Cost, c: Cost) {
    acc.matchedId == c.matchedId && acc.promo == c.promo && (acc.source == c.source || acc.source == Invoice)
  }

  ghost predicate FirstReal(cs: seq<Cost>, k: int) {
    0 <= k < |cs| && cs[k].source != Unknown && forall j :: 0 <= j < k ==> cs[j].source == Unknown
  }

  function Total(cs: seq<Cost>): real {
    if cs == [] then 0.0 else Total(cs[..|cs| - 1]) + cs[|cs| - 1].total
  }

  lemma SourceNamed(cs: seq<Cost>, acc: Cost, c: Cost, acc': Cost)
    requires NamesItsSource(cs, acc)
    requires if acc.source == Unknown && c.source != Unknown then acc'.source == c.source && TakesFrom(acc', c)
             else acc'.matchedId == acc.matchedId && acc'.promo == acc.promo
                  && acc'.source == if c.source == Invoice then Invoice else acc.source
    ensures NamesItsSource(cs + [c], acc')
  {
    var cs' := cs + [c];
    assert cs'[|cs|] == c && forall k :: 0 <= k < |cs| ==> cs'[k] == cs[k];
    if acc.source != Unknown {
      var k :| FirstReal(cs, k) && TakesFrom(acc, cs[k]);
      assert FirstReal(cs', k) && TakesFrom(acc', cs'[k]);
      if acc.source == Invoice {
        var i :| 0 <= i < |cs| && cs[i].source == Invoice;
        assert cs'[i].source == Invoice;
      }
    } else if c.source != Unknown {
      assert FirstReal(cs', |cs|);
    }
  }

  lemma {:induction false} SumTotals(cs: seq<Cost>)
    ensures Sum(cs).total == Total(cs)
  {
    if cs != [] { SumTotals(cs[..|cs| - 1]); }
  }

  lemma {:induction false} SumParts(cs: seq<Cost>)
    requires forall k :: 0 <= k < |cs| ==> PartsMakeTotal(cs[k])
    ensures PartsMakeTotal(Sum(cs))
  {
    if cs != [] {
      assert PartsMakeTotal(cs[|cs| - 1]);
      SumParts(cs[..|cs| - 1]);
    }
  }

  lemma AttributedNames(cs: seq<Cost>, acc: Cost, c: Cost)
    requires NamesItsSource(cs, acc)
    ensures NamesItsSource(cs + [c], Attribute(Add(acc, c), acc, c))
  {
    SourceNamed(cs, acc, c, Attribute(Add(acc, c), acc, c));
  }

  lemma NamesOneMore(cs: seq<Cost>, acc: Cost)
    requires cs != [] && NamesItsSource(cs[..|cs| - 1], acc)
    ensures NamesItsSource(cs, Attribute(Add(acc, cs[|cs| - 1]), acc, cs[|cs| - 1]))
  {
    AttributedNames(cs[..|cs| - 1], acc, cs[|cs| - 1]);
    assert cs == cs[..|cs| - 1] + [cs[|cs| - 1]];
  }

  lemma {:induction false} SumNamesItsSource(cs: seq<Cost>)
    ensures NamesItsSource(cs, Sum(cs))
  {
    if cs != [] {
      SumNamesItsSource(cs[..|cs| - 1]);
      NamesOneMore(cs, Sum(cs[..|cs| - 1]));
    }
  }

  /** What a sum is: the totals added up, parts making the whole wherever each row's do, and an honest source. */
  lemma SumMeans(cs: seq<Cost>)
    ensures Sum(cs).total == Total(cs)
    ensures (forall k :: 0 <= k < |cs| ==> PartsMakeTotal(cs[k])) ==> PartsMakeTotal(Sum(cs))
    ensures NamesItsSource(cs, Sum(cs))
  {
    SumTotals(cs);
    SumNamesItsSource(cs);
    if forall k :: 0 <= k < |cs| ==> PartsMakeTotal(cs[k]) { SumParts(cs); }
  }

  // ── The parts always make the whole ──────────────────────────────

  predicate PartsMakeTotal(c: Cost) {
    c.input + c.output + c.cacheRead + c.cacheWrite == c.total
  }

  lemma ScaledParts(i: real, o: real, r: real, w: real, total: real, scale: real, observed: real)
    requires i + o + r + w == total && total * scale == observed
    ensures i * scale + o * scale + r * scale + w * scale == observed
  {
  }

  /** An invoice is split so that the parts still make it, unless it is non-zero and there is no estimate to split by. */
  lemma InvoiceParts(c: Cost, observed: real)
    requires PartsMakeTotal(c)
    ensures PartsMakeTotal(WithInvoice(c, observed)) <==> observed == 0.0 || c.total > 0.0
  {
    if c.total > 0.0 {
      ScaledParts(c.input, c.output, c.cacheRead, c.cacheWrite, c.total, observed / c.total, observed);
    }
  }

  lemma BreakdownParts(rules: Rules, resolved: Option<Resolved>, model: string, tokens: Tokens, selfHosted: bool)
    ensures PartsMakeTotal(Breakdown(rules, resolved, model, tokens, selfHosted))
  {
  }

  /**
   * The class costs of a usage row sum to its total, an invoice included, except exactly when a
   * non-zero invoice meets an estimate that is not positive: there the parts are all zero.
   */
  lemma PartsMakeTotalIff(rules: Rules, mem: Memory, row: Usage)
    ensures PartsMakeTotal(CostForUsage(rules, mem, row))
            <==> row.model == "" || row.observed.None? || row.observed == Some(0.0)
                 || CostForUsage(rules, mem, row.(observed := None)).total > 0.0
  {
    var resolved := ResolvePrice(rules, mem, row.model, Preference(row.provider), row.at);
    var selfHosted := rules.selfHosted(row.model, row.endpoint, row.provider);
    BreakdownParts(rules, resolved, row.model, row.tokens, selfHosted);
    if row.observed.Some? {
      InvoiceParts(Breakdown(rules, resolved, row.model, row.tokens, selfHosted), row.observed.value);
    }
  }

  /** A model every table calls free, known to no book. */
  const FREE_RULES := Rules(
    (s: string) => s, (model: string) => false, (model: string) => [], (model: string) => Some(Price(0.0, 0.0, 0.0, 0.0)),
    (id: string) => None, (model: string, endpoint: Option<string>, provider: Option<string>) => false,
    (model: string, tokens: Tokens) => 0.0)

  const INVOICED := Usage("m", Tokens(1000.0, 0.0, 0.0, 0.0), None, None, None, Some(1.0))

  /** Such a row: a free model with an invoice of 1. Its total is 1 and its parts make nothing. */
  lemma FreeModelInvoiced(mem: Memory)
    ensures var c := CostForUsage(FREE_RULES, mem, INVOICED);
            c.total == 1.0 && c.input + c.output + c.cacheRead + c.cacheWrite == 0.0 && !PartsMakeTotal(c)
  {
    NoBookAnswers(mem, SOURCES);
  }

  lemma {:induction false} NoBookAnswers(mem: Memory, prefer: seq<Source>)
    ensures FromSources(FREE_RULES, mem, prefer, [], None).None?
  {
    if prefer != [] { NoBookAnswers(mem, prefer[1..]); }
  }
}
