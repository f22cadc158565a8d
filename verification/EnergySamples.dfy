/**
 * From samples to intervals, and the percentile that gives a node's idle draw
 * (packages/core/energy-attribution.ts, `hostIntervals`, `weightedPercentile`).
 */
module EnergySamples {
  import opened Wrappers
  import opened Seqs
  import opened EnergyBuckets
  import opened EnergyCounters

  const MAX_SAMPLE_GAP_MS := 300000
  const MS_PER_HOUR := 3600000.0

  // ── The value below which a share of the weight lies ─────────────

  datatype Weighted = Weighted(v: real, w: real)

  function Usable(xs: seq<Weighted>): (r: seq<Weighted>)
    ensures forall i :: 0 <= i < |r| ==> r[i].w > 0.0
  {
    if xs == [] then []
    else
      var rest := Usable(xs[..|xs| - 1]);
      if xs[|xs| - 1].w > 0.0 then rest + [xs[|xs| - 1]] else rest
  }

  function Total(xs: seq<Weighted>): real {
    if xs == [] then 0.0 else Total(xs[..|xs| - 1]) + xs[|xs| - 1].w
  }

  /** The weight at or below a value. */
  function UpTo(xs: seq<Weighted>, v: real): real {
    if xs == [] then 0.0
    else UpTo(xs[..|xs| - 1], v) + if xs[|xs| - 1].v <= v then xs[|xs| - 1].w else 0.0
  }

  function Insert(xs: seq<Weighted>, x: Weighted): seq<Weighted> {
    if xs == [] || xs[|xs| - 1].v <= x.v then xs + [x] else Insert(xs[..|xs| - 1], x) + [xs[|xs| - 1]]
  }

  /** `sort((a, b) => a.v - b.v)`, which keeps equals in order. */
  function Sort(xs: seq<Weighted>): seq<Weighted> {
    if xs == [] then [] else Insert(Sort(xs[..|xs| - 1]), xs[|xs| - 1])
  }

  ghost predicate Ascending(xs: seq<Weighted>) {
    forall i, j :: 0 <= i < j < |xs| ==> xs[i].v <= xs[j].v
  }

  lemma {:induction false} InsertKeeps(xs: seq<Weighted>, x: Weighted)
    ensures multiset(Insert(xs, x)) == multiset(xs) + multiset{x}
  {
    if xs != [] && xs[|xs| - 1].v > x.v {
      InsertKeeps(xs[..|xs| - 1], x);
      assert xs == xs[..|xs| - 1] + [xs[|xs| - 1]];
    }
  }

  lemma {:induction false} InsertSorts(xs: seq<Weighted>, x: Weighted)
    requires Ascending(xs)
    ensures Ascending(Insert(xs, x))
  {
    if xs != [] && xs[|xs| - 1].v > x.v {
      var init, last := xs[..|xs| - 1], xs[|xs| - 1];
      InsertSorts(init, x);
      InsertKeeps(init, x);
      var out := Insert(init, x);
      forall i | 0 <= i < |out| ensures out[i].v <= last.v {
        assert out[i] in multiset(out);
      }
    }
  }

  lemma {:induction false} InsertWeighs(xs: seq<Weighted>, x: Weighted, v: real)
    ensures Total(Insert(xs, x)) == Total(xs) + x.w
    ensures UpTo(Insert(xs, x), v) == UpTo(xs, v) + if x.v <= v then x.w else 0.0
  {
    if xs == [] || xs[|xs| - 1].v <= x.v {
      assert (xs + [x])[..|xs|] == xs;
    } else {
      var out := Insert(xs[..|xs| - 1], x);
      InsertWeighs(xs[..|xs| - 1], x, v);
      assert (out + [xs[|xs| - 1]])[..|out|] == out;
    }
  }

  lemma {:induction false} SortSorts(xs: seq<Weighted>)
    ensures Ascending(Sort(xs))
  {
    if xs != [] {
      SortSorts(xs[..|xs| - 1]);
      InsertSorts(Sort(xs[..|xs| - 1]), xs[|xs| - 1]);
    }
  }

  lemma {:induction false} SortPermutes(xs: seq<Weighted>)
    ensures multiset(Sort(xs)) == multiset(xs)
  {
    if xs != [] {
      SortPermutes(xs[..|xs| - 1]);
      InsertKeeps(Sort(xs[..|xs| - 1]), xs[|xs| - 1]);
      assert xs == xs[..|xs| - 1] + [xs[|xs| - 1]];
    }
  }

  /** Sorting changes no weight, in all or up to any value. */
  lemma {:induction false} SortKeepsWeights(xs: seq<Weighted>, v: real)
    ensures Total(Sort(xs)) == Total(xs) && UpTo(Sort(xs), v) == UpTo(xs, v)
  {
    if xs != [] {
      SortKeepsWeights(xs[..|xs| - 1], v);
      InsertWeighs(Sort(xs[..|xs| - 1]), xs[|xs| - 1], v);
    }
  }

  lemma SameMembers(xs: seq<Weighted>)
    ensures forall x :: x in Sort(xs) <==> x in xs
    ensures Sort(xs) == [] <==> xs == []
  {
    SortPermutes(xs);
    forall x ensures x in Sort(xs) <==> x in xs {
      assert x in multiset(Sort(xs)) <==> x in multiset(xs);
    }
    if xs != [] { assert xs[0] in Sort(xs); }
    if Sort(xs) != [] { assert Sort(xs)[0] in xs; }
  }

  lemma {:induction false} PrefixWeights(xs: seq<Weighted>, i: nat, v: real)
    requires i <= |xs| && Ascending(xs) && Positive(xs)
    ensures (forall j :: 0 <= j < i ==> xs[j].v <= v) ==> UpTo(xs, v) >= Total(xs[..i])
    ensures (forall j :: i <= j < |xs| ==> xs[j].v > v) ==> UpTo(xs, v) <= Total(xs[..i])
    decreases |xs|
  {
    if i < |xs| {
      PrefixWeights(xs[..|xs| - 1], i, v);
      assert xs[..|xs| - 1][..i] == xs[..i];
    } else {
      TakeAll(xs);
      if xs != [] {
        PrefixWeights(xs[..|xs| - 1], i - 1, v);
        assert xs[..|xs| - 1][..i - 1] == xs[..|xs| - 1];
      }
    }
  }

  function Clamp(p: real): real {
    Min(1.0, Max(0.0, p))
  }

  /** The share `p`, held to between nothing and all, of a total. */
  function TargetOf(p: real, total: real): real {
    Clamp(p) * total
  }

  lemma TargetIsAtMost(p: real, total: real)
    requires total >= 0.0
    ensures TargetOf(p, total) <= total
  {
    ShareIsAtMost(Clamp(p), total);
  }

  lemma ShareIsAtMost(share: real, total: real)
    requires 0.0 <= share <= 1.0 && total >= 0.0
    ensures share * total <= total
  {
  }

  /** The least of the values at or below which the weight reaches a target. */
  ghost predicate Reaches(xs: seq<Weighted>, target: real, v: real) {
    && (exists x :: x in xs && x.v == v)
    && UpTo(xs, v) >= target
    && forall x :: x in xs && x.v < v ==> UpTo(xs, x.v) < target
  }

  /** The least of the weighted values at or below which `p` of the total weight lies. */
  ghost predicate IsPercentile(xs: seq<Weighted>, p: real, v: real) {
    Reaches(xs, TargetOf(p, Total(xs)), v)
  }

  lemma ReachedAt(s: seq<Weighted>, target: real, i: nat)
    requires Ascending(s) && Positive(s)
    requires i < |s| && Total(s[..i + 1]) >= target && (i > 0 ==> Total(s[..i]) < target)
    ensures Reaches(s, target, s[i].v)
  {
    PrefixWeights(s, i + 1, s[i].v);
    forall x | x in s && x.v < s[i].v ensures UpTo(s, x.v) < target {
      var k :| 0 <= k < |s| && s[k] == x;
      assert k < i;
      BelowIsEarlier(s, i, x.v);
    }
  }

  lemma BelowIsEarlier(s: seq<Weighted>, i: nat, v: real)
    requires Ascending(s) && Positive(s) && i < |s| && v < s[i].v
    ensures UpTo(s, v) <= Total(s[..i])
  {
    forall j | i <= j < |s| ensures s[j].v > v {
      if i < j { assert s[i].v <= s[j].v; }
    }
    PrefixWeights(s, i, v);
  }

  /** Sorting does not change which value reaches a target. */
  lemma SortedReaches(xs: seq<Weighted>, target: real, v: real)
    requires Reaches(Sort(xs), target, v)
    ensures Reaches(xs, target, v)
  {
    SameMembers(xs);
    SortKeepsWeights(xs, v);
    forall x | x in xs && x.v < v ensures UpTo(xs, x.v) < target {
      SortKeepsWeights(xs, x.v);
    }
  }

  ghost predicate Positive(xs: seq<Weighted>) {
    forall j :: 0 <= j < |xs| ==> xs[j].w > 0.0
  }

  lemma SortedWeights(xs: seq<Weighted>)
    requires Positive(xs)
    ensures Positive(Sort(xs)) && Total(Sort(xs)) == Total(xs)
    ensures Total(Sort(xs)) >= 0.0 && (Total(Sort(xs)) > 0.0 <==> xs != [])
  {
    SameMembers(xs);
    SortKeepsWeights(xs, 0.0);
    TotalIsPositive(xs);
    forall j | 0 <= j < |Sort(xs)| ensures Sort(xs)[j].w > 0.0 {
      assert Sort(xs)[j] in xs;
    }
  }

  lemma {:induction false} TotalIsPositive(xs: seq<Weighted>)
    requires Positive(xs)
    ensures Total(xs) >= 0.0 && (xs != [] ==> Total(xs) > 0.0)
  {
    if xs != [] { TotalIsPositive(xs[..|xs| - 1]); }
  }

  /** The weight strictly below a value. */
  function Below(xs: seq<Weighted>, v: real): real {
    if xs == [] then 0.0
    else Below(xs[..|xs| - 1], v) + if xs[|xs| - 1].v < v then xs[|xs| - 1].w else 0.0
  }

  /** Nothing lies below the value, or all that does lies at or below the largest that does. */
  lemma {:induction false} LargestBelow(xs: seq<Weighted>, v: real) returns (largest: Option<Weighted>)
    ensures largest.None? ==> Below(xs, v) == 0.0 && forall x :: x in xs ==> x.v >= v
    ensures largest.Some? ==> largest.value in xs && largest.value.v < v && forall x :: x in xs && x.v < v ==> x.v <= largest.value.v
  {
    if xs == [] {
      largest := None;
    } else {
      var last := xs[|xs| - 1];
      largest := LargestBelow(xs[..|xs| - 1], v);
      if last.v < v && (largest.None? || largest.value.v < last.v) { largest := Some(last); }
      assert forall x :: x in xs <==> x in xs[..|xs| - 1] || x == last;
    }
  }

  lemma {:induction false} BelowIsUpTo(xs: seq<Weighted>, v: real, u: real)
    requires u < v && forall x :: x in xs && x.v < v ==> x.v <= u
    ensures Below(xs, v) == UpTo(xs, u)
  {
    if xs != [] {
      assert xs[|xs| - 1] in xs;
      BelowIsUpTo(xs[..|xs| - 1], v, u);
    }
  }

  /** What lies strictly below the value that reaches a positive target falls short of it. */
  lemma LessLiesBelow(xs: seq<Weighted>, target: real, v: real)
    requires Reaches(xs, target, v) && target > 0.0
    ensures Below(xs, v) < target
  {
    var largest := LargestBelow(xs, v);
    if largest.Some? { BelowIsUpTo(xs, v, largest.value.v); }
  }

  lemma {:induction false} UpToIsNonNegative(xs: seq<Weighted>, v: real)
    requires Positive(xs)
    ensures UpTo(xs, v) >= 0.0
  {
    if xs != [] { UpToIsNonNegative(xs[..|xs| - 1], v); }
  }

  /** Nothing to reach is reached by the least value. */
  lemma NoTargetIsTheLeast(xs: seq<Weighted>, v: real)
    requires Positive(xs) && Reaches(xs, 0.0, v)
    ensures forall x :: x in xs ==> v <= x.v
  {
    forall x | x in xs ensures v <= x.v { UpToIsNonNegative(xs, x.v); }
  }

  lemma TargetSign(p: real, total: real)
    requires total > 0.0
    ensures if p > 0.0 then TargetOf(p, total) > 0.0 else TargetOf(p, total) == 0.0
  {
    SignOfProduct(Clamp(p), total);
  }

  lemma SignOfProduct(share: real, total: real)
    requires share >= 0.0 && total > 0.0
    ensures if share > 0.0 then share * total > 0.0 else share * total == 0.0
  {
  }

  lemma SomethingHasWeight(xs: seq<Weighted>, target: real, v: real)
    requires Positive(xs) && Reaches(xs, target, v)
    ensures Total(xs) > 0.0
  {
    var member :| member in xs && member.v == v;
    TotalIsPositive(xs);
  }

  /**
   * Less than the share asked for lies strictly below a percentile, and no less at or below it, whenever the
   * share is positive; a share of nothing is reached by the least value.
   */
  lemma PercentileParts(xs: seq<Weighted>, p: real, v: real)
    requires Positive(xs) && IsPercentile(xs, p, v)
    ensures p > 0.0 ==> Below(xs, v) < TargetOf(p, Total(xs)) <= UpTo(xs, v)
    ensures p <= 0.0 ==> forall x :: x in xs ==> v <= x.v
  {
    var target := TargetOf(p, Total(xs));
    SomethingHasWeight(xs, target, v);
    TargetSign(p, Total(xs));
    if p > 0.0 {
      LessLiesBelow(xs, target, v);
    } else {
      NoTargetIsTheLeast(xs, v);
    }
  }

  /** None when nothing has weight. */
  method WeightedPercentile(values: seq<Weighted>, p: real) returns (r: Option<real>)
    ensures r.None? <==> Usable(values) == []
    ensures r.Some? ==> IsPercentile(Usable(values), p, r.value)
  {
    var usable := Usable(values);
    var xs := Sort(usable);
    SortSorts(usable);
    SortedWeights(usable);
    var total := Total(xs);
    if !(total > 0.0) { return None; }
    var target := TargetOf(p, total);
    TargetIsAtMost(p, total);
    var v := Reach(xs, target);
    SortedReaches(usable, target, v);
    r := Some(v);
  }

  /** Add up the weights in order of value until they reach the target. */
  method Reach(xs: seq<Weighted>, target: real) returns (v: real)
    requires Ascending(xs) && Positive(xs) && xs != [] && target <= Total(xs)
    ensures Reaches(xs, target, v)
  {
    v := xs[|xs| - 1].v;
    var acc, i := 0.0, 0;
    TakeAll(xs);
    while i < |xs|
      invariant 0 <= i <= |xs| && acc == Total(xs[..i]) && (i > 0 ==> acc < target)
    {
      acc := acc + xs[i].w;
      assert xs[..i + 1][..i] == xs[..i];
      if acc >= target {
        ReachedAt(xs, target, i);
        return xs[i].v;
      }
      i := i + 1;
    }
  }

  // ── Samples into intervals ───────────────────────────────────────

  datatype Hot = Hot(
    ts: int, watts: real, gpuWatts: real, cpu: Option<seq<Package>>, gpuMj: Option<real>, uptimeS: Option<real>)
  datatype Cold = Cold(ts: int, watts: real, gpuWatts: real, sampleCount: int, measured: Option<(real, real)>)

  /** The counter energy between two samples, where both ends have counters. */
  type Measure = (Hot, Hot) -> Option<(real, real)>

  function CountersOf(h: Hot): Counters {
    Counters(h.cpu, h.gpuMj, h.uptimeS, Some(h.watts))
  }

  function Seconds(a: Hot, b: Hot): real {
    (b.ts - a.ts) as real / 1000.0
  }

  function Metered(a: Hot, b: Hot): Option<(real, real)> {
    Measured(CountersOf(a), a.gpuWatts, CountersOf(b), b.gpuWatts, Some(Seconds(a, b)))
  }

  /** The gaps short enough, and in order, to hold a draw over. */
  predicate Integrable(dtMs: int) {
    0 < dtMs <= MAX_SAMPLE_GAP_MS
  }

  /** A row holds its draw until the next one, unless the gap is too long to trust. */
  function HotIntervals(h: seq<Hot>, measure: Measure): seq<Interval> {
    if |h| < 2 then []
    else
      var rest, a, b := HotIntervals(h[..|h| - 1], measure), h[|h| - 2], h[|h| - 1];
      if Integrable(b.ts - a.ts)
      then rest + [Interval(a.ts, (b.ts - a.ts) as real / MS_PER_HOUR, a.watts, a.gpuWatts, measure(a, b))] else rest
  }

  /** A quarter hour, or the share of one that the sample count says was seen. */
  function ColdHours(c: Cold): real {
    0.25 * Min(1.0, (if c.sampleCount < 0 then 0 else c.sampleCount) as real / 60.0)
  }

  function ColdIntervals(cold: seq<Cold>): seq<Interval> {
    if cold == [] then []
    else
      var rest, c := ColdIntervals(cold[..|cold| - 1]), cold[|cold| - 1];
      if ColdHours(c) > 0.0 then rest + [Interval(c.ts, ColdHours(c), c.watts, c.gpuWatts, c.measured)] else rest
  }

  ghost predicate InOrder(h: seq<Hot>) {
    forall i, j :: 0 <= i < j < |h| ==> h[i].ts <= h[j].ts
  }

  ghost predicate IntervalsInOrder(xs: seq<Interval>) {
    forall i, j :: 0 <= i < j < |xs| ==> xs[i].ts <= xs[j].ts
  }

  ghost predicate InKeyOrder<T>(xs: seq<T>, key: T -> int) {
    forall i, j :: 0 <= i < j < |xs| ==> key(xs[i]) <= key(xs[j])
  }

  lemma InsertAt<T>(xs: seq<T>, key: T -> int, i: nat, x: T)
    requires i <= |xs| && InKeyOrder(xs, key)
    requires (i > 0 ==> key(xs[i - 1]) <= key(x)) && forall j :: i <= j < |xs| ==> key(x) <= key(xs[j])
    ensures InKeyOrder(xs[..i] + [x] + xs[i..], key)
  {
    forall j | 0 <= j < i ensures key(xs[j]) <= key(x) {
      if j < i - 1 { assert key(xs[j]) <= key(xs[i - 1]); }
    }
  }

  lemma InsertOne<T>(xs: seq<T>, i: nat, x: T)
    requires i <= |xs|
    ensures multiset(xs[..i] + [x] + xs[i..]) == multiset(xs) + multiset{x}
  {
    assert xs == xs[..i] + xs[i..];
  }

  /** `sort((a, b) => key(a) - key(b))`. */
  method SortBy<T(==)>(xs: seq<T>, key: T -> int) returns (s: seq<T>)
    ensures InKeyOrder(s, key) && multiset(s) == multiset(xs)
  {
    s := [];
    for k := 0 to |xs|
      invariant InKeyOrder(s, key) && multiset(s) == multiset(xs[..k])
    {
      var i := |s|;
      while i > 0 && key(s[i - 1]) > key(xs[k])
        invariant 0 <= i <= |s| && forall j :: i <= j < |s| ==> key(s[j]) > key(xs[k])
      {
        i := i - 1;
      }
      TakeOneMore(xs, k);
      InsertAt(s, key, i, xs[k]);
      InsertOne(s, i, xs[k]);
      s := s[..i] + [xs[k]] + s[i..];
    }
    TakeAll(xs);
  }

  method LiveIntervals(h: seq<Hot>) returns (out: seq<Interval>)
    ensures out == HotIntervals(h, Metered)
  {
    out := [];
    var i := 0;
    while i + 1 < |h|
      invariant 0 <= i && (i < |h| || h == [])
      invariant out == if h == [] then [] else HotIntervals(h[..i + 1], Metered)
    {
      var dt := h[i + 1].ts - h[i].ts;
      assert h[..i + 2][..i + 1] == h[..i + 1];
      if Integrable(dt) {
        var m := MeasuredIntervalWh(CountersOf(h[i]), h[i].gpuWatts, CountersOf(h[i + 1]), h[i + 1].gpuWatts, Some(dt as real / 1000.0));
        assert m == Metered(h[i], h[i + 1]);
        out := out + [Interval(h[i].ts, dt as real / MS_PER_HOUR, h[i].watts, h[i].gpuWatts, m)];
      }
      i := i + 1;
    }
    TakeAll(h);
  }

  method ArchivedIntervals(cold: seq<Cold>) returns (out: seq<Interval>)
    ensures out == ColdIntervals(cold)
  {
    out := [];
    for k := 0 to |cold|
      invariant out == ColdIntervals(cold[..k])
    {
      var hours := ColdHours(cold[k]);
      assert cold[..k + 1][..k] == cold[..k];
      if hours > 0.0 {
        out := out + [Interval(cold[k].ts, hours, cold[k].watts, cold[k].gpuWatts, cold[k].measured)];
      }
    }
    TakeAll(cold);
  }

  /** One node's samples as measured intervals in time order: from the live rows, in order, and the archived ones. */
  method HostIntervals(hot: seq<Hot>, cold: seq<Cold>) returns (out: seq<Interval>, ghost h: seq<Hot>)
    ensures InOrder(h) && multiset(h) == multiset(hot)
    ensures IntervalsInOrder(out) && multiset(out) == multiset(HotIntervals(h, Metered)) + multiset(ColdIntervals(cold))
  {
    var sorted := SortBy(hot, (x: Hot) => x.ts);
    h := sorted;
    var live := LiveIntervals(sorted);
    var archived := ArchivedIntervals(cold);
    out := SortBy(live + archived, (x: Interval) => x.ts);
  }

  /** When an interval from live rows ends. */
  function End(x: Interval): real {
    x.ts as real + x.hours * MS_PER_HOUR
  }

  lemma EndsAtNext(a: Hot, b: Hot, measured: Option<(real, real)>)
    requires Integrable(b.ts - a.ts)
    ensures var x := Interval(a.ts, (b.ts - a.ts) as real / MS_PER_HOUR, a.watts, a.gpuWatts, measured);
            x.hours > 0.0 && End(x) == b.ts as real
  {
    var dt := (b.ts - a.ts) as real;
    assert dt / MS_PER_HOUR * MS_PER_HOUR == dt;
  }

  ghost predicate Within(xs: seq<Interval>, last: int) {
    forall i :: 0 <= i < |xs| ==> xs[i].hours > 0.0 && End(xs[i]) <= last as real
                                  && End(xs[i]) - xs[i].ts as real <= MAX_SAMPLE_GAP_MS as real
  }

  ghost predicate Separate(xs: seq<Interval>) {
    forall i, j :: 0 <= i < j < |xs| ==> End(xs[i]) <= xs[j].ts as real
  }

  lemma AppendSeparate(xs: seq<Interval>, x: Interval, last: int)
    requires Separate(xs) && Within(xs, x.ts) && Within([x], last) && x.ts <= last
    ensures Separate(xs + [x]) && Within(xs + [x], last)
  {
    assert Within([x], last) ==> [x][0].hours > 0.0;
    assert End([x][0]) <= last as real;
  }

  /** No instant is counted twice, none longer than the gap allows, and none beyond the last sample. */
  lemma {:induction false} HotIntervalsDoNotOverlap(h: seq<Hot>, measure: Measure)
    requires InOrder(h) && h != []
    ensures Separate(HotIntervals(h, measure)) && Within(HotIntervals(h, measure), h[|h| - 1].ts)
  {
    if |h| >= 2 {
      var init, a, b := h[..|h| - 1], h[|h| - 2], h[|h| - 1];
      HotIntervalsDoNotOverlap(init, measure);
      assert a.ts <= b.ts;
      if Integrable(b.ts - a.ts) {
        EndsAtNext(a, b, measure(a, b));
        AppendSeparate(HotIntervals(init, measure), Interval(a.ts, (b.ts - a.ts) as real / MS_PER_HOUR, a.watts, a.gpuWatts, measure(a, b)), b.ts);
      }
    }
  }

  /** The time the live rows account for: every gap that can be trusted, and no other. */
  function TrustedMs(h: seq<Hot>): int {
    if |h| < 2 then 0
    else
      var dt := h[|h| - 1].ts - h[|h| - 2].ts;
      TrustedMs(h[..|h| - 1]) + if Integrable(dt) then dt else 0
  }

  function Hours(xs: seq<Interval>): real {
    if xs == [] then 0.0 else Hours(xs[..|xs| - 1]) + xs[|xs| - 1].hours
  }

  lemma {:induction false} HoursAreTheTrustedGaps(h: seq<Hot>, measure: Measure)
    ensures Hours(HotIntervals(h, measure)) * MS_PER_HOUR == TrustedMs(h) as real
  {
    if |h| >= 2 {
      var init, a, b := h[..|h| - 1], h[|h| - 2], h[|h| - 1];
      HoursAreTheTrustedGaps(init, measure);
      var rest := HotIntervals(init, measure);
      if Integrable(b.ts - a.ts) {
        var x := Interval(a.ts, (b.ts - a.ts) as real / MS_PER_HOUR, a.watts, a.gpuWatts, measure(a, b));
        assert (rest + [x])[..|rest|] == rest;
      }
    }
  }
}
