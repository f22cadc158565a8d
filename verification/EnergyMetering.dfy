/**
 * What the counters say of a bucket: its measured energy is that of the intervals between its samples, and
 * when that is the energy really drawn (packages/core/energy-attribution.ts, packages/core/energy-counters.ts).
 */
module EnergyMetering {
  import opened Wrappers
  import opened Seqs
  import opened EnergyBuckets
  import opened EnergyCounters
  import opened EnergySamples

  // ── A bucket's measured energy ───────────────────────────────────

  function MeasuredWhOf(x: Interval): real {
    if x.measured.Some? then x.measured.value.0 else 0.0
  }

  /** The measured energy of the intervals that began in a bucket. */
  function MeasuredIn(xs: seq<Interval>, b: int): real {
    if xs == [] then 0.0
    else
      var x := xs[|xs| - 1];
      MeasuredIn(xs[..|xs| - 1], b) + if BucketOf(x.ts) == b then MeasuredWhOf(x) else 0.0
  }

  lemma {:induction false} MeasuredInAppend(xs: seq<Interval>, ys: seq<Interval>, b: int)
    ensures MeasuredIn(xs + ys, b) == MeasuredIn(xs, b) + MeasuredIn(ys, b)
  {
    if ys == [] {
      assert xs + ys == xs;
    } else {
      MeasuredInAppend(xs, ys[..|ys| - 1], b);
      assert (xs + ys)[..|xs + ys| - 1] == xs + ys[..|ys| - 1];
    }
  }

  function Without(xs: seq<Interval>, i: nat): (rest: seq<Interval>)
    requires i < |xs|
    ensures |rest| == |xs| - 1
  {
    xs[..i] + xs[i + 1..]
  }

  lemma WithoutOne(xs: seq<Interval>, i: nat, b: int)
    requires i < |xs|
    ensures multiset(Without(xs, i)) == multiset(xs) - multiset{xs[i]}
    ensures MeasuredIn(xs, b) == MeasuredIn(Without(xs, i), b) + MeasuredIn([xs[i]], b)
  {
    var head, tail := xs[..i], xs[i + 1..];
    assert xs == (head + [xs[i]]) + tail;
    MeasuredInAppend(head + [xs[i]], tail, b);
    MeasuredInAppend(head, [xs[i]], b);
    MeasuredInAppend(head, tail, b);
  }

  lemma SameSize(xs: seq<Interval>, ys: seq<Interval>)
    requires multiset(xs) == multiset(ys)
    ensures |xs| == |ys| && forall x :: x in xs ==> x in ys
  {
    assert |multiset(xs)| == |xs| && |multiset(ys)| == |ys|;
    forall x | x in xs ensures x in ys { assert x in multiset(xs); }
  }

  /** In whatever order the intervals come. */
  lemma {:induction false} OrderIsNothing(xs: seq<Interval>, ys: seq<Interval>, b: int)
    requires multiset(xs) == multiset(ys)
    ensures MeasuredIn(xs, b) == MeasuredIn(ys, b)
    decreases |xs|
  {
    SameSize(xs, ys);
    if xs != [] {
      assert xs[0] in xs && xs[0] in ys;
      var i :| 0 <= i < |ys| && ys[i] == xs[0];
      WithoutOne(xs, 0, b);
      WithoutOne(ys, i, b);
      OrderIsNothing(Without(xs, 0), Without(ys, i), b);
    }
  }

  function MeasuredOf(nb: Option<NodeBucket>): real {
    if nb.Some? then nb.value.measuredWh else 0.0
  }

  lemma {:induction false} BucketAtMeasures(xs: seq<Interval>, b: int, idleFor: IdleFor)
    ensures MeasuredOf(BucketAt(xs, b, idleFor)) == MeasuredIn(xs, b)
  {
    if xs != [] { BucketAtMeasures(xs[..|xs| - 1], b, idleFor); }
  }

  // ── ... is that of its samples ───────────────────────────────────

  /** Two consecutive samples that bound an interval of the bucket. */
  predicate Bounds(x: Hot, y: Hot, b: int) {
    Integrable(y.ts - x.ts) && BucketOf(x.ts) == b
  }

  /** What the counters add up to between the samples of a bucket. */
  function MeteredIn(h: seq<Hot>, measure: Measure, b: int): real {
    if |h| < 2 then 0.0
    else
      var x, y := h[|h| - 2], h[|h| - 1];
      MeteredIn(h[..|h| - 1], measure, b) + if Bounds(x, y, b) && measure(x, y).Some? then measure(x, y).value.0 else 0.0
  }

  lemma MeasuredInOneMore(xs: seq<Interval>, x: Interval, b: int)
    ensures MeasuredIn(xs + [x], b) == MeasuredIn(xs, b) + if BucketOf(x.ts) == b then MeasuredWhOf(x) else 0.0
  {
    assert (xs + [x])[..|xs|] == xs;
  }

  lemma {:induction false} LiveIntervalsMeter(h: seq<Hot>, measure: Measure, b: int)
    ensures MeasuredIn(HotIntervals(h, measure), b) == MeteredIn(h, measure, b)
  {
    if |h| >= 2 {
      var x, y := h[|h| - 2], h[|h| - 1];
      LiveIntervalsMeter(h[..|h| - 1], measure, b);
      var iv := Interval(x.ts, (y.ts - x.ts) as real / MS_PER_HOUR, x.watts, x.gpuWatts, measure(x, y));
      MeasuredInOneMore(HotIntervals(h[..|h| - 1], measure), iv, b);
    }
  }

  /**
   * Whatever range is integrated, a bucket's measured energy is what the counters say between its own
   * samples, and what its archived rows recorded.
   */
  lemma BucketMeasuresItsSamples(h: seq<Hot>, cold: seq<Cold>, out: seq<Interval>, start: int, end: int, idleFor: IdleFor, b: int)
    requires multiset(out) == multiset(HotIntervals(h, Metered)) + multiset(ColdIntervals(cold))
    requires Aligned(start) && Aligned(end) && Aligned(b) && start <= b < end
    ensures MeasuredOf(At(Graded(Integrate(out, start, end, idleFor)), b)) == MeteredIn(h, Metered, b) + MeasuredIn(ColdIntervals(cold), b)
  {
    var live, archived := HotIntervals(h, Metered), ColdIntervals(cold);
    GradedAt(Integrate(out, start, end, idleFor), b);
    BucketsAreLocal(out, start, end, idleFor, b);
    BucketAtMeasures(out, b, idleFor);
    assert multiset(live + archived) == multiset(live) + multiset(archived);
    OrderIsNothing(out, live + archived, b);
    MeasuredInAppend(live, archived, b);
    LiveIntervalsMeter(h, Metered, b);
  }

  // ── ... and when that is the energy drawn ────────────────────────

  /** Two consecutive samples of the bucket that the counters measure. */
  predicate Meters(h: seq<Hot>, k: nat, b: int)
    requires 0 < k < |h|
  {
    Bounds(h[k - 1], h[k], b) && Metered(h[k - 1], h[k]).Some?
  }

  /** `energies[k]` is what each package had truly drawn at sample `k`. */
  ghost predicate Truth(h: seq<Hot>, energies: seq<seq<real>>) {
    && |h| == |energies|
    && forall k :: 0 < k < |h| && Metered(h[k - 1], h[k]).Some? ==> SameBox(h[k - 1].cpu.value, energies[k - 1], h[k].cpu.value, energies[k])
  }

  /** No package rose by a whole range from sample `k - 1` to sample `k`. */
  ghost predicate UnderARange(h: seq<Hot>, energies: seq<seq<real>>, k: nat)
    requires 0 < k < |h| == |energies| && Truth(h, energies) && Metered(h[k - 1], h[k]).Some?
  {
    forall i :: 0 <= i < |energies[k - 1]| ==> energies[k][i] - energies[k - 1][i] < h[k - 1].cpu.value[i].max
  }

  /** What the packages and the GPUs drew between the measured samples of a bucket. */
  function DrawnIn(h: seq<Hot>, energies: seq<seq<real>>, b: int): real
    requires |h| == |energies|
  {
    if |h| < 2 then 0.0
    else
      var k := |h| - 1;
      DrawnIn(h[..k], energies[..k], b)
      + if Meters(h, k, b)
        then (SumReals(energies[k]) - SumReals(energies[k - 1])) / UJ_PER_WH + GpuWh(CountersOf(h[k - 1]), CountersOf(h[k])) else 0.0
  }

  lemma MeteredPair(x: Hot, y: Hot, before: seq<real>, after: seq<real>)
    requires Metered(x, y).Some? && SameBox(x.cpu.value, before, y.cpu.value, after)
    ensures var drawn := (SumReals(after) - SumReals(before)) / UJ_PER_WH + GpuWh(CountersOf(x), CountersOf(y));
            && Metered(x, y).value.0 <= drawn
            && (Metered(x, y).value.0 == drawn <==> forall i :: 0 <= i < |before| ==> after[i] - before[i] < x.cpu.value[i].max)
  {
    DeltaIsTrueEnergyIff(CountersOf(x), before, CountersOf(y), after, Some(Seconds(x, y)));
  }

  /** `Meters` and `UnderARange` look at two samples only. */
  lemma SamePair(h: seq<Hot>, energies: seq<seq<real>>, n: nat, k: nat, b: int)
    requires 0 < k < n <= |h| && Truth(h, energies)
    ensures Truth(h[..n], energies[..n])
    ensures Meters(h[..n], k, b) <==> Meters(h, k, b)
    ensures Meters(h, k, b) ==> (UnderARange(h[..n], energies[..n], k) <==> UnderARange(h, energies, k))
  {
    TruthPrefix(h, energies, n);
  }

  lemma TruthPrefix(h: seq<Hot>, energies: seq<seq<real>>, n: nat)
    requires n <= |h| && Truth(h, energies)
    ensures Truth(h[..n], energies[..n])
  {
    forall k | 0 < k < n && Metered(h[..n][k - 1], h[..n][k]).Some?
      ensures SameBox(h[..n][k - 1].cpu.value, energies[..n][k - 1], h[..n][k].cpu.value, energies[..n][k])
    {
      assert h[..n][k - 1] == h[k - 1] && h[..n][k] == h[k];
    }
  }

  ghost predicate AllUnderARange(h: seq<Hot>, energies: seq<seq<real>>, b: int)
    requires Truth(h, energies)
  {
    forall k :: 0 < k < |h| && Meters(h, k, b) ==> UnderARange(h, energies, k)
  }

  /** What the last two samples add. */
  lemma LastPair(h: seq<Hot>, energies: seq<seq<real>>, n: nat, b: int)
    requires 0 < n && n + 1 == |h| && Truth(h, energies)
    ensures var metered, drawn := MeteredIn(h, Metered, b) - MeteredIn(h[..n], Metered, b), DrawnIn(h, energies, b) - DrawnIn(h[..n], energies[..n], b);
            metered <= drawn && (metered == drawn <==> (Meters(h, n, b) ==> UnderARange(h, energies, n)))
  {
    if Meters(h, n, b) { MeteredPair(h[n - 1], h[n], energies[n - 1], energies[n]); }
  }

  /**
   * A bucket's metered energy is the energy drawn between its measured samples exactly when no package wrapped
   * a whole range between two of them; it is never more.
   */
  lemma {:induction false} MeteredIsDrawnIff(h: seq<Hot>, energies: seq<seq<real>>, b: int)
    requires Truth(h, energies)
    ensures MeteredIn(h, Metered, b) <= DrawnIn(h, energies, b)
    ensures MeteredIn(h, Metered, b) == DrawnIn(h, energies, b) <==> AllUnderARange(h, energies, b)
  {
    if |h| >= 2 {
      var n := |h| - 1;
      TruthPrefix(h, energies, n);
      MeteredIsDrawnIff(h[..n], energies[..n], b);
      LastPair(h, energies, n, b);
      OneMorePair(h, energies, n, b);
    }
  }

  lemma OneMorePair(h: seq<Hot>, energies: seq<seq<real>>, n: nat, b: int)
    requires 0 < n && n + 1 == |h| && Truth(h, energies) && Truth(h[..n], energies[..n])
    ensures AllUnderARange(h, energies, b)
            <==> AllUnderARange(h[..n], energies[..n], b) && (Meters(h, n, b) ==> UnderARange(h, energies, n))
  {
    forall k | 0 < k < n
      ensures (Meters(h[..n], k, b) ==> UnderARange(h[..n], energies[..n], k)) <==> (Meters(h, k, b) ==> UnderARange(h, energies, k))
    {
      SamePair(h, energies, n, k, b);
    }
  }
}
