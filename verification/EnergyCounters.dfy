/**
 * Energy from cumulative counters (packages/core/energy-counters.ts): wrap-around differencing, the
 * reset guard, and when the difference is the energy that was really drawn.
 */
module EnergyCounters {
  import opened Wrappers

  const UJ_PER_WH := 3600000000.0
  const MJ_PER_WH := 3600000.0
  const WRAP_PLAUSIBILITY := 3.0
  const RESET_CAP_W_PER_PACKAGE := 1000.0

  /** One RAPL package: the counter and its wrap point, both in microjoules. */
  datatype Package = Package(uj: real, max: real)

  datatype Counters = Counters(cpu: Option<seq<Package>>, gpuMj: Option<real>, uptimeS: Option<real>, watts: Option<real>)

  /** A counter's step, with one range added when it went backwards. */
  function StepUj(p: Package, n: Package): real {
    if n.uj < p.uj then n.uj - p.uj + p.max else n.uj - p.uj
  }

  /** A step that is negative even so, or more than a range, is not the same counter. */
  predicate ValidStep(p: Package, n: Package) {
    0.0 <= StepUj(p, n) <= p.max
  }

  function SumUj(prev: seq<Package>, next: seq<Package>): real
    requires |prev| == |next|
  {
    if prev == [] then 0.0
    else SumUj(prev[..|prev| - 1], next[..|prev| - 1]) + StepUj(prev[|prev| - 1], next[|prev| - 1])
  }

  function WrapCount(prev: seq<Package>, next: seq<Package>): (n: nat)
    requires |prev| == |next|
    ensures n <= |prev|
  {
    if prev == [] then 0
    else WrapCount(prev[..|prev| - 1], next[..|prev| - 1]) + if next[|prev| - 1].uj < prev[|prev| - 1].uj then 1 else 0
  }

  function Positive(v: Option<real>): Option<real> {
    if v.Some? && v.value > 0.0 then v else None
  }

  function OrZero(v: Option<real>): real {
    if v.Some? then v.value else 0.0
  }

  function Larger(x: real, y: real): real {
    if x < y then y else x
  }

  /** Signs that a counter that ran back was reset, and did not wrap. */
  predicate CounterReset(prev: Counters, next: Counters, uj: real, wrapped: nat, dtS: Option<real>) {
    var prevUp, nextUp := Positive(prev.uptimeS), Positive(next.uptimeS);
    var n := if prev.cpu.Some? then |prev.cpu.value| else 0;
    if prevUp.Some? && nextUp.Some? && nextUp.value < prevUp.value then true
    else if dtS.Some? && nextUp.Some? && nextUp.value < dtS.value then true
    else if n >= 2 && wrapped == n then true
    else if dtS.Some? && dtS.value > 0.0 then
      var impliedW := uj / 1000000.0 / dtS.value;
      var ref := Larger(OrZero(prev.watts), OrZero(next.watts));
      if ref > 0.0 then impliedW > WRAP_PLAUSIBILITY * ref
      else impliedW > RESET_CAP_W_PER_PACKAGE * (n as real)
    else false
  }

  /** The interval's CPU energy is known: same packages at both ends, valid steps, no reset. */
  predicate CpuAccepted(prev: Counters, next: Counters, dtS: Option<real>) {
    && prev.cpu.Some? && next.cpu.Some? && |prev.cpu.value| == |next.cpu.value| > 0
    && var p, n := prev.cpu.value, next.cpu.value;
       (forall i :: 0 <= i < |p| ==> ValidStep(p[i], n[i]))
       && (WrapCount(p, n) > 0 ==> !CounterReset(prev, next, SumUj(p, n), WrapCount(p, n), dtS))
  }

  lemma OneMorePackage(prev: seq<Package>, next: seq<Package>, i: nat)
    requires |prev| == |next| && i < |prev|
    ensures SumUj(prev[..i + 1], next[..i + 1]) == SumUj(prev[..i], next[..i]) + StepUj(prev[i], next[i])
    ensures WrapCount(prev[..i + 1], next[..i + 1])
            == WrapCount(prev[..i], next[..i]) + if next[i].uj < prev[i].uj then 1 else 0
  {
    assert prev[..i + 1][..i] == prev[..i] && next[..i + 1][..i] == next[..i];
  }

  method CounterDeltaWh(prev: Counters, next: Counters, dtS: Option<real>) returns (cpuWh: Option<real>, gpuWh: Option<real>)
    ensures cpuWh.Some? <==> CpuAccepted(prev, next, dtS)
    ensures cpuWh.Some? ==> cpuWh.value == SumUj(prev.cpu.value, next.cpu.value) / UJ_PER_WH
    ensures gpuWh == if prev.gpuMj.Some? && next.gpuMj.Some? && next.gpuMj.value >= prev.gpuMj.value
                     then Some((next.gpuMj.value - prev.gpuMj.value) / MJ_PER_WH) else None
  {
    cpuWh, gpuWh := None, None;
    if prev.cpu.Some? && next.cpu.Some? && |prev.cpu.value| > 0 && |prev.cpu.value| == |next.cpu.value| {
      var p, n := prev.cpu.value, next.cpu.value;
      var uj, wrapped, ok, i := 0.0, 0, true, 0;
      while i < |p| && ok
        invariant 0 <= i <= |p|
        invariant ok ==> uj == SumUj(p[..i], n[..i]) && wrapped == WrapCount(p[..i], n[..i])
        invariant ok <==> forall j :: 0 <= j < i ==> ValidStep(p[j], n[j])
        decreases |p| - i, ok
      {
        OneMorePackage(p, n, i);
        var d := n[i].uj - p[i].uj;
        if d < 0.0 {
          d := d + p[i].max;
          wrapped := wrapped + 1;
        }
        if d < 0.0 || d > p[i].max {
          assert !ValidStep(p[i], n[i]);
          ok := false;
        }
        uj := uj + d;
        i := i + 1;
      }
      if ok {
        assert p[..|p|] == p && n[..|n|] == n;
        if wrapped > 0 && CounterReset(prev, next, uj, wrapped, dtS) {
          ok := false;
        }
        if ok {
          cpuWh := Some(uj / UJ_PER_WH);
        }
      }
    }
    if prev.gpuMj.Some? && next.gpuMj.Some? {
      var d := next.gpuMj.value - prev.gpuMj.value;
      gpuWh := if d >= 0.0 then Some(d / MJ_PER_WH) else None;
    }
  }

  /** The GPU counter is there at both ends and did not run back. */
  predicate GpuKnown(prev: Counters, next: Counters) {
    prev.gpuMj.Some? && next.gpuMj.Some? && next.gpuMj.value >= prev.gpuMj.value
  }

  function GpuWh(prev: Counters, next: Counters): real {
    if GpuKnown(prev, next) then (next.gpuMj.value - prev.gpuMj.value) / MJ_PER_WH else 0.0
  }

  /** Whole-node energy of an interval and the GPU's part of it, when the CPU counter moved and the GPU's did wherever there is one. */
  function Measured(prev: Counters, prevGpuWatts: real, next: Counters, nextGpuWatts: real, dtS: Option<real>): Option<(real, real)> {
    var hasGpu := prevGpuWatts > 0.0 || nextGpuWatts > 0.0 || prev.gpuMj.Some? || next.gpuMj.Some?;
    if CpuAccepted(prev, next, dtS) && (hasGpu ==> GpuKnown(prev, next))
    then Some((SumUj(prev.cpu.value, next.cpu.value) / UJ_PER_WH + GpuWh(prev, next), GpuWh(prev, next))) else None
  }

  method MeasuredIntervalWh(prev: Counters, prevGpuWatts: real, next: Counters, nextGpuWatts: real, dtS: Option<real>)
    returns (r: Option<(real, real)>)
    ensures r == Measured(prev, prevGpuWatts, next, nextGpuWatts, dtS)
  {
    var cpuWh, gpuWh := CounterDeltaWh(prev, next, dtS);
    if cpuWh.None? {
      return None;
    }
    var hasGpu := prevGpuWatts > 0.0 || nextGpuWatts > 0.0 || prev.gpuMj.Some? || next.gpuMj.Some?;
    if hasGpu && gpuWh.None? {
      return None;
    }
    var gpu := OrZero(gpuWh);
    return Some((cpuWh.value + gpu, gpu));
  }

  // ── When differencing is exact ───────────────────────────────────

  function Ranges(k: int, max: real): real {
    (k as real) * max
  }

  /** A counter reading of a true, ever-growing energy: the energy less some whole number of ranges. */
  ghost predicate Reads(p: Package, energy: real) {
    p.max > 0.0 && 0.0 <= p.uj < p.max && exists k :: p.uj == energy - Ranges(k, p.max)
  }

  lemma RangesApart(j: int, k: int, max: real)
    ensures Ranges(k, max) - Ranges(j, max) == Ranges(k - j, max)
  {
  }

  /** A whole number of ranges is none, at least one, or at most minus one. */
  lemma WholeRanges(k: int, max: real)
    requires max > 0.0
    ensures Ranges(k, max) == if k == 0 then 0.0 else max + Ranges(k - 1, max)
    ensures k >= 1 ==> Ranges(k, max) >= max
    ensures k <= -1 ==> Ranges(k, max) <= -max
  {
    RangesApart(1, k, max);
    if k >= 1 {
      assert ((k - 1) as real) * max >= 0.0;
    } else if k <= -1 {
      RangesApart(-1, k, max);
      assert ((-1 - k) as real) * max >= 0.0;
    }
  }

  /** A step never exceeds the true rise, and equals it exactly when the rise is under one range. */
  lemma StepIsRiseIff(p: Package, n: Package, before: real, after: real)
    requires Reads(p, before) && Reads(n, after) && n.max == p.max && before <= after
    ensures ValidStep(p, n)
    ensures StepUj(p, n) <= after - before
    ensures StepUj(p, n) == after - before <==> after - before < p.max
  {
    var j: int :| p.uj == before - Ranges(j, p.max);
    var k: int :| n.uj == after - Ranges(k, p.max);
    RangesApart(j, k, p.max);
    StepOfRise(n.uj - p.uj, after - before, k - j, p.max);
  }

  /** The arithmetic of one wrap, with the counters gone. */
  lemma StepOfRise(d: real, rise: real, m: int, max: real)
    requires max > 0.0 && -max < d < max && 0.0 <= rise && d == rise - Ranges(m, max)
    ensures var step := if d < 0.0 then d + max else d;
            0.0 <= step <= max && step <= rise && (step == rise <==> rise < max)
  {
    WholeRanges(m, max);
    WholeRanges(m - 1, max);
    WholeRanges(0, max);
  }

  ghost predicate AllRead(ps: seq<Package>, energies: seq<real>) {
    |ps| == |energies| && forall i :: 0 <= i < |ps| ==> Reads(ps[i], energies[i])
  }

  /** Same packages, energies only rising. */
  ghost predicate SameBox(prev: seq<Package>, before: seq<real>, next: seq<Package>, after: seq<real>) {
    && |prev| == |next| && AllRead(prev, before) && AllRead(next, after)
    && forall i :: 0 <= i < |prev| ==> next[i].max == prev[i].max && before[i] <= after[i]
  }

  function SumReals(xs: seq<real>): real {
    if xs == [] then 0.0 else SumReals(xs[..|xs| - 1]) + xs[|xs| - 1]
  }

  /** The summed steps equal the true rise exactly when no package wrapped a whole range. */
  lemma {:induction false} SumIsRiseIff(prev: seq<Package>, before: seq<real>, next: seq<Package>, after: seq<real>)
    requires SameBox(prev, before, next, after)
    ensures SumUj(prev, next) <= SumReals(after) - SumReals(before)
    ensures SumUj(prev, next) == SumReals(after) - SumReals(before)
            <==> forall i :: 0 <= i < |prev| ==> after[i] - before[i] < prev[i].max
  {
    if prev != [] {
      var m := |prev| - 1;
      var p, b, n, a := prev[..m], before[..m], next[..m], after[..m];
      assert SameBox(p, b, n, a);
      SumIsRiseIff(p, b, n, a);
      StepIsRiseIff(prev[m], next[m], before[m], after[m]);
      assert (forall i :: 0 <= i < |prev| ==> after[i] - before[i] < prev[i].max)
             <==> (forall i :: 0 <= i < m ==> a[i] - b[i] < p[i].max) && after[m] - before[m] < prev[m].max;
    }
  }

  /**
   * Exactly when an accepted interval reports the energy the packages drew: when none of them rose by
   * a full range or more. It never reports more.
   */
  lemma DeltaIsTrueEnergyIff(prev: Counters, before: seq<real>, next: Counters, after: seq<real>, dtS: Option<real>)
    requires CpuAccepted(prev, next, dtS) && SameBox(prev.cpu.value, before, next.cpu.value, after)
    ensures var wh := SumUj(prev.cpu.value, next.cpu.value) / UJ_PER_WH;
            var drawn := (SumReals(after) - SumReals(before)) / UJ_PER_WH;
            wh <= drawn
            && (wh == drawn <==> forall i :: 0 <= i < |before| ==> after[i] - before[i] < prev.cpu.value[i].max)
  {
    SumIsRiseIff(prev.cpu.value, before, next.cpu.value, after);
  }

  /** The interval's energy where both samples carry the same packages. */
  function DeltaWh(prev: Counters, next: Counters): real {
    if prev.cpu.Some? && next.cpu.Some? && |prev.cpu.value| == |next.cpu.value|
    then SumUj(prev.cpu.value, next.cpu.value) / UJ_PER_WH else 0.0
  }

  /** What a run of consecutive intervals adds up to. */
  function SumOver(samples: seq<Counters>): real {
    if |samples| <= 1 then 0.0
    else SumOver(samples[..|samples| - 1]) + DeltaWh(samples[|samples| - 2], samples[|samples| - 1])
  }

  /** From sample `k - 1` to sample `k` every package rose by less than its range. */
  ghost predicate ExactUpTo(samples: seq<Counters>, energies: seq<seq<real>>, k: nat)
    requires |samples| == |energies| && 0 < k < |samples|
  {
    && samples[k - 1].cpu.Some? && samples[k].cpu.Some?
    && SameBox(samples[k - 1].cpu.value, energies[k - 1], samples[k].cpu.value, energies[k])
    && forall i :: 0 <= i < |energies[k]| ==> energies[k][i] - energies[k - 1][i] < samples[k - 1].cpu.value[i].max
  }

  /** Consecutive intervals telescope: together they are the true energy between first and last sample. */
  lemma {:induction false} IntervalsTelescope(samples: seq<Counters>, energies: seq<seq<real>>)
    requires |samples| == |energies| > 0
    requires forall k :: 0 < k < |samples| ==> ExactUpTo(samples, energies, k)
    ensures SumOver(samples) == (SumReals(energies[|energies| - 1]) - SumReals(energies[0])) / UJ_PER_WH
  {
    if |samples| > 1 {
      var n := |samples| - 1;
      forall k | 0 < k < n ensures ExactUpTo(samples[..n], energies[..n], k) {
        assert ExactUpTo(samples, energies, k);
      }
      IntervalsTelescope(samples[..n], energies[..n]);
      assert ExactUpTo(samples, energies, n);
      SumIsRiseIff(samples[n - 1].cpu.value, energies[n - 1], samples[n].cpu.value, energies[n]);
    }
  }

  /** An accepted wrap with a known duration and draw implies at most three times the larger sampled draw. */
  lemma AcceptedWrapIsPlausible(prev: Counters, next: Counters, dtS: real)
    requires CpuAccepted(prev, next, Some(dtS)) && dtS > 0.0
    requires WrapCount(prev.cpu.value, next.cpu.value) > 0
    requires Larger(OrZero(prev.watts), OrZero(next.watts)) > 0.0
    ensures SumUj(prev.cpu.value, next.cpu.value) / UJ_PER_WH
            <= 3.0 * Larger(OrZero(prev.watts), OrZero(next.watts)) * (dtS / 3600.0)
  {
    var uj, ref := SumUj(prev.cpu.value, next.cpu.value), Larger(OrZero(prev.watts), OrZero(next.watts));
    assert uj / 1000000.0 / dtS <= 3.0 * ref;
    assert uj / 1000000.0 == (uj / 1000000.0 / dtS) * dtS;
    TimesPositive(uj / 1000000.0 / dtS, 3.0 * ref, dtS);
  }

  lemma TimesPositive(x: real, y: real, d: real)
    requires x <= y && d > 0.0
    ensures x * d <= y * d
  {
  }

  /** A reboot seen by the uptime, or every package of several stepping back at once, is never taken for a wrap. */
  lemma ResetsAreRefused(prev: Counters, next: Counters, dtS: Option<real>)
    requires prev.cpu.Some? && next.cpu.Some? && |prev.cpu.value| == |next.cpu.value|
    requires WrapCount(prev.cpu.value, next.cpu.value) > 0
    requires (Positive(prev.uptimeS).Some? && Positive(next.uptimeS).Some? && next.uptimeS.value < prev.uptimeS.value)
             || (|prev.cpu.value| >= 2 && WrapCount(prev.cpu.value, next.cpu.value) == |prev.cpu.value|)
    ensures !CpuAccepted(prev, next, dtS)
  {
  }
}
