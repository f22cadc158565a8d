/**
 * When the counters' difference is taken for energy, in numbers (packages/core/energy-counters.ts).
 */
module CounterMeaning {
  import opened Wrappers
  import opened EnergyCounters

  /** What each package added: its rise, or, run back, its rise and one range. */
  ghost predicate AreSteps(prev: seq<Package>, next: seq<Package>, steps: seq<real>) {
    && |prev| == |next| == |steps|
    && forall i :: 0 <= i < |prev| ==>
         steps[i] == next[i].uj - prev[i].uj + (if next[i].uj < prev[i].uj then prev[i].max else 0.0)
  }

  ghost predicate SomeRanBack(prev: seq<Package>, next: seq<Package>)
    requires |prev| == |next|
  {
    exists i :: 0 <= i < |prev| && next[i].uj < prev[i].uj
  }

  ghost predicate AllRanBack(prev: seq<Package>, next: seq<Package>)
    requires |prev| == |next|
  {
    forall i :: 0 <= i < |prev| ==> next[i].uj < prev[i].uj
  }

  function Watts(w: Option<real>): real {
    match w case None => 0.0 case Some(x) => x
  }

  /** The most the node was seen to draw at either end. */
  function Peak(prev: Counters, next: Counters): real {
    if Watts(prev.watts) >= Watts(next.watts) then Watts(prev.watts) else Watts(next.watts)
  }

  /**
   * A counter that ran back was reset: the box is up for less time than before, or than the interval lasted; or
   * every one of several packages ran back; or the energy is more than three times the peak draw would explain,
   * or, with no draw seen, than a kilowatt for each package would.
   */
  ghost predicate WasReset(prev: Counters, next: Counters, packages: nat, all: bool, uj: real, dtS: Option<real>) {
    || (prev.uptimeS.Some? && next.uptimeS.Some? && 0.0 < next.uptimeS.value < prev.uptimeS.value)
    || (dtS.Some? && next.uptimeS.Some? && 0.0 < next.uptimeS.value < dtS.value)
    || (packages >= 2 && all)
    || (dtS.Some? && dtS.value > 0.0 && Peak(prev, next) > 0.0 && uj > 3.0 * Peak(prev, next) * dtS.value * 1000000.0)
    || (dtS.Some? && dtS.value > 0.0 && Peak(prev, next) <= 0.0 && uj > 1000.0 * (packages as real) * dtS.value * 1000000.0)
  }

  lemma SomeOneMore(prev: seq<Package>, next: seq<Package>)
    requires |prev| == |next| > 0
    ensures var n := |prev| - 1;
            SomeRanBack(prev, next) <==> SomeRanBack(prev[..n], next[..n]) || next[n].uj < prev[n].uj
  {
    var n := |prev| - 1;
    if SomeRanBack(prev[..n], next[..n]) {
      var i :| 0 <= i < n && next[..n][i].uj < prev[..n][i].uj;
      assert next[i].uj < prev[i].uj;
    }
  }

  lemma AllOneMore(prev: seq<Package>, next: seq<Package>)
    requires |prev| == |next| > 0
    ensures var n := |prev| - 1;
            AllRanBack(prev, next) <==> AllRanBack(prev[..n], next[..n]) && next[n].uj < prev[n].uj
  {
    var n := |prev| - 1;
    if AllRanBack(prev, next) {
      forall i | 0 <= i < n ensures next[..n][i].uj < prev[..n][i].uj { assert next[i].uj < prev[i].uj; }
    }
    if AllRanBack(prev[..n], next[..n]) && next[n].uj < prev[n].uj {
      forall i | 0 <= i < |prev| ensures next[i].uj < prev[i].uj {
        if i < n { assert next[..n][i].uj < prev[..n][i].uj; }
      }
    }
  }

  lemma {:induction false} WrapsAre(prev: seq<Package>, next: seq<Package>)
    requires |prev| == |next|
    ensures WrapCount(prev, next) > 0 <==> SomeRanBack(prev, next)
    ensures WrapCount(prev, next) == |prev| <==> AllRanBack(prev, next)
  {
    if prev != [] {
      WrapsAre(prev[..|prev| - 1], next[..|prev| - 1]);
      SomeOneMore(prev, next);
      AllOneMore(prev, next);
    }
  }

  lemma {:induction false} SumsAre(prev: seq<Package>, next: seq<Package>, steps: seq<real>)
    requires AreSteps(prev, next, steps)
    ensures SumUj(prev, next) == SumReals(steps)
  {
    if prev != [] {
      var n := |prev| - 1;
      SumsAre(prev[..n], next[..n], steps[..n]);
      assert steps[n] == StepUj(prev[n], next[n]);
    }
  }

  /** So many watts over so many seconds, in microjoules. */
  lemma ImpliedDraw(uj: real, dtS: real, watts: real)
    requires dtS > 0.0
    ensures uj / 1000000.0 / dtS > watts <==> uj > watts * dtS * 1000000.0
  {
    var j := uj / 1000000.0;
    var w := j / dtS;
    assert w * dtS == j;
    MoreTimes(w, watts, dtS);
  }

  lemma MoreTimes(x: real, y: real, k: real)
    requires k > 0.0
    ensures x > y <==> x * k > y * k
  {
  }

  lemma ResetIff(prev: Counters, next: Counters, uj: real, wrapped: nat, dtS: Option<real>)
    requires prev.cpu.Some?
    ensures var n := |prev.cpu.value|;
            CounterReset(prev, next, uj, wrapped, dtS) <==> WasReset(prev, next, n, wrapped == n, uj, dtS)
  {
    if dtS.Some? && dtS.value > 0.0 {
      ImpliedDraw(uj, dtS.value, 3.0 * Peak(prev, next));
      ImpliedDraw(uj, dtS.value, 1000.0 * (|prev.cpu.value| as real));
    }
  }

  /**
   * An interval's CPU energy is known exactly when the same packages were read at both ends, each step is between
   * nothing and one range, and nothing says that a counter that ran back was reset.
   */
  lemma AcceptedIff(prev: Counters, next: Counters, dtS: Option<real>, steps: seq<real>)
    requires prev.cpu.Some? && next.cpu.Some? && AreSteps(prev.cpu.value, next.cpu.value, steps)
    ensures var p, n := prev.cpu.value, next.cpu.value;
            CpuAccepted(prev, next, dtS)
            <==> && p != [] && (forall i :: 0 <= i < |p| ==> 0.0 <= steps[i] <= p[i].max)
                 && (SomeRanBack(p, n) ==> !WasReset(prev, next, |p|, AllRanBack(p, n), SumReals(steps), dtS))
  {
    var p, n := prev.cpu.value, next.cpu.value;
    SumsAre(p, n, steps);
    WrapsAre(p, n);
    ResetIff(prev, next, SumUj(p, n), WrapCount(p, n), dtS);
    forall i | 0 <= i < |p| ensures ValidStep(p[i], n[i]) <==> 0.0 <= steps[i] <= p[i].max {
    }
  }

  /** And it is the steps' sum: 3.6 billion microjoules to the watt hour. */
  lemma DeltaIs(prev: Counters, next: Counters, steps: seq<real>)
    requires prev.cpu.Some? && next.cpu.Some? && AreSteps(prev.cpu.value, next.cpu.value, steps)
    ensures DeltaWh(prev, next) * 3600000000.0 == SumReals(steps)
  {
    SumsAre(prev.cpu.value, next.cpu.value, steps);
  }

  /** The GPU counter, where both ends have one and it did not run back: 3.6 million millijoules to the watt hour. */
  lemma GpuIs(prev: Counters, next: Counters)
    ensures prev.gpuMj.Some? && next.gpuMj.Some? && next.gpuMj.value >= prev.gpuMj.value
            ==> GpuWh(prev, next) * 3600000.0 == next.gpuMj.value - prev.gpuMj.value
  {
  }

  /** A node with a GPU counter or GPU draw at either end is measured only if its GPU counter moved too. */
  lemma MeasuredIff(prev: Counters, prevGpuWatts: real, next: Counters, nextGpuWatts: real, dtS: Option<real>)
    ensures var hasGpu := prev.gpuMj.Some? || next.gpuMj.Some? || prevGpuWatts > 0.0 || nextGpuWatts > 0.0;
            var moved := prev.gpuMj.Some? && next.gpuMj.Some? && next.gpuMj.value >= prev.gpuMj.value;
            var m := Measured(prev, prevGpuWatts, next, nextGpuWatts, dtS);
            && (m.Some? <==> CpuAccepted(prev, next, dtS) && (hasGpu ==> moved))
            && (m.Some? ==> m.value.1 * 3600000.0 == (if moved then next.gpuMj.value - prev.gpuMj.value else 0.0)
                            && m.value.0 == DeltaWh(prev, next) + m.value.1)
  {
    GpuIs(prev, next);
  }

  /** A plausible wrap is accepted: one package of a box at 20 W passes its range within 15 seconds. */
  lemma PlausibleWrapIsAccepted(before: real, after: real, prev: Counters, next: Counters)
    requires 262143000000.0 <= before < 262143328850.0 && 0.0 <= after <= 500000000.0
    requires prev == Counters(Some([Package(before, 262143328850.0)]), None, Some(100.0), Some(20.0))
    requires next == Counters(Some([Package(after, 262143328850.0)]), None, Some(115.0), Some(20.0))
    ensures CpuAccepted(prev, next, Some(15.0))
    ensures DeltaWh(prev, next) * 3600000000.0 == after - before + 262143328850.0
  {
    var step := after - before + 262143328850.0;
    var steps := [step];
    assert steps[..0] == [];
    assert SumReals(steps) == step;
    AcceptedIff(prev, next, Some(15.0), steps);
    DeltaIs(prev, next, steps);
  }
}
