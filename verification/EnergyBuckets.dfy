/**
 * Integrating a node's draw into 15-minute buckets, idle subtracted, and splitting what is left over
 * the groups that used it (packages/core/energy-attribution.ts). Wh over the reals.
 */
module EnergyBuckets {
  import opened Wrappers
  import opened Seqs

  const BUCKET_MS := 900000
  const MEASURED_COVERAGE := 0.95

  /** Floor to the start of the quarter hour. */
  function BucketOf(ms: int): (b: int)
    ensures b <= ms < b + BUCKET_MS && b % BUCKET_MS == 0
  {
    ms / BUCKET_MS * BUCKET_MS
  }

  predicate Aligned(ms: int) {
    ms % BUCKET_MS == 0
  }

  /** A stretch a node was measured at one draw; `measured` is counter energy, whole node and GPU, where both ends had one. */
  datatype Interval = Interval(ts: int, hours: real, watts: real, gpuWatts: real, measured: Option<(real, real)>)

  datatype Grade = B | C

  datatype NodeBucket = NodeBucket(
    bucket: int, sampledHours: real, totalWh: real, gpuWh: real, idleWatts: Option<real>, idleWh: real, activeWh: real,
    measuredWh: real, measuredGpuWh: real, measuredHours: real, grade: Grade)

  function Min(x: real, y: real): real {
    if x < y then x else y
  }

  function Max(x: real, y: real): real {
    if x < y then y else x
  }

  function GradeFor(measuredHours: real, sampledHours: real): Grade {
    if sampledHours > 0.0 && measuredHours / sampledHours >= MEASURED_COVERAGE then B else C
  }

  // ── One interval into one bucket ─────────────────────────────────

  function EmptyBucket(bucket: int, idle: Option<real>): NodeBucket {
    NodeBucket(bucket, 0.0, 0.0, 0.0, idle, 0.0, 0.0, 0.0, 0.0, 0.0, C)
  }

  function IdleShare(x: Interval, idle: Option<real>): real {
    if idle.None? then x.watts * x.hours else Min(x.watts, idle.value) * x.hours
  }

  function ActiveShare(x: Interval, idle: Option<real>): real {
    if idle.None? then 0.0 else Max(0.0, x.watts - idle.value) * x.hours
  }

  function AddInterval(nb: NodeBucket, x: Interval, idle: Option<real>): NodeBucket {
    var m := if x.measured.Some? then x.measured.value else (0.0, 0.0);
    nb.(sampledHours := nb.sampledHours + x.hours, totalWh := nb.totalWh + x.watts * x.hours,
        gpuWh := nb.gpuWh + x.gpuWatts * x.hours,
        measuredWh := nb.measuredWh + m.0, measuredGpuWh := nb.measuredGpuWh + m.1,
        measuredHours := nb.measuredHours + if x.measured.Some? then x.hours else 0.0,
        idleWh := nb.idleWh + IdleShare(x, idle), activeWh := nb.activeWh + ActiveShare(x, idle))
  }

  /** No watt is lost or counted twice: an interval's idle and active shares are its whole draw. */
  lemma SharesAreTheDraw(x: Interval, idle: Option<real>)
    ensures IdleShare(x, idle) + ActiveShare(x, idle) == x.watts * x.hours
  {
    if idle.Some? && idle.value <= x.watts {
      assert Min(x.watts, idle.value) == idle.value && Max(0.0, x.watts - idle.value) == x.watts - idle.value;
      assert idle.value * x.hours + (x.watts - idle.value) * x.hours == x.watts * x.hours;
    } else if idle.Some? {
      assert Max(0.0, x.watts - idle.value) == 0.0;
    }
  }

  // ── The insertion-ordered map of buckets ─────────────────────────

  function IndexFrom(out: seq<NodeBucket>, b: int, k: nat): (i: nat)
    requires k <= |out|
    ensures k <= i <= |out| && (i < |out| ==> out[i].bucket == b)
    ensures forall j :: k <= j < i ==> out[j].bucket != b
    decreases |out| - k
  {
    if k == |out| || out[k].bucket == b then k else IndexFrom(out, b, k + 1)
  }

  function IndexOf(out: seq<NodeBucket>, b: int): (i: nat)
    ensures i <= |out| && (i < |out| ==> out[i].bucket == b)
    ensures forall j :: 0 <= j < i ==> out[j].bucket != b
  {
    IndexFrom(out, b, 0)
  }

  function At(out: seq<NodeBucket>, b: int): Option<NodeBucket> {
    var i := IndexOf(out, b);
    if i < |out| then Some(out[i]) else None
  }

  function Deposit(out: seq<NodeBucket>, x: Interval, idle: Option<real>): seq<NodeBucket> {
    var i := IndexOf(out, BucketOf(x.ts));
    if i < |out| then out[i := AddInterval(out[i], x, idle)]
    else out + [AddInterval(EmptyBucket(BucketOf(x.ts), idle), x, idle)]
  }

  type IdleFor = int -> Option<real>

  function Integrate(intervals: seq<Interval>, start: int, end: int, idleFor: IdleFor): seq<NodeBucket> {
    if intervals == [] then []
    else
      var out, x := Integrate(intervals[..|intervals| - 1], start, end, idleFor), intervals[|intervals| - 1];
      if start <= x.ts < end then Deposit(out, x, idleFor(x.ts)) else out
  }

  function Graded(out: seq<NodeBucket>): (r: seq<NodeBucket>)
    ensures |r| == |out|
    ensures forall i :: 0 <= i < |out| ==> r[i] == out[i].(grade := GradeFor(out[i].measuredHours, out[i].sampledHours))
  {
    seq(|out|, i requires 0 <= i < |out| => out[i].(grade := GradeFor(out[i].measuredHours, out[i].sampledHours)))
  }

  method IntegrateBuckets(intervals: seq<Interval>, start: int, end: int, idleFor: IdleFor) returns (out: seq<NodeBucket>)
    ensures out == Graded(Integrate(intervals, start, end, idleFor))
  {
    out := [];
    for k := 0 to |intervals|
      invariant out == Integrate(intervals[..k], start, end, idleFor)
    {
      var x := intervals[k];
      TakeOneMore(intervals, k);
      assert (intervals[..k] + [x])[..k] == intervals[..k];
      if start <= x.ts < end {
        var b, idle := BucketOf(x.ts), idleFor(x.ts);
        var i := IndexOf(out, b);
        if i < |out| {
          out := out[i := AddInterval(out[i], x, idle)];
        } else {
          out := out + [AddInterval(EmptyBucket(b, idle), x, idle)];
        }
      }
    }
    TakeAll(intervals);
    out := Graded(out);
  }

  // ── Conservation ─────────────────────────────────────────────────

  ghost predicate Balanced(out: seq<NodeBucket>) {
    forall i :: 0 <= i < |out| ==> out[i].totalWh == out[i].idleWh + out[i].activeWh
  }

  function TotalWh(out: seq<NodeBucket>): real {
    if out == [] then 0.0 else TotalWh(out[..|out| - 1]) + out[|out| - 1].totalWh
  }

  /** A draw held for its hours. */
  function Draw(x: Interval): real {
    x.watts * x.hours
  }

  /** The direct integral of the draw over the intervals starting in a range. */
  function Integral(intervals: seq<Interval>, start: int, end: int): real {
    if intervals == [] then 0.0
    else
      var x := intervals[|intervals| - 1];
      Integral(intervals[..|intervals| - 1], start, end) + if start <= x.ts < end then Draw(x) else 0.0
  }

  lemma {:induction false} TotalOfUpdate(out: seq<NodeBucket>, i: nat, nb: NodeBucket)
    requires i < |out|
    ensures TotalWh(out[i := nb]) == TotalWh(out) - out[i].totalWh + nb.totalWh
  {
    var n := |out| - 1;
    if i < n {
      TotalOfUpdate(out[..n], i, nb);
      assert out[i := nb][..n] == out[..n][i := nb];
    } else {
      assert out[i := nb][..n] == out[..n];
    }
  }

  lemma AddKeepsBooks(nb: NodeBucket, x: Interval, idle: Option<real>)
    requires nb.totalWh == nb.idleWh + nb.activeWh
    ensures var nb' := AddInterval(nb, x, idle);
            nb'.totalWh == nb.totalWh + Draw(x) && nb'.totalWh == nb'.idleWh + nb'.activeWh
  {
    SharesAreTheDraw(x, idle);
  }

  lemma DepositKeepsBooks(out: seq<NodeBucket>, x: Interval, idle: Option<real>)
    requires Balanced(out)
    ensures Balanced(Deposit(out, x, idle))
    ensures TotalWh(Deposit(out, x, idle)) == TotalWh(out) + Draw(x)
  {
    var i := IndexOf(out, BucketOf(x.ts));
    if i < |out| {
      var nb := AddInterval(out[i], x, idle);
      AddKeepsBooks(out[i], x, idle);
      TotalOfUpdate(out, i, nb);
      assert Balanced(out[i := nb]);
    } else {
      var nb := AddInterval(EmptyBucket(BucketOf(x.ts), idle), x, idle);
      AddKeepsBooks(EmptyBucket(BucketOf(x.ts), idle), x, idle);
      assert (out + [nb])[..|out|] == out;
      assert Balanced(out + [nb]);
    }
  }

  lemma IntegrateOneMore(intervals: seq<Interval>, start: int, end: int, idleFor: IdleFor)
    requires intervals != []
    ensures var init, x := intervals[..|intervals| - 1], intervals[|intervals| - 1];
            var out, out' := Integrate(init, start, end, idleFor), Integrate(intervals, start, end, idleFor);
            var sum, sum' := Integral(init, start, end), Integral(intervals, start, end);
            if start <= x.ts < end then out' == Deposit(out, x, idleFor(x.ts)) && sum' == sum + Draw(x) else out' == out && sum' == sum
  {
  }

  /** Every bucket is idle plus active, and together the buckets are the direct integral. */
  lemma {:induction false} EnergyIsConserved(intervals: seq<Interval>, start: int, end: int, idleFor: IdleFor)
    ensures Balanced(Integrate(intervals, start, end, idleFor))
    ensures TotalWh(Integrate(intervals, start, end, idleFor)) == Integral(intervals, start, end)
  {
    if intervals != [] {
      var init, x := intervals[..|intervals| - 1], intervals[|intervals| - 1];
      var out := Integrate(init, start, end, idleFor);
      EnergyIsConserved(init, start, end, idleFor);
      IntegrateOneMore(intervals, start, end, idleFor);
      if start <= x.ts < end { DepositKeepsBooks(out, x, idleFor(x.ts)); }
    }
  }

  // ── A bucket is its own intervals and nothing else ───────────────

  lemma DepositAt(out: seq<NodeBucket>, x: Interval, idle: Option<real>, b: int)
    ensures At(Deposit(out, x, idle), b)
            == if BucketOf(x.ts) != b then At(out, b)
               else Some(AddInterval(if At(out, b).Some? then At(out, b).value else EmptyBucket(b, idle), x, idle))
  {
    var i, out' := IndexOf(out, BucketOf(x.ts)), Deposit(out, x, idle);
    var j, j' := IndexOf(out, b), IndexOf(out', b);
    assert forall k :: 0 <= k < |out| ==> out'[k].bucket == out[k].bucket;
    if BucketOf(x.ts) == b || j < |out| {
      assert out'[j].bucket == b;
      assert j' == j;
    } else {
      assert j' == |out'|;
    }
  }

  /** The bucket a range of intervals builds, folded from the intervals of that bucket alone. */
  function BucketAt(intervals: seq<Interval>, b: int, idleFor: IdleFor): Option<NodeBucket> {
    if intervals == [] then None
    else
      var prev, x := BucketAt(intervals[..|intervals| - 1], b, idleFor), intervals[|intervals| - 1];
      if BucketOf(x.ts) != b then prev
      else Some(AddInterval(if prev.Some? then prev.value else EmptyBucket(b, idleFor(x.ts)), x, idleFor(x.ts)))
  }

  /** Whatever range was integrated, a bucket inside it holds exactly its own intervals, and one outside holds none. */
  lemma {:induction false} BucketsAreLocal(intervals: seq<Interval>, start: int, end: int, idleFor: IdleFor, b: int)
    requires Aligned(start) && Aligned(end) && Aligned(b)
    ensures At(Integrate(intervals, start, end, idleFor), b)
            == if start <= b < end then BucketAt(intervals, b, idleFor) else None
  {
    if intervals != [] {
      var init, x := intervals[..|intervals| - 1], intervals[|intervals| - 1];
      BucketsAreLocal(init, start, end, idleFor, b);
      AlignedBounds(x.ts, start, end);
      if start <= x.ts < end {
        DepositAt(Integrate(init, start, end, idleFor), x, idleFor(x.ts), b);
      }
    }
  }

  /** An aligned boundary never cuts a bucket. */
  lemma AlignedBounds(ts: int, start: int, end: int)
    requires Aligned(start) && Aligned(end)
    ensures start <= ts < end <==> start <= BucketOf(ts) < end
  {
  }

  /** Splitting a range at a bucket boundary changes nothing. */
  lemma SplittingARangeChangesNothing(intervals: seq<Interval>, start: int, mid: int, end: int, idleFor: IdleFor, b: int)
    requires Aligned(start) && Aligned(mid) && Aligned(end) && Aligned(b) && start <= mid <= end
    ensures At(Integrate(intervals, start, end, idleFor), b)
            == if b < mid then At(Integrate(intervals, start, mid, idleFor), b)
               else At(Integrate(intervals, mid, end, idleFor), b)
  {
    BucketsAreLocal(intervals, start, end, idleFor, b);
    BucketsAreLocal(intervals, start, mid, idleFor, b);
    BucketsAreLocal(intervals, mid, end, idleFor, b);
  }

  lemma GradedAt(out: seq<NodeBucket>, b: int)
    ensures At(Graded(out), b)
            == if At(out, b).None? then None
               else Some(At(out, b).value.(grade := GradeFor(At(out, b).value.measuredHours, At(out, b).value.sampledHours)))
  {
    var i, j := IndexOf(out, b), IndexOf(Graded(out), b);
    assert i == j by {
      if i < |out| { assert Graded(out)[i].bucket == b; }
      if j < |out| { assert out[j].bucket == b; }
    }
  }

  // ── Splitting the active energy ──────────────────────────────────

  function SumOf(xs: seq<real>): real {
    if xs == [] then 0.0 else SumOf(xs[..|xs| - 1]) + xs[|xs| - 1]
  }

  function Floored(xs: seq<real>): (r: seq<real>)
    ensures |r| == |xs| && forall i :: 0 <= i < |xs| ==> r[i] == Max(0.0, xs[i])
  {
    seq(|xs|, i requires 0 <= i < |xs| => Max(0.0, xs[i]))
  }

  function Share(amount: real, part: real, whole: real): real
    requires whole != 0.0
  {
    amount * (part / whole)
  }

  /** Each part's share of `amount`, in proportion. */
  function Proportion(amount: real, parts: seq<real>, whole: real): (r: seq<real>)
    requires whole != 0.0
    ensures |r| == |parts| && forall i :: 0 <= i < |parts| ==> r[i] == Share(amount, parts[i], whole)
  {
    seq(|parts|, i requires 0 <= i < |parts| => Share(amount, parts[i], whole))
  }

  /** By weight; by message count when no group carries a weight; evenly when neither says anything. */
  function SplitActive(activeWh: real, weights: seq<real>, messages: seq<real>): (shares: seq<real>)
    requires |messages| == |weights|
    ensures |shares| == |weights|
  {
    if weights == [] then []
    else
      var w, n := Floored(weights), Floored(messages);
      if SumOf(w) > 0.0 then Proportion(activeWh, w, SumOf(w))
      else if SumOf(n) > 0.0 then Proportion(activeWh, n, SumOf(n))
      else seq(|weights|, _ => activeWh / (|weights| as real))
  }

  lemma {:induction false} ProportionSums(amount: real, parts: seq<real>, whole: real)
    requires whole != 0.0
    ensures SumOf(Proportion(amount, parts, whole)) == Share(amount, SumOf(parts), whole)
  {
    var r := Proportion(amount, parts, whole);
    if parts != [] {
      var n := |parts| - 1;
      ProportionSums(amount, parts[..n], whole);
      assert r[..n] == Proportion(amount, parts[..n], whole);
      Distribute(amount, SumOf(parts[..n]), parts[n], whole);
    }
  }

  lemma Distribute(amount: real, a: real, b: real, whole: real)
    requires whole != 0.0
    ensures Share(amount, a, whole) + Share(amount, b, whole) == Share(amount, a + b, whole)
  {
    var p, q, r := a / whole, b / whole, (a + b) / whole;
    assert p * whole == a && q * whole == b && r * whole == a + b;
    assert (p + q) * whole == p * whole + q * whole;
    QuotientIs(r, p + q, whole);
  }

  lemma QuotientIs(q: real, r: real, whole: real)
    requires whole != 0.0 && q * whole == r * whole
    ensures q == r
  {
  }

  lemma {:induction false} EvenSharesSum(share: real, xs: seq<real>)
    requires forall i :: 0 <= i < |xs| ==> xs[i] == share
    ensures SumOf(xs) == share * (|xs| as real)
  {
    if xs != [] {
      EvenSharesSum(share, xs[..|xs| - 1]);
    }
  }

  lemma ProportionIsASplit(amount: real, parts: seq<real>)
    requires amount >= 0.0 && SumOf(parts) > 0.0 && forall i :: 0 <= i < |parts| ==> parts[i] >= 0.0
    ensures var shares := Proportion(amount, parts, SumOf(parts));
            SumOf(shares) == amount && forall i :: 0 <= i < |shares| ==> shares[i] >= 0.0
  {
    var whole := SumOf(parts);
    ProportionSums(amount, parts, whole);
    WholeShare(amount, whole);
    forall i | 0 <= i < |parts| ensures Share(amount, parts[i], whole) >= 0.0 {
      ShareNonNegative(amount, parts[i], whole);
    }
  }

  /** Shares are never negative and, whenever any group exists, sum to exactly what was split. */
  lemma SharesSumToActive(activeWh: real, weights: seq<real>, messages: seq<real>)
    requires |messages| == |weights| && activeWh >= 0.0
    ensures var shares := SplitActive(activeWh, weights, messages);
            && (forall i :: 0 <= i < |shares| ==> shares[i] >= 0.0)
            && SumOf(shares) == if weights == [] then 0.0 else activeWh
  {
    var w, n, shares := Floored(weights), Floored(messages), SplitActive(activeWh, weights, messages);
    if weights != [] {
      if SumOf(w) > 0.0 {
        ProportionIsASplit(activeWh, w);
      } else if SumOf(n) > 0.0 {
        ProportionIsASplit(activeWh, n);
      } else {
        EvenSharesSum(activeWh / (|weights| as real), shares);
      }
    }
  }

  lemma ShareNonNegative(amount: real, part: real, whole: real)
    requires amount >= 0.0 && part >= 0.0 && whole > 0.0
    ensures Share(amount, part, whole) >= 0.0
  {
    QuotientTimes(part, whole);
    SignOfFactor(part / whole, whole);
    TimesNonNegative(amount, part / whole);
  }

  lemma QuotientTimes(part: real, whole: real)
    requires whole != 0.0
    ensures part / whole * whole == part
  {
  }

  lemma TimesNonNegative(x: real, y: real)
    requires x >= 0.0 && y >= 0.0
    ensures x * y >= 0.0
  {
  }

  lemma SignOfFactor(q: real, whole: real)
    requires whole > 0.0 && q * whole >= 0.0
    ensures q >= 0.0
  {
  }

  lemma WholeShare(amount: real, whole: real)
    requires whole != 0.0
    ensures Share(amount, whole, whole) == amount
  {
    QuotientTimes(whole, whole);
    QuotientIs(whole / whole, 1.0, whole);
    TimesOne(amount, whole / whole);
  }

  lemma TimesOne(x: real, y: real)
    requires y == 1.0
    ensures x * y == x
  {
  }
}
