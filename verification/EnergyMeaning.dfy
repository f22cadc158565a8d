/**
 * What the energy tables say of one quarter hour, written over the samples and the messages themselves
 * (packages/core/energy-attribution.ts, `integrateBuckets`, `splitActive`, `buildEnergyChunk`).
 */
module EnergyMeaning {
  import opened Wrappers
  import opened EnergyBuckets
  import opened EnergyChunk

  /** What `f` comes to over the elements that belong. */
  function SumWhere<T>(xs: seq<T>, belongs: T -> bool, f: T -> real): real {
    if xs == [] then 0.0
    else
      var rest, x := SumWhere(xs[..|xs| - 1], belongs, f), xs[|xs| - 1];
      if belongs(x) then rest + f(x) else rest
  }

  // ── A node's bucket ──────────────────────────────────────────────

  function BeganIn(b: int): Interval -> bool {
    (x: Interval) => b <= x.ts < b + 900000
  }

  /** What stands of an interval's draw: all of it when no idle draw is known or it never rose above idle, else the idle part. */
  function IdleOf(idleFor: IdleFor): Interval -> real {
    (x: Interval) =>
      if idleFor(x.ts).None? || x.watts <= idleFor(x.ts).value then x.watts * x.hours else idleFor(x.ts).value * x.hours
  }

  /** What can be attributed of it: the draw above idle. */
  function ActiveOf(idleFor: IdleFor): Interval -> real {
    (x: Interval) =>
      if idleFor(x.ts).Some? && x.watts > idleFor(x.ts).value then (x.watts - idleFor(x.ts).value) * x.hours else 0.0
  }

  /** The idle draw a bucket reports is that of its first interval. */
  ghost predicate FirstIdle(idle: Option<real>, xs: seq<Interval>, b: int, idleFor: IdleFor) {
    exists i :: 0 <= i < |xs| && BeganIn(b)(xs[i]) && (forall j :: 0 <= j < i ==> !BeganIn(b)(xs[j])) && idle == idleFor(xs[i].ts)
  }

  ghost predicate Began(xs: seq<Interval>, b: int) {
    exists i :: 0 <= i < |xs| && BeganIn(b)(xs[i])
  }

  /** Every amount of a bucket is a sum over the intervals that began in it. */
  ghost predicate BucketMeans(nb: NodeBucket, xs: seq<Interval>, b: int, idleFor: IdleFor) {
    && nb.bucket == b && FirstIdle(nb.idleWatts, xs, b, idleFor)
    && nb.sampledHours == SumWhere(xs, BeganIn(b), (x: Interval) => x.hours)
    && nb.totalWh == SumWhere(xs, BeganIn(b), (x: Interval) => x.watts * x.hours)
    && nb.gpuWh == SumWhere(xs, BeganIn(b), (x: Interval) => x.gpuWatts * x.hours)
    && nb.idleWh == SumWhere(xs, BeganIn(b), IdleOf(idleFor))
    && nb.activeWh == SumWhere(xs, BeganIn(b), ActiveOf(idleFor))
    && nb.measuredWh == SumWhere(xs, BeganIn(b), (x: Interval) => if x.measured.Some? then x.measured.value.0 else 0.0)
    && nb.measuredGpuWh == SumWhere(xs, BeganIn(b), (x: Interval) => if x.measured.Some? then x.measured.value.1 else 0.0)
    && nb.measuredHours == SumWhere(xs, BeganIn(b), (x: Interval) => if x.measured.Some? then x.hours else 0.0)
  }

  /** Measured for at least 95% of the time it was sampled, or not. */
  ghost predicate GradeMeans(nb: NodeBucket) {
    nb.grade == if nb.sampledHours > 0.0 && nb.measuredHours >= 0.95 * nb.sampledHours then B else C
  }

  lemma SharesMean(x: Interval, idleFor: IdleFor)
    ensures IdleShare(x, idleFor(x.ts)) == IdleOf(idleFor)(x)
    ensures ActiveShare(x, idleFor(x.ts)) == ActiveOf(idleFor)(x)
  {
    var idle := idleFor(x.ts);
    if idle.Some? {
      assert Min(x.watts, idle.value) == if x.watts <= idle.value then x.watts else idle.value;
      assert Max(0.0, x.watts - idle.value) == if x.watts > idle.value then x.watts - idle.value else 0.0;
      assert 0.0 * x.hours == 0.0;
    }
  }

  lemma SumOneMore<T>(xs: seq<T>, belongs: T -> bool, f: T -> real)
    requires xs != []
    ensures var x := xs[|xs| - 1];
            SumWhere(xs, belongs, f) == SumWhere(xs[..|xs| - 1], belongs, f) + if belongs(x) then f(x) else 0.0
  {
  }

  lemma {:induction false} SumOfNone<T>(xs: seq<T>, belongs: T -> bool, f: T -> real)
    requires forall i :: 0 <= i < |xs| ==> !belongs(xs[i])
    ensures SumWhere(xs, belongs, f) == 0.0
  {
    if xs != [] { SumOfNone(xs[..|xs| - 1], belongs, f); }
  }

  lemma NoneYet(xs: seq<Interval>, b: int, idleFor: IdleFor, f: Interval -> real)
    requires !Began(xs, b)
    ensures SumWhere(xs, BeganIn(b), f) == 0.0
  {
    SumOfNone(xs, BeganIn(b), f);
  }

  /** The sums by themselves. */
  function SumsOf(xs: seq<Interval>, b: int, idleFor: IdleFor, idle: Option<real>): NodeBucket {
    NodeBucket(
      b,
      SumWhere(xs, BeganIn(b), (x: Interval) => x.hours),
      SumWhere(xs, BeganIn(b), (x: Interval) => x.watts * x.hours),
      SumWhere(xs, BeganIn(b), (x: Interval) => x.gpuWatts * x.hours),
      idle,
      SumWhere(xs, BeganIn(b), IdleOf(idleFor)),
      SumWhere(xs, BeganIn(b), ActiveOf(idleFor)),
      SumWhere(xs, BeganIn(b), (x: Interval) => if x.measured.Some? then x.measured.value.0 else 0.0),
      SumWhere(xs, BeganIn(b), (x: Interval) => if x.measured.Some? then x.measured.value.1 else 0.0),
      SumWhere(xs, BeganIn(b), (x: Interval) => if x.measured.Some? then x.hours else 0.0),
      C)
  }

  lemma SumsOneMore(xs: seq<Interval>, b: int, idleFor: IdleFor, idle: Option<real>)
    requires xs != []
    ensures var init, x := xs[..|xs| - 1], xs[|xs| - 1];
            SumsOf(xs, b, idleFor, idle)
            == if BeganIn(b)(x) then AddInterval(SumsOf(init, b, idleFor, idle), x, idleFor(x.ts)) else SumsOf(init, b, idleFor, idle)
  {
    SharesMean(xs[|xs| - 1], idleFor);
  }

  lemma SumsMean(xs: seq<Interval>, b: int, idleFor: IdleFor, nb: NodeBucket)
    requires nb == SumsOf(xs, b, idleFor, nb.idleWatts) && FirstIdle(nb.idleWatts, xs, b, idleFor)
    ensures BucketMeans(nb, xs, b, idleFor)
  {
  }

  lemma EmptySums(xs: seq<Interval>, b: int, idleFor: IdleFor, idle: Option<real>)
    requires !Began(xs, b)
    ensures SumsOf(xs, b, idleFor, idle) == EmptyBucket(b, idle)
  {
    EmptyMeans(xs, b, idleFor);
  }

  /** What is known of a bucket after some intervals. */
  ghost predicate Tracks(nb: Option<NodeBucket>, xs: seq<Interval>, b: int, idleFor: IdleFor) {
    && (nb.Some? <==> Began(xs, b))
    && (nb.Some? ==> nb.value == SumsOf(xs, b, idleFor, nb.value.idleWatts) && FirstIdle(nb.value.idleWatts, xs, b, idleFor))
  }

  lemma TracksOneMore(prev: Option<NodeBucket>, xs: seq<Interval>, b: int, idleFor: IdleFor)
    requires xs != [] && Tracks(prev, xs[..|xs| - 1], b, idleFor)
    ensures var x := xs[|xs| - 1];
            var so := if prev.Some? then prev.value else EmptyBucket(b, idleFor(x.ts));
            Tracks(if BeganIn(b)(x) then Some(AddInterval(so, x, idleFor(x.ts))) else prev, xs, b, idleFor)
  {
    var init, x := xs[..|xs| - 1], xs[|xs| - 1];
    var idle := if prev.Some? then prev.value.idleWatts else idleFor(x.ts);
    BeganOneMore(xs, b);
    SumsOneMore(xs, b, idleFor, idle);
    if BeganIn(b)(x) || prev.Some? { FirstOneMore(xs, b, idleFor, idle); }
    if prev.None? { EmptySums(init, b, idleFor, idle); }
  }

  lemma BeganIffInBucket(x: Interval, b: int)
    requires Aligned(b)
    ensures BeganIn(b)(x) <==> BucketOf(x.ts) == b
  {
    AlignedBounds(x.ts, b, b + BUCKET_MS);
  }

  lemma {:induction false} BucketAtTracks(xs: seq<Interval>, b: int, idleFor: IdleFor)
    requires Aligned(b)
    ensures Tracks(BucketAt(xs, b, idleFor), xs, b, idleFor)
  {
    if xs != [] {
      BucketAtTracks(xs[..|xs| - 1], b, idleFor);
      BeganIffInBucket(xs[|xs| - 1], b);
      TracksOneMore(BucketAt(xs[..|xs| - 1], b, idleFor), xs, b, idleFor);
    }
  }

  lemma BucketAtMeans(xs: seq<Interval>, b: int, idleFor: IdleFor)
    requires Aligned(b)
    ensures BucketAt(xs, b, idleFor).Some? <==> Began(xs, b)
    ensures BucketAt(xs, b, idleFor).Some? ==> BucketMeans(BucketAt(xs, b, idleFor).value, xs, b, idleFor)
  {
    BucketAtTracks(xs, b, idleFor);
    if BucketAt(xs, b, idleFor).Some? { SumsMean(xs, b, idleFor, BucketAt(xs, b, idleFor).value); }
  }

  lemma BeganOneMore(xs: seq<Interval>, b: int)
    requires xs != []
    ensures Began(xs, b) <==> Began(xs[..|xs| - 1], b) || BeganIn(b)(xs[|xs| - 1])
  {
    var init := xs[..|xs| - 1];
    if Began(init, b) {
      var i :| 0 <= i < |init| && BeganIn(b)(init[i]);
      assert BeganIn(b)(xs[i]);
    }
  }

  lemma FirstOneMore(xs: seq<Interval>, b: int, idleFor: IdleFor, idle: Option<real>)
    requires xs != []
    requires var init, x := xs[..|xs| - 1], xs[|xs| - 1];
             FirstIdle(idle, init, b, idleFor) || (!Began(init, b) && BeganIn(b)(x) && idle == idleFor(x.ts))
    ensures FirstIdle(idle, xs, b, idleFor)
  {
    var n := |xs| - 1;
    var init := xs[..n];
    if FirstIdle(idle, init, b, idleFor) {
      var i :| 0 <= i < |init| && BeganIn(b)(init[i]) && (forall j :: 0 <= j < i ==> !BeganIn(b)(init[j])) && idle == idleFor(init[i].ts);
      assert BeganIn(b)(xs[i]) && forall j :: 0 <= j < i ==> xs[j] == init[j];
    } else {
      assert forall j :: 0 <= j < n ==> xs[j] == init[j];
      assert BeganIn(b)(xs[n]);
    }
  }

  /** Before its first interval a bucket's sums are all nothing. */
  lemma EmptyMeans(xs: seq<Interval>, b: int, idleFor: IdleFor)
    requires !Began(xs, b)
    ensures SumWhere(xs, BeganIn(b), (x: Interval) => x.hours) == 0.0
    ensures SumWhere(xs, BeganIn(b), (x: Interval) => x.watts * x.hours) == 0.0
    ensures SumWhere(xs, BeganIn(b), (x: Interval) => x.gpuWatts * x.hours) == 0.0
    ensures SumWhere(xs, BeganIn(b), IdleOf(idleFor)) == 0.0
    ensures SumWhere(xs, BeganIn(b), ActiveOf(idleFor)) == 0.0
    ensures SumWhere(xs, BeganIn(b), (x: Interval) => if x.measured.Some? then x.measured.value.0 else 0.0) == 0.0
    ensures SumWhere(xs, BeganIn(b), (x: Interval) => if x.measured.Some? then x.measured.value.1 else 0.0) == 0.0
    ensures SumWhere(xs, BeganIn(b), (x: Interval) => if x.measured.Some? then x.hours else 0.0) == 0.0
  {
    SumOfNone(xs, BeganIn(b), (x: Interval) => x.hours);
    SumOfNone(xs, BeganIn(b), (x: Interval) => x.watts * x.hours);
    SumOfNone(xs, BeganIn(b), (x: Interval) => x.gpuWatts * x.hours);
    SumOfNone(xs, BeganIn(b), IdleOf(idleFor));
    SumOfNone(xs, BeganIn(b), ActiveOf(idleFor));
    SumOfNone(xs, BeganIn(b), (x: Interval) => if x.measured.Some? then x.measured.value.0 else 0.0);
    SumOfNone(xs, BeganIn(b), (x: Interval) => if x.measured.Some? then x.measured.value.1 else 0.0);
    SumOfNone(xs, BeganIn(b), (x: Interval) => if x.measured.Some? then x.hours else 0.0);
  }

  lemma GradeIsCoverage(measured: real, sampled: real)
    ensures GradeFor(measured, sampled) == if sampled > 0.0 && measured >= 0.95 * sampled then B else C
  {
    if sampled > 0.0 {
      var q := measured / sampled;
      assert q * sampled == measured;
      Scaled(q, 0.95, sampled);
    }
  }

  lemma Scaled(x: real, y: real, k: real)
    requires k > 0.0
    ensures x >= y <==> x * k >= y * k
  {
  }

  /** What a node's samples store for a bucket of the range: nothing without an interval that began in it, else their sums, graded. */
  lemma NodeBucketMeans(n: Node, start: int, end: int, b: int)
    requires Aligned(start) && Aligned(end) && Aligned(b) && start <= b < end
    ensures var nb := At(BuiltNode(n, start, end).buckets, b);
            && (nb.Some? <==> Began(n.intervals, b))
            && (nb.Some? ==> BucketMeans(nb.value, n.intervals, b, n.idleFor) && GradeMeans(nb.value))
  {
    GradedAt(Integrate(n.intervals, start, end, n.idleFor), b);
    BucketsAreLocal(n.intervals, start, end, n.idleFor, b);
    BucketAtMeans(n.intervals, b, n.idleFor);
    var nb := BucketAt(n.intervals, b, n.idleFor);
    if nb.Some? { GradeIsCoverage(nb.value.measuredHours, nb.value.sampledHours); }
  }

  // ── Splitting the active energy ──────────────────────────────────

  /** What a group is counted for: negative weights and counts are nothing. */
  function Part(x: real): real {
    if x > 0.0 then x else 0.0
  }

  ghost predicate InStep(shares: seq<real>, parts: seq<real>)
    requires |shares| == |parts|
  {
    forall i, j :: 0 <= i < |shares| && 0 <= j < |shares| ==> shares[i] * Part(parts[j]) == shares[j] * Part(parts[i])
  }

  ghost predicate SomePositive(xs: seq<real>) {
    exists i :: 0 <= i < |xs| && xs[i] > 0.0
  }

  /** Shares stand to one another as the weights do; as the message counts when no group has a weight; else all alike. */
  ghost predicate SplitFairly(shares: seq<real>, weights: seq<real>, messages: seq<real>)
    requires |shares| == |weights| == |messages|
  {
    if SomePositive(weights) then InStep(shares, weights)
    else if SomePositive(messages) then InStep(shares, messages)
    else forall i, j :: 0 <= i < |shares| && 0 <= j < |shares| ==> shares[i] == shares[j]
  }

  lemma {:induction false} PositiveSum(xs: seq<real>)
    ensures SumOf(Floored(xs)) >= 0.0
    ensures SumOf(Floored(xs)) > 0.0 <==> SomePositive(xs)
  {
    if xs != [] {
      var n := |xs| - 1;
      PositiveSum(xs[..n]);
      assert Floored(xs)[..n] == Floored(xs[..n]);
      if SomePositive(xs[..n]) {
        var i :| 0 <= i < n && xs[..n][i] > 0.0;
        assert xs[i] > 0.0;
      }
    }
  }

  lemma CrossShares(amount: real, p: real, q: real, whole: real)
    requires whole != 0.0
    ensures Share(amount, p, whole) * q == Share(amount, q, whole) * p
  {
    var x, y := p / whole, q / whole;
    assert x * whole == p && y * whole == q;
    Swap(amount, x, y, whole);
  }

  lemma Swap(a: real, x: real, y: real, w: real)
    ensures a * x * (y * w) == a * y * (x * w)
  {
    assert x * (y * w) == y * (x * w);
  }

  lemma ProportionInStep(amount: real, xs: seq<real>, w: seq<real>, whole: real)
    requires w == Floored(xs) && whole > 0.0
    ensures InStep(Proportion(amount, w, whole), xs)
  {
    var shares := Proportion(amount, w, whole);
    forall i, j | 0 <= i < |xs| && 0 <= j < |xs| ensures shares[i] * Part(xs[j]) == shares[j] * Part(xs[i]) {
      assert w[i] == Part(xs[i]) && w[j] == Part(xs[j]);
      CrossShares(amount, w[i], w[j], whole);
    }
  }

  lemma SplitIsFair(activeWh: real, weights: seq<real>, messages: seq<real>)
    requires |messages| == |weights|
    ensures var shares := SplitActive(activeWh, weights, messages);
            SplitFairly(shares, weights, messages) && (weights != [] ==> SumOf(shares) == activeWh)
  {
    var shares := SplitActive(activeWh, weights, messages);
    PositiveSum(weights);
    PositiveSum(messages);
    if weights == [] {
    } else if SomePositive(weights) {
      ProportionInStep(activeWh, weights, Floored(weights), SumOf(Floored(weights)));
      WholeProportion(activeWh, Floored(weights));
    } else if SomePositive(messages) {
      ProportionInStep(activeWh, messages, Floored(messages), SumOf(Floored(messages)));
      WholeProportion(activeWh, Floored(messages));
    } else {
      EvenSharesSum(activeWh / (|weights| as real), shares);
    }
  }

  lemma WholeProportion(amount: real, parts: seq<real>)
    requires SumOf(parts) > 0.0
    ensures SumOf(Proportion(amount, parts, SumOf(parts))) == amount
  {
    ProportionSums(amount, parts, SumOf(parts));
    WholeShare(amount, SumOf(parts));
  }

  ghost predicate Cross(shares: seq<real>, parts: seq<real>, share: real, part: real)
    requires |shares| == |parts|
  {
    forall i :: 0 <= i < |shares| ==> shares[i] * part == share * parts[i]
  }

  function Product(x: real, y: real): real {
    x * y
  }

  function Times(xs: seq<real>, k: real): (r: seq<real>)
    ensures |r| == |xs| && forall i :: 0 <= i < |xs| ==> r[i] == Product(xs[i], k)
  {
    seq(|xs|, i requires 0 <= i < |xs| => Product(xs[i], k))
  }

  lemma {:induction false} SumScaled(xs: seq<real>, k: real)
    ensures SumOf(Times(xs, k)) == SumOf(xs) * k
  {
    if xs != [] {
      var n := |xs| - 1;
      SumScaled(xs[..n], k);
      assert Times(xs, k)[..n] == Times(xs[..n], k);
      Apart(SumOf(xs[..n]), xs[n], k);
    }
  }

  lemma Apart(x: real, y: real, k: real)
    ensures (x + y) * k == x * k + y * k
  {
  }

  lemma CrossIsScaled(shares: seq<real>, parts: seq<real>, share: real, part: real)
    requires |shares| == |parts| && Cross(shares, parts, share, part)
    ensures Times(shares, part) == Times(parts, share)
  {
    forall i | 0 <= i < |shares| ensures Times(shares, part)[i] == Times(parts, share)[i] {
      Commutes(share, parts[i]);
    }
  }

  lemma Commutes(x: real, y: real)
    ensures x * y == y * x
  {
  }

  /** Adding up the cross products: one group's share of everything. */
  lemma CrossSum(shares: seq<real>, parts: seq<real>, share: real, part: real)
    requires |shares| == |parts| && Cross(shares, parts, share, part)
    ensures SumOf(shares) * part == share * SumOf(parts)
  {
    CrossIsScaled(shares, parts, share, part);
    SumScaled(shares, part);
    SumScaled(parts, share);
    Commutes(share, SumOf(parts));
  }

  lemma FlooredParts(xs: seq<real>)
    ensures forall i :: 0 <= i < |xs| ==> Floored(xs)[i] == Part(xs[i])
  {
  }

  lemma CrossAt(shares: seq<real>, xs: seq<real>, j: nat)
    requires |shares| == |xs| && InStep(shares, xs) && j < |xs|
    ensures Cross(shares, Floored(xs), shares[j], Part(xs[j]))
  {
    var w := Floored(xs);
    FlooredParts(xs);
    forall i | 0 <= i < |xs| ensures shares[i] * Part(xs[j]) == shares[j] * w[i] {
      assert shares[i] * Part(xs[j]) == shares[j] * Part(xs[i]);
    }
  }

  lemma ShareFrom(share: real, amount: real, part: real, whole: real)
    requires whole != 0.0 && amount * part == share * whole
    ensures share == Share(amount, part, whole)
  {
    var q := part / whole;
    assert q * whole == part;
    Swapped(amount, q, whole);
    QuotientIs(share, amount * q, whole);
  }

  lemma ShareOfCross(shares: seq<real>, w: seq<real>, share: real, part: real)
    requires |shares| == |w| && SumOf(w) != 0.0 && Cross(shares, w, share, part)
    ensures share == Share(SumOf(shares), part, SumOf(w))
  {
    CrossSum(shares, w, share, part);
    ShareFrom(share, SumOf(shares), part, SumOf(w));
  }

  lemma ShareAt(shares: seq<real>, xs: seq<real>, j: nat)
    requires |shares| == |xs| && InStep(shares, xs) && j < |xs| && SumOf(Floored(xs)) != 0.0
    ensures shares[j] == Share(SumOf(shares), Part(xs[j]), SumOf(Floored(xs)))
  {
    CrossAt(shares, xs, j);
    ShareOfCross(shares, Floored(xs), shares[j], Part(xs[j]));
  }

  lemma InStepIsProportion(shares: seq<real>, xs: seq<real>)
    requires |shares| == |xs| && SomePositive(xs) && InStep(shares, xs)
    ensures SumOf(Floored(xs)) > 0.0 && shares == Proportion(SumOf(shares), Floored(xs), SumOf(Floored(xs)))
  {
    PositiveSum(xs);
    FlooredParts(xs);
    forall j | 0 <= j < |xs| ensures shares[j] == Share(SumOf(shares), Part(xs[j]), SumOf(Floored(xs))) {
      ShareAt(shares, xs, j);
    }
  }

  lemma Swapped(a: real, q: real, w: real)
    ensures a * (q * w) == a * q * w
  {
  }

  lemma FairIsTheSplit(activeWh: real, weights: seq<real>, messages: seq<real>, shares: seq<real>)
    requires |messages| == |weights| == |shares| && weights != []
    requires SplitFairly(shares, weights, messages) && SumOf(shares) == activeWh
    ensures shares == SplitActive(activeWh, weights, messages)
  {
    PositiveSum(weights);
    PositiveSum(messages);
    if SomePositive(weights) {
      InStepIsProportion(shares, weights);
    } else if SomePositive(messages) {
      InStepIsProportion(shares, messages);
    } else {
      EvenSharesSum(shares[0], shares);
      QuotientIs(shares[0], activeWh / (|shares| as real), |shares| as real);
    }
  }

  /** In step and summing to the active energy fixes the split: it is the split the program computes and no other. */
  lemma SplitActiveIff(activeWh: real, weights: seq<real>, messages: seq<real>, shares: seq<real>)
    requires |messages| == |weights| == |shares| && weights != []
    ensures shares == SplitActive(activeWh, weights, messages)
            <==> SplitFairly(shares, weights, messages) && SumOf(shares) == activeWh
  {
    if SplitFairly(shares, weights, messages) && SumOf(shares) == activeWh {
      FairIsTheSplit(activeWh, weights, messages, shares);
    } else if shares == SplitActive(activeWh, weights, messages) {
      SplitIsFair(activeWh, weights, messages);
    }
  }

  /** Three parts to one: 4 Wh are split 3 and 1, whatever the message counts. */
  lemma ThreeToOne(n: real, m: real)
    ensures SplitActive(4.0, [3.0, 1.0], [n, m]) == [3.0, 1.0]
  {
    var w := [3.0, 1.0];
    assert w[0] > 0.0 && w[..1] == [3.0] && [3.0][..0] == [];
    assert SumOf(w) == SumOf(w[..1]) + 1.0;
    assert SumOf([3.0]) == SumOf([3.0][..0]) + 3.0;
    SplitActiveIff(4.0, w, [n, m], w);
  }
}
