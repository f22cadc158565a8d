/**
 * Which intervals a node's samples give, sample by sample (packages/core/energy-attribution.ts, `hostIntervals`).
 */
module SampleMeaning {
  import opened Wrappers
  import opened Seqs
  import opened EnergyBuckets
  import opened EnergyCounters
  import opened EnergySamples

  /** From one live row to the next, no more than five minutes on: the first row's draw over the time between. */
  ghost predicate FromPair(a: Hot, b: Hot, measure: Measure, x: Interval) {
    && 0 < b.ts - a.ts <= 300000
    && x.ts == a.ts && x.hours * 3600000.0 == (b.ts - a.ts) as real
    && x.watts == a.watts && x.gpuWatts == a.gpuWatts && x.measured == measure(a, b)
  }

  ghost predicate FromPairAt(h: seq<Hot>, measure: Measure, x: Interval, i: nat) {
    var next := i + 1;
    next < |h| && FromPair(h[i], h[next], measure, x)
  }

  lemma HoursOf(dt: int, hours: real)
    ensures hours * 3600000.0 == dt as real <==> hours == dt as real / 3600000.0
  {
  }

  lemma PairIff(a: Hot, b: Hot, measure: Measure, x: Interval)
    ensures FromPair(a, b, measure, x)
            <==> Integrable(b.ts - a.ts) && x == Interval(a.ts, (b.ts - a.ts) as real / MS_PER_HOUR, a.watts, a.gpuWatts, measure(a, b))
  {
    HoursOf(b.ts - a.ts, x.hours);
  }

  /** The live intervals are those of the neighbouring rows, no other and none missing. */
  lemma {:induction false} LiveIff(h: seq<Hot>, measure: Measure, x: Interval)
    ensures x in HotIntervals(h, measure) <==> exists i: nat :: FromPairAt(h, measure, x, i)
  {
    if |h| >= 2 {
      var n := |h| - 1;
      var init := h[..n];
      LiveIff(init, measure, x);
      PairIff(h[n - 1], h[n], measure, x);
      forall i: nat ensures FromPairAt(h, measure, x, i) <==> FromPairAt(init, measure, x, i) || (i == n - 1 && FromPair(h[n - 1], h[n], measure, x)) {
      }
      if FromPair(h[n - 1], h[n], measure, x) { assert FromPairAt(h, measure, x, n - 1); }
      if i: nat :| FromPairAt(init, measure, x, i) { assert FromPairAt(h, measure, x, i); }
    }
  }

  /** From an archived row: a quarter hour at sixty samples or more, else its share of one, and nothing at none. */
  ghost predicate FromArchive(c: Cold, x: Interval) {
    && c.sampleCount > 0 && x.ts == c.ts && x.hours * 240.0 == (if c.sampleCount >= 60 then 60.0 else c.sampleCount as real)
    && x.watts == c.watts && x.gpuWatts == c.gpuWatts && x.measured == c.measured
  }

  lemma ArchiveIff(c: Cold, x: Interval)
    ensures FromArchive(c, x) <==> ColdHours(c) > 0.0 && x == Interval(c.ts, ColdHours(c), c.watts, c.gpuWatts, c.measured)
  {
    if c.sampleCount > 0 {
      assert ColdHours(c) * 240.0 == if c.sampleCount >= 60 then 60.0 else c.sampleCount as real;
    }
  }

  lemma {:induction false} ArchivedIff(cold: seq<Cold>, x: Interval)
    ensures x in ColdIntervals(cold) <==> exists c :: c in cold && FromArchive(c, x)
  {
    if cold != [] {
      var init, last := cold[..|cold| - 1], cold[|cold| - 1];
      ArchivedIff(init, x);
      ArchiveIff(last, x);
      assert cold == init + [last];
      if FromArchive(last, x) { assert last in cold; }
      if c :| c in init && FromArchive(c, x) { assert c in cold; }
    }
  }

  /** The counters are compared over the seconds between the two rows, each row's own draw beside them. */
  lemma MeteredIs(a: Hot, b: Hot, seconds: real)
    requires seconds * 1000.0 == (b.ts - a.ts) as real
    ensures Metered(a, b) == Measured(Counters(a.cpu, a.gpuMj, a.uptimeS, Some(a.watts)), a.gpuWatts,
                                      Counters(b.cpu, b.gpuMj, b.uptimeS, Some(b.watts)), b.gpuWatts, Some(seconds))
  {
    assert Seconds(a, b) == seconds;
  }

  // ── The percentile's terms ───────────────────────────────────────

  /** What has weight, and nothing else, as often as it is there. */
  lemma {:induction false} UsableIff(xs: seq<Weighted>, x: Weighted)
    ensures multiset(Usable(xs))[x] == if x.w > 0.0 then multiset(xs)[x] else 0
  {
    if xs != [] {
      UsableIff(xs[..|xs| - 1], x);
      assert xs == xs[..|xs| - 1] + [xs[|xs| - 1]];
    }
  }

  /** Nothing of the total for a share of nothing or less, all of it for a whole or more, its share between. */
  lemma TargetIs(p: real, total: real)
    ensures TargetOf(p, total) == if p <= 0.0 then 0.0 else if p >= 1.0 then total else p * total
  {
    assert Clamp(p) == if p <= 0.0 then 0.0 else if p >= 1.0 then 1.0 else p;
    assert 0.0 * total == 0.0 && 1.0 * total == total;
  }
}
