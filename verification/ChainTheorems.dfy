/**
 * What a verdict of the lane verifier is worth: an independent reading of "break-free", and what a
 * last hash and a session root commit to.
 */
module ChainTheorems {
  import opened Wrappers
  import opened Bytes
  import opened Text
  import opened Chain
  import HashTree
  import Merkle

  type Splits = seq<Option<Chained>>

  // ── Break-free, said without the state machine ───────────────────

  function HashAt(cs: Splits, i: nat): string
    requires i < |cs|
  {
    if cs[i].Some? then cs[i].value.hash else ""
  }

  function Hashes(cs: Splits): (hs: seq<string>)
    ensures |hs| == |cs| && forall i :: 0 <= i < |cs| ==> hs[i] == HashAt(cs, i)
  {
    seq(|cs|, i requires 0 <= i < |cs| => HashAt(cs, i))
  }

  function HeadOf(cs: Splits): Option<string> {
    if cs == [] then None else Some(HashAt(cs, |cs| - 1))
  }

  /** Line `i` is chained, hashes to its claim, is an object, links to line `i - 1`, and closes honestly if it closes. */
  ghost predicate SoundAt(rt: Runtime, cs: Splits, i: nat)
    requires i < |cs|
  {
    && cs[i].Some?
    && rt.lineHash(cs[i].value.preimage) == cs[i].value.hash
    && var entry := rt.parse(cs[i].value.preimage);
    && entry.Some? && entry.value.Obj?
    && PrevIs(entry.value.obj, HeadOf(cs[..i]))
    && (IsClosing(entry) ==>
          && RulesKnown(entry.value.obj)
          && AsStr(entry.value.obj.sessionRoot) == Some(rt.sessionRoot(Hashes(cs[..i]))))
  }

  ghost predicate Sound(rt: Runtime, cs: Splits) {
    forall i :: 0 <= i < |cs| ==> SoundAt(rt, cs, i)
  }

  ghost predicate NoneChained(cs: Splits) {
    forall i :: 0 <= i < |cs| ==> cs[i].None?
  }

  ghost predicate ClosesAt(rt: Runtime, cs: Splits, i: nat)
    requires i < |cs|
  {
    cs[i].Some? && IsClosing(rt.parse(cs[i].value.preimage))
  }

  /** The last closing record, if there is one. */
  ghost predicate RootIsFrom(rt: Runtime, cs: Splits, d: Data) {
    match d.rootSeq
    case None => d.rootExpected.None? && forall i :: 0 <= i < |cs| ==> !ClosesAt(rt, cs, i)
    case Some(k) =>
      && k < |cs| && ClosesAt(rt, cs, k) && (forall i :: k < i < |cs| ==> !ClosesAt(rt, cs, i))
      && d.rootExpected == d.rootComputed == Some(rt.sessionRoot(Hashes(cs[..k])))
  }

  lemma SoundPrefix(rt: Runtime, cs: Splits, k: nat)
    requires k <= |cs| && Sound(rt, cs)
    ensures Sound(rt, cs[..k])
  {
    forall i | 0 <= i < k ensures SoundAt(rt, cs[..k], i) {
      assert SoundAt(rt, cs, i);
      assert cs[..k][..i] == cs[..i];
    }
  }

  lemma SoundExtends(rt: Runtime, cs: Splits)
    requires |cs| > 0
    ensures Sound(rt, cs) <==> Sound(rt, cs[..|cs| - 1]) && SoundAt(rt, cs, |cs| - 1)
  {
    var init := cs[..|cs| - 1];
    if Sound(rt, cs) {
      SoundPrefix(rt, cs, |cs| - 1);
    } else if Sound(rt, init) && SoundAt(rt, cs, |cs| - 1) {
      forall i | 0 <= i < |cs| ensures SoundAt(rt, cs, i) {
        if i < |cs| - 1 {
          assert SoundAt(rt, init, i);
          assert init[..i] == cs[..i];
        }
      }
    }
  }

  /** What the verifier's state says about the lines fed so far. */
  ghost predicate Tracks(rt: Runtime, cs: Splits, st: State) {
    && st.data.entries == |cs|
    && (st.data.hashed == 0 <==> NoneChained(cs))
    && (st.data.breaks == 0 <==> NoneChained(cs) || Sound(rt, cs))
    && (NoneChained(cs) ==> st.data.lastHash.None? && st.data.rootSeq.None? && st.data.rootExpected.None? && st.leaves == [])
    && (Sound(rt, cs) ==>
          && st.data.hashed == |cs| && st.leaves == Hashes(cs) && st.data.lastHash == HeadOf(cs)
          && RootIsFrom(rt, cs, st.data))
  }

  lemma TracksUnchained(rt: Runtime, cs: Splits, st: State)
    requires |cs| > 0 && cs[|cs| - 1].None? && Tracks(rt, cs[..|cs| - 1], st)
    ensures Tracks(rt, cs, StepSplit(rt, st, None))
  {
    SoundExtends(rt, cs);
    assert NoneChained(cs) <==> NoneChained(cs[..|cs| - 1]);
  }

  /** An honest line: nothing `CheckLink` or `CloseSession` would record. */
  predicate Honest(rt: Runtime, d: Data, leaves: seq<string>, seqNo: nat, c: Chained) {
    var entry := rt.parse(c.preimage);
    && LinkFault(rt, d, seqNo, c).None?
    && (IsClosing(entry) ==>
          && RulesKnown(entry.value.obj)
          && AsStr(entry.value.obj.sessionRoot) == Some(rt.sessionRoot(leaves)))
  }

  lemma CloseSessionEffect(rt: Runtime, st: State, seqNo: nat, o: Object)
    requires o.sessionRoot.Str?
    ensures var st' := CloseSession(rt, st, seqNo, o);
            && (st'.data.breaks == 0 <==>
                  && st.data.breaks == 0 && RulesKnown(o)
                  && AsStr(o.sessionRoot) == Some(rt.sessionRoot(st.leaves)))
            && st'.data.breaks >= st.data.breaks && st'.leaves == st.leaves
            && st'.data.entries == st.data.entries && st'.data.hashed == st.data.hashed
            && st'.data.lastHash == st.data.lastHash && st'.data.rootSeq == Some(seqNo)
            && st'.data.rootExpected == AsStr(o.sessionRoot)
            && st'.data.rootComputed == Some(rt.sessionRoot(st.leaves))
  {
  }

  lemma StepChainedEffect(rt: Runtime, st: State, c: Chained)
    ensures var st' := StepSplit(rt, st, Some(c));
            var entry := rt.parse(c.preimage);
            var hashed := CountHashed(CountEntry(st)).data;
            && (st'.data.breaks == 0 <==> st.data.breaks == 0 && Honest(rt, hashed, st.leaves, st.data.entries, c))
            && st'.data.entries == st.data.entries + 1 && st'.data.hashed == st.data.hashed + 1
            && st'.data.lastHash == Some(c.hash) && st'.leaves == st.leaves + [c.hash]
            && (if IsClosing(entry) then
                  && st'.data.rootSeq == Some(st.data.entries)
                  && st'.data.rootExpected == AsStr(entry.value.obj.sessionRoot)
                  && st'.data.rootComputed == Some(rt.sessionRoot(st.leaves))
                else
                  && st'.data.rootSeq == st.data.rootSeq && st'.data.rootExpected == st.data.rootExpected
                  && st'.data.rootComputed == st.data.rootComputed)
  {
    var linked := CheckLink(rt, CountHashed(CountEntry(st)), st.data.entries, c);
    var entry := rt.parse(c.preimage);
    if IsClosing(entry) {
      CloseSessionEffect(rt, linked, st.data.entries, entry.value.obj);
    }
  }

  lemma SoundMeansHonest(rt: Runtime, cs: Splits, st: State)
    requires |cs| > 0 && cs[|cs| - 1].Some? && Tracks(rt, cs[..|cs| - 1], st)
    requires NoneChained(cs[..|cs| - 1]) || Sound(rt, cs[..|cs| - 1])
    ensures Sound(rt, cs) <==>
            Honest(rt, CountHashed(CountEntry(st)).data, st.leaves, st.data.entries, cs[|cs| - 1].value)
  {
    var init := cs[..|cs| - 1];
    SoundExtends(rt, cs);
    if init != [] && NoneChained(init) {
      assert cs[0].None?;
    } else {
      assert st.leaves == Hashes(init) && st.data.lastHash == HeadOf(init);
    }
  }

  lemma RootIsFromExtends(rt: Runtime, cs: Splits, d: Data, d': Data)
    requires |cs| > 0 && RootIsFrom(rt, cs[..|cs| - 1], d)
    requires if ClosesAt(rt, cs, |cs| - 1)
             then d'.rootSeq == Some(|cs| - 1)
                  && d'.rootExpected == d'.rootComputed == Some(rt.sessionRoot(Hashes(cs[..|cs| - 1])))
             else d'.rootSeq == d.rootSeq && d'.rootExpected == d.rootExpected && d'.rootComputed == d.rootComputed
    ensures RootIsFrom(rt, cs, d')
  {
    var init := cs[..|cs| - 1];
    assert forall i :: 0 <= i < |init| ==> (ClosesAt(rt, cs, i) <==> ClosesAt(rt, init, i));
    if d'.rootSeq.Some? && d'.rootSeq.value < |init| {
      assert cs[..d'.rootSeq.value] == init[..d'.rootSeq.value];
    }
  }

  lemma TracksChained(rt: Runtime, cs: Splits, st: State)
    requires |cs| > 0 && cs[|cs| - 1].Some? && Tracks(rt, cs[..|cs| - 1], st)
    ensures Tracks(rt, cs, StepSplit(rt, st, cs[|cs| - 1]))
  {
    var init, c := cs[..|cs| - 1], cs[|cs| - 1].value;
    StepChainedEffect(rt, st, c);
    assert cs[|cs| - 1] == Some(c);
    assert !NoneChained(cs);
    if NoneChained(init) || Sound(rt, init) {
      SoundMeansHonest(rt, cs, st);
      if Sound(rt, cs) {
        SoundPrefix(rt, cs, |cs| - 1);
        assert Hashes(cs) == Hashes(init) + [c.hash];
        RootIsFromExtends(rt, cs, st.data, StepSplit(rt, st, Some(c)).data);
      }
    } else if Sound(rt, cs) {
      SoundPrefix(rt, cs, |cs| - 1);
    }
  }

  lemma {:induction false} RunTracks(rt: Runtime, cs: Splits)
    ensures Tracks(rt, cs, RunSplits(rt, cs))
  {
    if cs != [] {
      RunTracks(rt, cs[..|cs| - 1]);
      if cs[|cs| - 1].None? {
        TracksUnchained(rt, cs, RunSplits(rt, cs[..|cs| - 1]));
      } else {
        TracksChained(rt, cs, RunSplits(rt, cs[..|cs| - 1]));
      }
    }
  }

  lemma TrackedVerdict(rt: Runtime, cs: Splits, st: State)
    requires Tracks(rt, cs, st)
    ensures var v := VerdictOf(st.data);
            && (v == Unchained <==> NoneChained(cs))
            && (v == Open || v == Verified <==> cs != [] && Sound(rt, cs))
            && (v == Verified <==> cs != [] && Sound(rt, cs) && exists i :: 0 <= i < |cs| && ClosesAt(rt, cs, i))
  {
    if cs != [] && Sound(rt, cs) {
      assert SoundAt(rt, cs, 0);
    }
  }

  /**
   * The verdict, read off the lines alone: non-corrupted and non-empty is exactly a sound chain from
   * the very first line, and verified is exactly a sound chain that some record closed.
   */
  lemma VerdictMeans(rt: Runtime, lines: seq<string>)
    ensures var cs := SplitAll(lines);
            var v := VerdictOf(Run(rt, lines).data);
            && (v == Unchained <==> NoneChained(cs))
            && (v == Open || v == Verified <==> cs != [] && Sound(rt, cs))
            && (v == Verified <==> cs != [] && Sound(rt, cs) && exists i :: 0 <= i < |cs| && ClosesAt(rt, cs, i))
  {
    var cs := SplitAll(lines);
    RunTracks(rt, cs);
    TrackedVerdict(rt, cs, RunSplits(rt, cs));
  }

  // ── What the last hash commits to ────────────────────────────────

  /** The preimages the lines' own hashes are computed from. */
  ghost function LinePreimages(cs: Splits): set<seq<Byte>> {
    set i | 0 <= i < |cs| && cs[i].Some? :: Utf8(cs[i].value.preimage)
  }

  lemma EqualLineHashes(sha: HashFn, preimages: set<seq<Byte>>, p: string, q: string)
    requires CollisionFree(sha, preimages) && Utf8(p) in preimages && Utf8(q) in preimages
    requires LineHash(sha, p) == LineHash(sha, q)
    ensures p == q
  {
    FromHexToHex(sha(Utf8(p)));
    FromHexToHex(sha(Utf8(q)));
    Utf8Injective(p, q);
  }

  /** The last line of a sound chain is fixed by its hash, and so is what came before it. */
  lemma LastLineIsFixed(sha: HashFn, rt: Runtime, preimages: set<seq<Byte>>, a: Splits, b: Splits)
    requires rt == RuntimeOver(sha, rt.parse) && CollisionFree(sha, preimages)
    requires LinePreimages(a) <= preimages && LinePreimages(b) <= preimages
    requires a != [] && b != [] && Sound(rt, a) && Sound(rt, b) && HeadOf(a) == HeadOf(b)
    ensures a[|a| - 1] == b[|b| - 1] && HeadOf(a[..|a| - 1]) == HeadOf(b[..|b| - 1])
  {
    assert SoundAt(rt, a, |a| - 1) && SoundAt(rt, b, |b| - 1);
    var x, y := a[|a| - 1].value, b[|b| - 1].value;
    assert Utf8(x.preimage) in LinePreimages(a) && Utf8(y.preimage) in LinePreimages(b);
    EqualLineHashes(sha, preimages, x.preimage, y.preimage);
  }

  lemma {:induction false} EqualHeadsEqualChains(sha: HashFn, rt: Runtime, preimages: set<seq<Byte>>, a: Splits, b: Splits)
    requires rt == RuntimeOver(sha, rt.parse) && CollisionFree(sha, preimages)
    requires LinePreimages(a) <= preimages && LinePreimages(b) <= preimages
    requires Sound(rt, a) && Sound(rt, b) && HeadOf(a) == HeadOf(b)
    ensures a == b
    decreases |a|
  {
    if a != [] && b != [] {
      LastLineIsFixed(sha, rt, preimages, a, b);
      SoundPrefix(rt, a, |a| - 1);
      SoundPrefix(rt, b, |b| - 1);
      EqualHeadsEqualChains(sha, rt, preimages, a[..|a| - 1], b[..|b| - 1]);
      assert a == a[..|a| - 1] + [a[|a| - 1]] && b == b[..|b| - 1] + [b[|b| - 1]];
    }
  }

  /** What a line says once its trailing CR and LF are gone. */
  function StripAll(lines: seq<string>): (r: seq<string>)
    ensures |r| == |lines| && forall i :: 0 <= i < |r| ==> r[i] == StripEol(lines[i])
  {
    seq(|lines|, i requires 0 <= i < |lines| => StripEol(lines[i]))
  }

  /** A chained line, trailing CR and LF aside, is its preimage and its hash and nothing else. */
  lemma JoinUndoesSplit(line: string)
    requires SplitChainedLine(line).Some?
    ensures JoinChainedLine(SplitChainedLine(line).value) == StripEol(line)
  {
    var t := StripEol(line);
    var tail := t[|t| - TAIL_LEN..];
    var c := SplitChainedLine(line).value;
    assert c.preimage[..|c.preimage| - 1] == t[..|t| - TAIL_LEN];
    assert tail == tail[..9] + tail[9..73] + tail[73..];
    assert tail[73..] == t[|t| - 2..];
    assert t == t[..|t| - TAIL_LEN] + tail;
  }

  lemma EqualSplitsEqualLines(a: seq<string>, b: seq<string>)
    requires SplitAll(a) == SplitAll(b) && forall i :: 0 <= i < |a| ==> SplitAll(a)[i].Some?
    ensures StripAll(a) == StripAll(b)
  {
    assert |a| == |SplitAll(a)| == |b|;
    forall i | 0 <= i < |a| ensures StripEol(a[i]) == StripEol(b[i]) {
      assert SplitAll(a)[i].Some? && SplitAll(a)[i] == SplitAll(b)[i];
      JoinUndoesSplit(a[i]);
      JoinUndoesSplit(b[i]);
    }
  }

  ghost predicate Intact(v: Verdict) {
    v == Open || v == Verified
  }

  /**
   * Two journals with an intact verdict and the same last hash are the same journal, line by line,
   * blank lines and trailing CR/LF aside.
   */
  lemma LastHashCommitsToHistory(sha: HashFn, rt: Runtime, a: seq<string>, b: seq<string>)
    requires rt == RuntimeOver(sha, rt.parse)
    requires Intact(VerdictOf(Run(rt, NonBlank(a)).data)) && Intact(VerdictOf(Run(rt, NonBlank(b)).data))
    requires Run(rt, NonBlank(a)).data.lastHash == Run(rt, NonBlank(b)).data.lastHash
    requires CollisionFree(sha, LinePreimages(SplitAll(NonBlank(a))) + LinePreimages(SplitAll(NonBlank(b))))
    ensures StripAll(NonBlank(a)) == StripAll(NonBlank(b))
  {
    var ca, cb := SplitAll(NonBlank(a)), SplitAll(NonBlank(b));
    VerdictMeans(rt, NonBlank(a));
    VerdictMeans(rt, NonBlank(b));
    RunTracks(rt, ca);
    RunTracks(rt, cb);
    EqualHeadsEqualChains(sha, rt, LinePreimages(ca) + LinePreimages(cb), ca, cb);
    forall i | 0 <= i < |ca| ensures ca[i].Some? { assert SoundAt(rt, ca, i); }
    EqualSplitsEqualLines(NonBlank(a), NonBlank(b));
  }

  // ── What the session root commits to ─────────────────────────────

  lemma LinePreimagesOfPrefix(cs: Splits, k: nat)
    requires k <= |cs|
    ensures LinePreimages(cs[..k]) <= LinePreimages(cs)
  {
  }

  /** No two lines of a sound chain share a hash. */
  lemma SoundHashesAreDistinct(sha: HashFn, rt: Runtime, cs: Splits)
    requires rt == RuntimeOver(sha, rt.parse) && Sound(rt, cs) && CollisionFree(sha, LinePreimages(cs))
    ensures HashTree.NoDuplicates(Hashes(cs))
  {
    forall i, j | 0 <= i < j < |cs| ensures Hashes(cs)[i] != Hashes(cs)[j] {
      if Hashes(cs)[i] == Hashes(cs)[j] {
        SoundPrefix(rt, cs, i + 1);
        SoundPrefix(rt, cs, j + 1);
        LinePreimagesOfPrefix(cs, i + 1);
        LinePreimagesOfPrefix(cs, j + 1);
        EqualHeadsEqualChains(sha, rt, LinePreimages(cs), cs[..i + 1], cs[..j + 1]);
      }
    }
  }

  lemma DecodeHash64Injective(p: string, q: string)
    requires IsHex64(p) && IsHex64(q) && FromHex(p) == FromHex(q)
    ensures p == q
  {
    ToHexFromHex(p);
    ToHexFromHex(q);
  }

  ghost predicate AllHex64(hs: seq<string>) {
    forall i :: 0 <= i < |hs| ==> IsHex64(hs[i])
  }

  lemma DecodedHashesAreDistinct(hs: seq<string>)
    requires AllHex64(hs) && HashTree.NoDuplicates(hs)
    ensures HashTree.NoDuplicates(DecodeHashes(hs))
  {
    forall i, j | 0 <= i < j < |hs| ensures FromHex(hs[i]) != FromHex(hs[j]) {
      if FromHex(hs[i]) == FromHex(hs[j]) { DecodeHash64Injective(hs[i], hs[j]); }
    }
  }

  lemma DecodeHashesInjective(g: seq<string>, h: seq<string>)
    requires AllHex64(g) && AllHex64(h) && DecodeHashes(g) == DecodeHashes(h)
    ensures g == h
  {
    assert |g| == |DecodeHashes(g)| == |h|;
    forall i | 0 <= i < |g| ensures g[i] == h[i] {
      assert DecodeHashes(g)[i] == DecodeHashes(h)[i];
      DecodeHash64Injective(g[i], h[i]);
    }
  }

  /** Every preimage hashed while checking the lines and their root. */
  ghost function JournalPreimages(sha: HashFn, cs: Splits): set<seq<Byte>> {
    LinePreimages(cs) + Merkle.RootInputs(sha, DecodeHashes(Hashes(cs)))
  }

  lemma SoundHashesAreHex(rt: Runtime, lines: seq<string>, k: nat)
    requires k <= |lines| && Sound(rt, SplitAll(lines)[..k])
    ensures AllHex64(Hashes(SplitAll(lines)[..k]))
  {
    var cs := SplitAll(lines)[..k];
    forall i | 0 <= i < |cs| ensures IsHex64(Hashes(cs)[i]) {
      assert SoundAt(rt, cs, i);
    }
  }

  lemma EqualRootsEqualHashes(sha: HashFn, preimages: set<seq<Byte>>, g: seq<string>, h: seq<string>)
    requires AllHex64(g) && AllHex64(h) && HashTree.NoDuplicates(g) && HashTree.NoDuplicates(h)
    requires CollisionFree(sha, preimages) && forall x :: x in preimages ==> sha(x) != Merkle.ZERO_HASH
    requires Merkle.RootInputs(sha, DecodeHashes(g)) + Merkle.RootInputs(sha, DecodeHashes(h)) <= preimages
    requires SessionRoot(sha, g) == SessionRoot(sha, h)
    ensures g == h
  {
    var dg, dh := DecodeHashes(g), DecodeHashes(h);
    FromHexToHex(Merkle.RootOf(sha, Merkle.HashLeaves(sha, dg)));
    FromHexToHex(Merkle.RootOf(sha, Merkle.HashLeaves(sha, dh)));
    DecodedHashesAreDistinct(g);
    DecodedHashesAreDistinct(h);
    Merkle.RootDeterminesContents(sha, dg, dh);
    DecodeHashesInjective(g, h);
  }

  /** The lines a verified journal's root was taken over. */
  ghost function Committed(rt: Runtime, lines: seq<string>): (k: nat)
    requires VerdictOf(Run(rt, lines).data) == Verified
    ensures k < |lines| && Sound(rt, SplitAll(lines)[..k])
    ensures Run(rt, lines).data.rootSeq == Some(k)
    ensures Run(rt, lines).data.rootExpected == Some(rt.sessionRoot(Hashes(SplitAll(lines)[..k])))
  {
    VerdictMeans(rt, lines);
    RunTracks(rt, SplitAll(lines));
    SoundPrefix(rt, SplitAll(lines), Run(rt, lines).data.rootSeq.value);
    Run(rt, lines).data.rootSeq.value
  }

  lemma EqualRootsEqualChains(sha: HashFn, rt: Runtime, a: Splits, b: Splits)
    requires rt == RuntimeOver(sha, rt.parse) && Sound(rt, a) && Sound(rt, b)
    requires AllHex64(Hashes(a)) && AllHex64(Hashes(b))
    requires CollisionFree(sha, JournalPreimages(sha, a) + JournalPreimages(sha, b))
    requires forall x :: x in JournalPreimages(sha, a) + JournalPreimages(sha, b) ==> sha(x) != Merkle.ZERO_HASH
    requires SessionRoot(sha, Hashes(a)) == SessionRoot(sha, Hashes(b))
    ensures a == b
  {
    var preimages := JournalPreimages(sha, a) + JournalPreimages(sha, b);
    SoundHashesAreDistinct(sha, rt, a);
    SoundHashesAreDistinct(sha, rt, b);
    EqualRootsEqualHashes(sha, preimages, Hashes(a), Hashes(b));
    assert |a| == |Hashes(a)| == |Hashes(b)| == |b|;
    if a != [] { assert Hashes(a)[|a| - 1] == Hashes(b)[|b| - 1]; }
    EqualHeadsEqualChains(sha, rt, preimages, a, b);
  }

  lemma EqualPrefixSplitsEqualLines(rt: Runtime, a: seq<string>, i: nat, b: seq<string>, j: nat)
    requires i <= |a| && j <= |b| && SplitAll(a)[..i] == SplitAll(b)[..j] && Sound(rt, SplitAll(a)[..i])
    ensures StripAll(a)[..i] == StripAll(b)[..j]
  {
    assert SplitAll(a[..i]) == SplitAll(a)[..i] && SplitAll(b[..j]) == SplitAll(b)[..j];
    forall k | 0 <= k < i ensures SplitAll(a[..i])[k].Some? { assert SoundAt(rt, SplitAll(a)[..i], k); }
    EqualSplitsEqualLines(a[..i], b[..j]);
    assert StripAll(a)[..i] == StripAll(a[..i]) && StripAll(b)[..j] == StripAll(b[..j]);
  }

  /**
   * The root commits to the lane: two verified journals with equal session roots have identical
   * lines before their (last) closing records, unless a collision, or a preimage of the empty
   * root, is among the preimages involved.
   */
  lemma RootCommitsToLane(sha: HashFn, rt: Runtime, a: seq<string>, b: seq<string>)
    requires rt == RuntimeOver(sha, rt.parse)
    requires VerdictOf(Run(rt, a).data) == Verified && VerdictOf(Run(rt, b).data) == Verified
    requires Run(rt, a).data.rootExpected == Run(rt, b).data.rootExpected
    requires var preimages := JournalPreimages(sha, SplitAll(a)[..Committed(rt, a)])
                            + JournalPreimages(sha, SplitAll(b)[..Committed(rt, b)]);
             CollisionFree(sha, preimages) && forall x :: x in preimages ==> sha(x) != Merkle.ZERO_HASH
    ensures StripAll(a)[..Committed(rt, a)] == StripAll(b)[..Committed(rt, b)]
  {
    var i, j := Committed(rt, a), Committed(rt, b);
    SoundHashesAreHex(rt, a, i);
    SoundHashesAreHex(rt, b, j);
    EqualRootsEqualChains(sha, rt, SplitAll(a)[..i], SplitAll(b)[..j]);
    EqualPrefixSplitsEqualLines(rt, a, i, b, j);
  }

  // ── One bad row is one break ─────────────────────────────────────

  /** `st'` is `st` with exactly one break, recorded first. */
  ghost predicate OneBreakApart(st: State, st': State, at: Break) {
    && st.data.breaks == 0 && st.data.firstBreak.None? && st.breakLog == []
    && st'.data == st.data.(breaks := 1, firstBreak := Some(at.seqNo), firstBreakReason := Some(at.reason))
    && st'.leaves == st.leaves && st'.breakLog == [at]
  }

  lemma BreaksOnlyGrow(rt: Runtime, st: State, split: Option<Chained>)
    ensures StepSplit(rt, st, split).data.breaks >= st.data.breaks
    ensures StepSplit(rt, st, split).data.breaks == 0 && st.data.firstBreak.None? && st.breakLog == []
            ==> StepSplit(rt, st, split).data.firstBreak.None? && StepSplit(rt, st, split).breakLog == []
  {
  }

  lemma {:induction false} QuietRun(rt: Runtime, cs: Splits)
    requires RunSplits(rt, cs).data.breaks == 0
    ensures RunSplits(rt, cs).data.firstBreak.None? && RunSplits(rt, cs).breakLog == []
    ensures cs != [] ==> RunSplits(rt, cs[..|cs| - 1]).data.breaks == 0
  {
    if cs != [] {
      BreaksOnlyGrow(rt, RunSplits(rt, cs[..|cs| - 1]), cs[|cs| - 1]);
      QuietRun(rt, cs[..|cs| - 1]);
    }
  }

  lemma CheckLinkKeepsOneBreakApart(rt: Runtime, st: State, st': State, at: Break, seqNo: nat, c: Chained)
    requires OneBreakApart(st, st', at) && CheckLink(rt, st, seqNo, c).data.breaks == 0
    ensures CheckLink(rt, st, seqNo, c) == st && CheckLink(rt, st', seqNo, c) == st'
  {
  }

  lemma CloseSessionKeepsOneBreakApart(rt: Runtime, st: State, st': State, at: Break, seqNo: nat, o: Object)
    requires o.sessionRoot.Str? && OneBreakApart(st, st', at) && CloseSession(rt, st, seqNo, o).data.breaks == 0
    ensures OneBreakApart(CloseSession(rt, st, seqNo, o), CloseSession(rt, st', seqNo, o), at)
  {
  }

  /** A line that breaks nothing in one state breaks nothing in a state one break apart. */
  lemma StepKeepsOneBreakApart(rt: Runtime, st: State, st': State, at: Break, split: Option<Chained>)
    requires OneBreakApart(st, st', at) && StepSplit(rt, st, split).data.breaks == 0
    ensures OneBreakApart(StepSplit(rt, st, split), StepSplit(rt, st', split), at)
  {
    if split.Some? {
      StepChainedEffect(rt, st, split.value);
      var seqNo, c := st.data.entries, split.value;
      var a, b := CountHashed(CountEntry(st)), CountHashed(CountEntry(st'));
      CheckLinkKeepsOneBreakApart(rt, a, b, at, seqNo, c);
      var entry := rt.parse(c.preimage);
      if IsClosing(entry) {
        CloseSessionEffect(rt, a, seqNo, entry.value.obj);
        CloseSessionKeepsOneBreakApart(rt, a, b, at, seqNo, entry.value.obj);
      }
    }
  }

  /** The bad row itself: the same claimed hash over a preimage that does not hash to it. */
  lemma BadRowStep(rt: Runtime, st: State, good: Chained, bad: Chained)
    requires st.data.firstBreak.None? && st.breakLog == []
    requires StepSplit(rt, st, Some(good)).data.breaks == 0
    requires bad.hash == good.hash && rt.lineHash(bad.preimage) != bad.hash
    requires !IsClosing(rt.parse(good.preimage)) && !IsClosing(rt.parse(bad.preimage))
    ensures OneBreakApart(StepSplit(rt, st, Some(good)), StepSplit(rt, st, Some(bad)),
                          Break(st.data.entries, "hash_mismatch"))
  {
  }

  lemma {:induction false} OneBadSplitIsOneBreak(rt: Runtime, cs: Splits, i: nat, bad: Chained)
    requires i < |cs| && RunSplits(rt, cs).data.breaks == 0
    requires cs[i].Some? && bad.hash == cs[i].value.hash && rt.lineHash(bad.preimage) != bad.hash
    requires !IsClosing(rt.parse(cs[i].value.preimage)) && !IsClosing(rt.parse(bad.preimage))
    ensures OneBreakApart(RunSplits(rt, cs), RunSplits(rt, cs[i := Some(bad)]), Break(i, "hash_mismatch"))
    decreases |cs|
  {
    var n := |cs| - 1;
    QuietRun(rt, cs);
    if i == n {
      RunTracks(rt, cs[..n]);
      QuietRun(rt, cs[..n]);
      assert cs[i := Some(bad)][..n] == cs[..n];
      BadRowStep(rt, RunSplits(rt, cs[..n]), cs[n].value, bad);
    } else {
      OneBadSplitIsOneBreak(rt, cs[..n], i, bad);
      assert cs[i := Some(bad)][..n] == cs[..n][i := Some(bad)];
      StepKeepsOneBreakApart(rt, RunSplits(rt, cs[..n]), RunSplits(rt, cs[..n][i := Some(bad)]),
                             Break(i, "hash_mismatch"), cs[n]);
    }
  }

  /**
   * Replacing one non-closing line of a break-free journal by a non-closing line that keeps the
   * claimed hash but not the bytes gives exactly one break, at that line, whatever follows it.
   */
  lemma OneBadRowIsOneBreak(rt: Runtime, lines: seq<string>, i: nat, bad: string)
    requires i < |lines| && Run(rt, lines).data.breaks == 0
    requires SplitChainedLine(lines[i]).Some? && SplitChainedLine(bad).Some?
    requires SplitChainedLine(bad).value.hash == SplitChainedLine(lines[i]).value.hash
    requires rt.lineHash(SplitChainedLine(bad).value.preimage) != SplitChainedLine(bad).value.hash
    requires !IsClosing(rt.parse(SplitChainedLine(lines[i]).value.preimage))
    requires !IsClosing(rt.parse(SplitChainedLine(bad).value.preimage))
    ensures OneBreakApart(Run(rt, lines), Run(rt, lines[i := bad]), Break(i, "hash_mismatch"))
  {
    OneBadSplitIsOneBreak(rt, SplitAll(lines), i, SplitChainedLine(bad).value);
    assert SplitAll(lines[i := bad]) == SplitAll(lines)[i := SplitChainedLine(bad)];
  }

  // ── Verifying in several passes ──────────────────────────────────

  /** Feeding lines to a verifier that stands at `st`. */
  function RunFrom(rt: Runtime, st: State, lines: seq<string>): State {
    if lines == [] then st else Step(rt, RunFrom(rt, st, lines[..|lines| - 1]), lines[|lines| - 1])
  }

  /** What survives between passes: the persisted data and leaves. */
  function Resumed(st: State): State {
    State(st.data, st.leaves, [])
  }

  /** One verifier per pass, each taking up where the one before it stopped. */
  function RunPasses(rt: Runtime, passes: seq<seq<string>>): State {
    if passes == [] then INITIAL else RunFrom(rt, Resumed(RunPasses(rt, passes[..|passes| - 1])), passes[|passes| - 1])
  }

  function Joined(passes: seq<seq<string>>): seq<string> {
    if passes == [] then [] else Joined(passes[..|passes| - 1]) + passes[|passes| - 1]
  }

  predicate SameButTheLog(a: State, b: State) {
    a.data == b.data && a.leaves == b.leaves
  }

  lemma BreakIgnoresLog(a: State, b: State, seqNo: nat, reason: string)
    requires SameButTheLog(a, b)
    ensures SameButTheLog(BreakAt(a, seqNo, reason), BreakAt(b, seqNo, reason))
  {
  }

  lemma LinkIgnoresLog(rt: Runtime, a: State, b: State, seqNo: nat, c: Chained)
    requires SameButTheLog(a, b)
    ensures SameButTheLog(CheckLink(rt, a, seqNo, c), CheckLink(rt, b, seqNo, c))
  {
    var fault := LinkFault(rt, a.data, seqNo, c);
    if fault.Some? { BreakIgnoresLog(a, b, seqNo, fault.value); }
  }

  lemma CloseIgnoresLog(rt: Runtime, a: State, b: State, seqNo: nat, o: Object)
    requires SameButTheLog(a, b) && o.sessionRoot.Str?
    ensures SameButTheLog(CloseSession(rt, a, seqNo, o), CloseSession(rt, b, seqNo, o))
  {
  }

  lemma ChainedIgnoresLog(rt: Runtime, a: State, b: State, seqNo: nat, c: Chained)
    requires SameButTheLog(a, b)
    ensures SameButTheLog(StepChained(rt, a, seqNo, c), StepChained(rt, b, seqNo, c))
  {
    var entry, a', b' := rt.parse(c.preimage), CheckLink(rt, CountHashed(a), seqNo, c), CheckLink(rt, CountHashed(b), seqNo, c);
    LinkIgnoresLog(rt, CountHashed(a), CountHashed(b), seqNo, c);
    if IsClosing(entry) { CloseIgnoresLog(rt, a', b', seqNo, entry.value.obj); }
  }

  /** No step looks at the break log. */
  lemma StepIgnoresLog(rt: Runtime, a: State, b: State, line: string)
    requires SameButTheLog(a, b)
    ensures SameButTheLog(Step(rt, a, line), Step(rt, b, line))
  {
    var split, seqNo := SplitChainedLine(line), a.data.entries;
    match split
    case None => BreakIgnoresLog(CountEntry(a), CountEntry(b), seqNo, "unchained_line");
    case Some(c) => ChainedIgnoresLog(rt, CountEntry(a), CountEntry(b), seqNo, c);
  }

  lemma {:induction false} OnePassMore(rt: Runtime, st: State, before: seq<string>, lines: seq<string>)
    requires SameButTheLog(st, Run(rt, before))
    ensures SameButTheLog(RunFrom(rt, st, lines), Run(rt, before + lines))
  {
    if lines == [] {
      assert before + lines == before;
    } else {
      var init, last := lines[..|lines| - 1], lines[|lines| - 1];
      OnePassMore(rt, st, before, init);
      RunAppend(rt, before + init, last);
      assert before + init + [last] == before + lines;
      StepIgnoresLog(rt, RunFrom(rt, st, init), Run(rt, before + init), last);
    }
  }

  /** However a file is cut into passes, data, leaves and verdict are those of one pass over it all. */
  lemma {:induction false} PassesAreOnePass(rt: Runtime, passes: seq<seq<string>>)
    ensures SameButTheLog(RunPasses(rt, passes), Run(rt, Joined(passes)))
    ensures VerdictOf(RunPasses(rt, passes).data) == VerdictOf(Run(rt, Joined(passes)).data)
  {
    if passes != [] {
      var init := passes[..|passes| - 1];
      PassesAreOnePass(rt, init);
      OnePassMore(rt, Resumed(RunPasses(rt, init)), Joined(init), passes[|passes| - 1]);
    }
  }
}
