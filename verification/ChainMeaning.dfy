/**
 * The chain written out: what a chained line looks like, when a line is sound, which rules a closing record may
 * name, what its root is, and what a journal writes (packages/core/provenance.ts).
 */
module ChainMeaning {
  import opened Wrappers
  import opened Bytes
  import opened Text
  import opened Chain
  import opened ChainTheorems
  import HashTree
  import Merkle
  import Journal

  // ── A chained line ───────────────────────────────────────────────

  ghost predicate Ends(eol: string) {
    forall i :: 0 <= i < |eol| ==> eol[i] == '\r' || eol[i] == '\n'
  }

  ghost predicate Digits(h: string) {
    |h| == 64 && forall i :: 0 <= i < 64 ==> '0' <= h[i] <= '9' || 'a' <= h[i] <= 'f'
  }

  /** The preimage without its brace, `,"hash":"`, 64 lower-case hex digits, `"}`, and any ends of line. */
  ghost predicate IsChained(line: string, c: Chained) {
    exists head: string, eol: string ::
      head != "" && Digits(c.hash) && Ends(eol) && c.preimage == head + "}" && line == head + ",\"hash\":\"" + c.hash + "\"}" + eol
  }

  lemma {:induction false} StripEolMeans(s: string) returns (eol: string)
    ensures Ends(eol) && s == StripEol(s) + eol
    ensures StripEol(s) != "" ==> StripEol(s)[|StripEol(s)| - 1] != '\r' && StripEol(s)[|StripEol(s)| - 1] != '\n'
  {
    if s != "" && (s[|s| - 1] == '\r' || s[|s| - 1] == '\n') {
      var more := StripEolMeans(s[..|s| - 1]);
      eol := more + [s[|s| - 1]];
    } else {
      eol := "";
    }
  }

  lemma StripIsUnique(a: string, b: string, x: string, y: string)
    requires a + x == b + y && Ends(x) && Ends(y)
    requires a != "" ==> a[|a| - 1] != '\r' && a[|a| - 1] != '\n'
    requires b != "" ==> b[|b| - 1] != '\r' && b[|b| - 1] != '\n'
    ensures a == b
  {
    var s := a + x;
    assert a == s[..|a|] && b == s[..|b|];
    assert forall i :: |a| <= i < |s| ==> s[i] == x[i - |a|];
    assert forall i :: |b| <= i < |s| ==> s[i] == y[i - |b|];
    assert (a != "" ==> a[|a| - 1] == s[|a| - 1]) && (b != "" ==> b[|b| - 1] == s[|b| - 1]);
  }

  function TailOf(hash: string): string {
    ",\"hash\":\"" + hash + "\"}"
  }

  lemma TailParts(hash: string)
    requires |hash| == 64
    ensures var tail := TailOf(hash);
            |tail| == 75 && tail[..9] == HASH_KEY && tail[9..73] == hash && tail[73..] == "\"}"
  {
  }

  lemma TailIs(tail: string)
    requires |tail| == 75 && tail[..9] == HASH_KEY && tail[73..] == "\"}"
    ensures tail == TailOf(tail[9..73])
  {
    assert tail == tail[..9] + tail[9..73] + tail[73..];
  }

  lemma SplitFinds(line: string, c: Chained)
    requires SplitChainedLine(line) == Some(c)
    ensures IsChained(line, c)
  {
    var trimmed := StripEol(line);
    var eol := StripEolMeans(line);
    var n := |trimmed| - 75;
    var head, tail := trimmed[..n], trimmed[n..];
    assert tail[73..] == trimmed[|trimmed| - 2..];
    TailIs(tail);
    assert tail[9..73] == c.hash;
    assert trimmed == head + tail;
    assert line == head + ",\"hash\":\"" + c.hash + "\"}" + eol;
  }

  lemma StripsTo(line: string, body: string, eol: string)
    requires line == body + eol && Ends(eol) && body != "" && body[|body| - 1] == '}'
    ensures StripEol(line) == body
  {
    var x := StripEolMeans(line);
    StripIsUnique(StripEol(line), body, x, eol);
  }

  lemma BodyParts(head: string, hash: string)
    requires |hash| == 64
    ensures var body := head + TailOf(hash);
            && |body| == |head| + 75 && body[..|body| - 75] == head && body[|body| - 75..] == TailOf(hash)
            && body[|body| - 2..] == "\"}" && body[|body| - 1] == '}'
  {
    var body := head + TailOf(hash);
    TailParts(hash);
    assert body[|body| - 2..] == TailOf(hash)[73..];
  }

  lemma SplitOfParts(line: string, body: string, head: string, tail: string, hash: string)
    requires StripEol(line) == body && head != "" && |body| == |head| + 75 && body[..|body| - 75] == head && body[|body| - 75..] == tail
    requires body[|body| - 2..] == "\"}" && tail[..9] == HASH_KEY && tail[9..73] == hash && Digits(hash)
    ensures SplitChainedLine(line) == Some(Chained(head + "}", hash))
  {
  }

  lemma TailSplits(line: string, body: string, head: string, hash: string)
    requires StripEol(line) == body && head != "" && Digits(hash) && body == head + TailOf(hash)
    ensures SplitChainedLine(line) == Some(Chained(head + "}", hash))
  {
    BodyParts(head, hash);
    TailParts(hash);
    SplitOfParts(line, body, head, TailOf(hash), hash);
  }

  lemma ChainedSplits(line: string, c: Chained)
    requires IsChained(line, c)
    ensures SplitChainedLine(line) == Some(c)
  {
    var head: string, eol: string :|
      head != "" && Digits(c.hash) && Ends(eol) && c.preimage == head + "}" && line == head + ",\"hash\":\"" + c.hash + "\"}" + eol;
    var body := head + TailOf(c.hash);
    assert line == body + eol;
    StripsTo(line, body, eol);
    TailSplits(line, body, head, c.hash);
  }

  /** Splitting finds exactly that. */
  lemma SplitIff(line: string, c: Chained)
    ensures SplitChainedLine(line) == Some(c) <==> IsChained(line, c)
  {
    if SplitChainedLine(line) == Some(c) { SplitFinds(line, c); }
    if IsChained(line, c) { ChainedSplits(line, c); }
  }

  // ── A sound line ─────────────────────────────────────────────────

  /** A session record that is closed and carries a root. */
  ghost predicate Closes(o: Object) {
    o.kind == Str("session") && o.status == Str("closed") && o.sessionRoot.Str?
  }

  /** Not named as a string, named as the empty string, or the one we know. */
  ghost predicate Knows(named: Json, ours: string) {
    named.Str? ==> named.s == "" || named.s == ours
  }

  ghost predicate KnowsItsRules(o: Object) {
    Knows(o.merkleVersion, "merkle-v1") && Knows(o.encodingVersion, "jsonl-bytes-v1") && Knows(o.rootSemantics, "SEQUENCE")
  }

  /** The link to the line before: its hash, or nothing at all for the first line. */
  ghost predicate Links(o: Object, cs: Splits, i: nat)
    requires i < |cs| && (i > 0 ==> cs[i - 1].Some?)
  {
    if i == 0 then o.prevHash == Undefined || o.prevHash == Null else o.prevHash == Str(cs[i - 1].value.hash)
  }

  /** Every line up to `i` is chained; line `i` hashes to its claim, is an object, links, and closes only honestly. */
  ghost predicate LineIsSound(rt: Runtime, cs: Splits, i: nat)
    requires i < |cs|
  {
    && (forall j :: 0 <= j <= i ==> cs[j].Some?)
    && rt.lineHash(cs[i].value.preimage) == cs[i].value.hash
    && match rt.parse(cs[i].value.preimage)
       case Some(Obj(o)) =>
         Links(o, cs, i) && (Closes(o) ==> KnowsItsRules(o) && o.sessionRoot == Str(rt.sessionRoot(HashesBefore(cs, i))))
       case _ => false
  }

  function HashesBefore(cs: Splits, i: nat): (hs: seq<string>)
    requires i <= |cs| && forall j :: 0 <= j < i ==> cs[j].Some?
    ensures |hs| == i && forall j :: 0 <= j < i ==> hs[j] == cs[j].value.hash
  {
    seq(i, j requires 0 <= j < i => cs[j].value.hash)
  }

  lemma LinksIff(o: Object, cs: Splits, i: nat)
    requires i < |cs| && (i > 0 ==> cs[i - 1].Some?)
    ensures PrevIs(o, HeadOf(cs[..i])) <==> Links(o, cs, i)
  {
    if i > 0 { assert HeadOf(cs[..i]) == Some(cs[i - 1].value.hash); }
  }

  lemma SoundAtIff(rt: Runtime, cs: Splits, i: nat)
    requires i < |cs| && forall j :: 0 <= j < i ==> cs[j].Some?
    ensures SoundAt(rt, cs, i) <==> LineIsSound(rt, cs, i)
  {
    assert Hashes(cs[..i]) == HashesBefore(cs, i);
    if cs[i].Some? {
      var entry := rt.parse(cs[i].value.preimage);
      if entry.Some? && entry.value.Obj? { LinksIff(entry.value.obj, cs, i); }
    }
  }

  ghost predicate AllSound(rt: Runtime, cs: Splits) {
    forall i :: 0 <= i < |cs| ==> LineIsSound(rt, cs, i)
  }

  ghost predicate SomeCloses(rt: Runtime, cs: Splits) {
    exists i :: 0 <= i < |cs| && cs[i].Some? && rt.parse(cs[i].value.preimage).Some?
                && rt.parse(cs[i].value.preimage).value.Obj? && Closes(rt.parse(cs[i].value.preimage).value.obj)
  }

  lemma {:induction false} AllSoundIff(rt: Runtime, cs: Splits)
    ensures Sound(rt, cs) <==> AllSound(rt, cs)
  {
    if Sound(rt, cs) {
      forall i | 0 <= i < |cs| ensures cs[i].Some? { assert SoundAt(rt, cs, i); }
    }
    if AllSound(rt, cs) {
      forall i | 0 <= i < |cs| ensures cs[i].Some? { assert LineIsSound(rt, cs, i); }
    }
    if Sound(rt, cs) || AllSound(rt, cs) {
      forall i | 0 <= i < |cs| ensures SoundAt(rt, cs, i) <==> LineIsSound(rt, cs, i) { SoundAtIff(rt, cs, i); }
    }
  }

  lemma ClosesIff(rt: Runtime, cs: Splits)
    ensures SomeCloses(rt, cs) <==> exists i :: 0 <= i < |cs| && ClosesAt(rt, cs, i)
  {
    if SomeCloses(rt, cs) {
      var i :| 0 <= i < |cs| && cs[i].Some? && rt.parse(cs[i].value.preimage).Some?
               && rt.parse(cs[i].value.preimage).value.Obj? && Closes(rt.parse(cs[i].value.preimage).value.obj);
      assert ClosesAt(rt, cs, i);
    }
  }

  /** The four verdicts on any lines, in the words of the format. */
  lemma VerdictIs(rt: Runtime, lines: seq<string>)
    ensures var cs, v := SplitAll(lines), VerdictOf(Run(rt, lines).data);
            v == if forall i :: 0 <= i < |cs| ==> cs[i].None? then Unchained
                 else if !AllSound(rt, cs) then Corrupted
                 else if SomeCloses(rt, cs) then Verified else Open
  {
    VerdictMeans(rt, lines);
    AllSoundIff(rt, SplitAll(lines));
    ClosesIff(rt, SplitAll(lines));
  }

  /** A closing record that names a rule this reader does not know corrupts whatever lane it stands in. */
  lemma UnknownRulesCorrupt(rt: Runtime, lines: seq<string>, i: nat, c: Chained, o: Object)
    requires i < |lines| && IsChained(lines[i], c) && rt.parse(c.preimage) == Some(Obj(o))
    requires o.kind == Str("session") && o.status == Str("closed") && o.sessionRoot.Str?
    requires || (o.merkleVersion.Str? && o.merkleVersion.s != "" && o.merkleVersion.s != "merkle-v1")
             || (o.encodingVersion.Str? && o.encodingVersion.s != "" && o.encodingVersion.s != "jsonl-bytes-v1")
             || (o.rootSemantics.Str? && o.rootSemantics.s != "" && o.rootSemantics.s != "SEQUENCE")
    ensures Run(rt, lines).data.breaks > 0 && VerdictOf(Run(rt, lines).data) == Corrupted
  {
    SplitIff(lines[i], c);
    var cs := SplitAll(lines);
    assert cs[i] == Some(c);
    assert !LineIsSound(rt, cs, i);
    VerdictIs(rt, lines);
  }

  // ── What a line is told for, and what a record leaves ────────────

  /** The first fault a chained line shows, in the order the checks come. */
  lemma FaultIs(rt: Runtime, st: State, c: Chained, fault: string)
    ensures var d := CountHashed(CountEntry(st)).data;
            var entry := rt.parse(c.preimage);
            var linked := entry.Some? && entry.value.Obj?
                          && match st.data.lastHash
                             case None => entry.value.obj.prevHash == Undefined || entry.value.obj.prevHash == Null
                             case Some(h) => entry.value.obj.prevHash == Str(h);
            LinkFault(rt, d, st.data.entries, c) == Some(fault)
            <==> || (fault == "hash_mismatch" && rt.lineHash(c.preimage) != c.hash)
                 || (rt.lineHash(c.preimage) == c.hash
                     && (|| (fault == "unparseable" && (entry.None? || !entry.value.Obj?))
                         || (fault == "prev_mismatch" && entry.Some? && entry.value.Obj? && !linked)
                         || (fault == "late_genesis" && linked && st.data.entries > 0 && st.data.hashed == 0)))
  {
    var entry := rt.parse(c.preimage);
    if entry.Some? && entry.value.Obj? {
      assert PrevIs(entry.value.obj, st.data.lastHash)
             <==> match st.data.lastHash
                  case None => entry.value.obj.prevHash == Undefined || entry.value.obj.prevHash == Null
                  case Some(h) => entry.value.obj.prevHash == Str(h);
    }
  }

  ghost predicate Reports(reported: Option<string>, named: Json) {
    match named
    case Str(s) => reported == Some(s)
    case _ => reported == None
  }

  ghost predicate ReportsRules(d: Data, o: Object) {
    && Reports(d.hashVersion, o.hashVersion) && Reports(d.merkleVersion, o.merkleVersion)
    && Reports(d.encodingVersion, o.encodingVersion) && Reports(d.rootSemantics, o.rootSemantics)
  }

  lemma CloseReports(rt: Runtime, st: State, seqNo: nat, o: Object)
    requires o.sessionRoot.Str?
    ensures var d := CloseSession(rt, st, seqNo, o).data;
            && d.rootSeq == Some(seqNo) && d.rootExpected == Some(o.sessionRoot.s)
            && d.rootComputed == Some(rt.sessionRoot(st.leaves)) && ReportsRules(d, o)
  {
    var named := st.(data := st.data.(
      rootExpected := AsStr(o.sessionRoot), rootSeq := Some(seqNo),
      hashVersion := AsStr(o.hashVersion), merkleVersion := AsStr(o.merkleVersion),
      encodingVersion := AsStr(o.encodingVersion), rootSemantics := AsStr(o.rootSemantics)));
    BreakKeepsTheRest(named, seqNo, "unknown_rules");
    var ruled := if RulesKnown(o) then named else BreakAt(named, seqNo, "unknown_rules");
    BreakKeepsTheRest(ruled.(data := ruled.data.(rootComputed := Some(rt.sessionRoot(st.leaves)))), seqNo, "root_mismatch");
    assert ReportsRules(named.data, o);
  }

  ghost predicate SameClose(d: Data, e: Data) {
    && d.rootSeq == e.rootSeq && d.rootExpected == e.rootExpected && d.rootComputed == e.rootComputed
    && d.hashVersion == e.hashVersion && d.merkleVersion == e.merkleVersion
    && d.encodingVersion == e.encodingVersion && d.rootSemantics == e.rootSemantics
  }

  lemma BreakKeepsTheRest(st: State, seqNo: nat, reason: string)
    ensures BreakAt(st, seqNo, reason).leaves == st.leaves && SameClose(BreakAt(st, seqNo, reason).data, st.data)
  {
  }

  lemma LinkKeepsLeaves(rt: Runtime, st: State, seqNo: nat, c: Chained)
    ensures CheckLink(rt, st, seqNo, c).leaves == st.leaves
  {
  }

  lemma StepCloses(rt: Runtime, st: State, seqNo: nat, c: Chained, o: Object)
    requires rt.parse(c.preimage) == Some(Obj(o)) && Closes(o)
    ensures StepChained(rt, st, seqNo, c) == Follow(CloseSession(rt, CheckLink(rt, CountHashed(st), seqNo, c), seqNo, o), c.hash)
  {
    assert IsClosing(rt.parse(c.preimage));
  }

  /** After a closing record the verifier reports where it stood, the root it claims, the root found, and the rules it names. */
  lemma ClosingIsReported(rt: Runtime, st: State, c: Chained, o: Object)
    requires rt.parse(c.preimage) == Some(Obj(o)) && Closes(o)
    ensures var d := StepSplit(rt, st, Some(c)).data;
            && d.rootSeq == Some(st.data.entries) && d.rootExpected == Some(o.sessionRoot.s)
            && d.rootComputed == Some(rt.sessionRoot(st.leaves)) && ReportsRules(d, o)
  {
    var seqNo, counted := st.data.entries, CountEntry(st);
    StepCloses(rt, counted, seqNo, c, o);
    LinkKeepsLeaves(rt, CountHashed(counted), seqNo, c);
    CloseReports(rt, CheckLink(rt, CountHashed(counted), seqNo, c), seqNo, o);
  }

  // ── The root, byte by byte ───────────────────────────────────────

  lemma Utf8One(c: char)
    ensures Utf8([c]) == EncodeChar(c)
  {
    assert [c][1..] == "";
  }

  /** One text of each length of encoding (section 3 of RFC 3629). */
  lemma Utf8Examples()
    ensures Utf8("A") == [0x41] && Utf8("\U{E9}") == [0xC3, 0xA9]
    ensures Utf8("\U{20AC}") == [0xE2, 0x82, 0xAC] && Utf8("\U{1F600}") == [0xF0, 0x9F, 0x98, 0x80]
  {
    Utf8One('A');
    Utf8One('\U{E9}');
    Utf8One('\U{20AC}');
    Utf8One('\U{1F600}');
  }

  /** Either case of hex reads the same, and reading stops at what is not hex. */
  lemma HexExamples()
    ensures FromHex("0aF9") == [10, 249] && FromHex("7fg0") == [127] && FromHex("7f0") == [127]
  {
    assert "0aF9"[2..] == "F9" && "F9"[2..] == "";
    assert "7fg0"[2..] == "g0" && "7f0"[2..] == "0";
  }

  lemma RootOfThreeLeaves<T>(node: (T, T) -> T, x: T, y: T, z: T)
    ensures HashTree.Root(node, [x, y, z]) == node(node(x, y), node(z, z))
  {
    var next := HashTree.NextLayer(node, [x, y, z]);
    assert next == [node(x, y), node(z, z)];
    var top := HashTree.NextLayer(node, next);
    assert top == [node(next[0], next[1])];
    assert HashTree.Root(node, [x, y, z]) == HashTree.Root(node, next) == HashTree.Root(node, top) == top[0];
  }

  lemma LeavesOfThree(sha: HashFn, a: string, b: string, c: string)
    ensures Merkle.HashLeaves(sha, DecodeHashes([a, b, c])) == [sha([0] + FromHex(a)), sha([0] + FromHex(b)), sha([0] + FromHex(c))]
  {
  }

  /** The root over three line hashes: leaves under a zero byte, nodes under a three, the odd leaf beside itself. */
  lemma RootOfThree(sha: HashFn, a: string, b: string, c: string)
    ensures var x, y, z := sha([0] + FromHex(a)), sha([0] + FromHex(b)), sha([0] + FromHex(c));
            SessionRoot(sha, [a, b, c]) == ToHex(sha([3] + sha([3] + x + y) + sha([3] + z + z)))
  {
    LeavesOfThree(sha, a, b, c);
    RootOfThreeLeaves(Merkle.Combiner(sha), sha([0] + FromHex(a)), sha([0] + FromHex(b)), sha([0] + FromHex(c)));
  }

  lemma ZeroHashIs(zeros: seq<Byte>)
    requires |zeros| == 32 && forall i :: 0 <= i < 32 ==> zeros[i] == 0
    ensures Merkle.ZERO_HASH == zeros
  {
  }

  lemma NoLeaves(sha: HashFn)
    ensures SessionRoot(sha, []) == ToHex(Merkle.ZERO_HASH)
  {
    assert Merkle.HashLeaves(sha, DecodeHashes([])) == [];
  }

  /** Of no lines at all, thirty-two zero bytes. */
  lemma RootOfNone(sha: HashFn, zeros: seq<Byte>)
    requires |zeros| == 32 && forall i :: 0 <= i < 32 ==> zeros[i] == 0
    ensures SessionRoot(sha, []) == ToHex(zeros)
  {
    ZeroHashIs(zeros);
    NoLeaves(sha);
  }

  // ── What a journal writes ────────────────────────────────────────

  /** The entry, with the hash it may carry gone and the link set. */
  ghost predicate IsBody(o: Object, entry: Object, prev: Option<string>) {
    && o.hash == Undefined && o.prevHash == (match prev case None => Null case Some(h) => Str(h))
    && o.kind == entry.kind && o.status == entry.status && o.sessionRoot == entry.sessionRoot
    && o.hashVersion == entry.hashVersion && o.merkleVersion == entry.merkleVersion
    && o.encodingVersion == entry.encodingVersion && o.rootSemantics == entry.rootSemantics && o.rest == entry.rest
  }

  /** The text added to a file is the printed body with the tail before its brace, and an end of line. */
  ghost predicate WritesBody(w: Journal.Writer, before: Journal.Session, after: Journal.Session, o: Object) {
    var text, hash := w.stringify(o), w.rt.lineHash(w.stringify(o));
    && text != "" && after.content.Some?
    && after.content.value == (if before.content.Some? then before.content.value else "")
                              + text[..|text| - 1] + ",\"hash\":\"" + hash + "\"}" + "\n"
    && after.known == Some(Journal.Recovered(before) + [hash])
  }

  /** One write: the caller's entry, linked to the last hash the journal knows. */
  lemma AppendWrites(w: Journal.Writer, s: Journal.Session, entry: Object) returns (o: Object)
    requires Journal.JsonWorks(w)
    ensures var known := Journal.Recovered(s);
            IsBody(o, entry, if known == [] then None else Some(known[|known| - 1]))
            && WritesBody(w, s, Journal.Apply(w, s, Journal.Append(entry)), o)
  {
    o := Journal.Body(entry, Journal.LastOf(Journal.Recovered(s)));
    assert Journal.PrintsBack(w, o);
  }

  /** The closing record: the caller's, a closed session, the root over every hash before it, and the four rules it was made under. */
  lemma CloseWrites(w: Journal.Writer, s: Journal.Session, record: Object) returns (o: Object)
    requires Journal.JsonWorks(w)
    ensures var known := Journal.Recovered(s);
            && WritesBody(w, s, Journal.Apply(w, s, Journal.Close(record)), o)
            && o.hash == Undefined && o.prevHash == (if known == [] then Null else Str(known[|known| - 1]))
            && o.kind == Str("session") && o.status == Str("closed") && o.sessionRoot == Str(w.rt.sessionRoot(known))
            && o.hashVersion == Str("unfirehose-chain-v1") && o.merkleVersion == Str("merkle-v1")
            && o.encodingVersion == Str("jsonl-bytes-v1") && o.rootSemantics == Str("SEQUENCE") && o.rest == record.rest
  {
    var known := Journal.Recovered(s);
    o := Journal.Body(Journal.ClosedRecord(w, record, known), Journal.LastOf(known));
    assert Journal.PrintsBack(w, o);
  }
}
