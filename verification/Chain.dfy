/**
 * The unfirehose-chain-v1 line rule and its incremental verifier
 * (packages/core/provenance.ts, `splitChainedLine` and `ChainState`).
 */
module Chain {
  import opened Wrappers
  import opened Bytes
  import opened Text
  import Merkle

  const CHAIN_VERSION := "unfirehose-chain-v1"
  const MERKLE_VERSION := "merkle-v1"
  const ENCODING_VERSION := "jsonl-bytes-v1"
  const ROOT_SEMANTICS := "SEQUENCE"
  const SESSION := "session"
  const CLOSED := "closed"
  const HASH_KEY := ",\"hash\":\""
  const TAIL_LEN := 75
  const BREAK_LOG_CAP := 1000

  /** A parsed value; `Undefined` is the value of a property an object does not have. */
  datatype Json = Undefined | Null | Bool(b: bool) | Num(n: real) | Str(s: string) | Arr(items: seq<Json>) | Obj(obj: Object)

  /** An object: the properties this code names (`kind` is `type`), and the rest. */
  datatype Object = Object(
    kind: Json, status: Json, prevHash: Json, hash: Json, sessionRoot: Json,
    hashVersion: Json, merkleVersion: Json, encodingVersion: Json, rootSemantics: Json, rest: map<string, Json>)

  /** What the state machine calls: the hash of a line, the root over hashes, and `JSON.parse` (None where it throws). */
  datatype Runtime = Runtime(lineHash: string -> string, sessionRoot: seq<string> -> string, parse: string -> Option<Json>)

  // ── The line rule ────────────────────────────────────────────────

  datatype Chained = Chained(preimage: string, hash: string)

  function SplitChainedLine(line: string): (r: Option<Chained>)
    ensures r.Some? ==> IsHex64(r.value.hash) && r.value.preimage != ""
  {
    var trimmed := StripEol(line);
    if |trimmed| < TAIL_LEN + 1 || trimmed[|trimmed| - 2..] != "\"}" then None
    else
      var tail := trimmed[|trimmed| - TAIL_LEN..];
      if tail[..|HASH_KEY|] != HASH_KEY then None
      else
        var hash := tail[|HASH_KEY|..TAIL_LEN - 2];
        if !IsHex64(hash) then None
        else Some(Chained(trimmed[..|trimmed| - TAIL_LEN] + "}", hash))
  }

  /** The chained line over a preimage that ends in `}`: the tail goes in before the brace. */
  function JoinChainedLine(c: Chained): string
    requires c.preimage != ""
  {
    c.preimage[..|c.preimage| - 1] + HASH_KEY + c.hash + "\"}"
  }

  function LineHash(sha: HashFn, preimage: string): (h: string)
    ensures |h| == 64
  {
    ToHex(sha(Utf8(preimage)))
  }

  function DecodeHashes(hashes: seq<string>): (r: seq<seq<Byte>>)
    ensures |r| == |hashes| && forall i :: 0 <= i < |r| ==> r[i] == FromHex(hashes[i])
  {
    seq(|hashes|, i requires 0 <= i < |hashes| => FromHex(hashes[i]))
  }

  /** merkle-v1 root over line hashes, hex. */
  function SessionRoot(sha: HashFn, hashes: seq<string>): string {
    ToHex(Merkle.RootOf(sha, Merkle.HashLeaves(sha, DecodeHashes(hashes))))
  }

  /** The runtime of the real code, over a hash function and a JSON parser this model leaves open. */
  function RuntimeOver(sha: HashFn, parse: string -> Option<Json>): Runtime {
    Runtime((p: string) => LineHash(sha, p), (hs: seq<string>) => SessionRoot(sha, hs), parse)
  }

  // ── Verifier state ───────────────────────────────────────────────

  datatype Data = Data(
    entries: nat, hashed: nat, breaks: nat, firstBreak: Option<nat>, firstBreakReason: Option<string>,
    lastHash: Option<string>, rootExpected: Option<string>, rootComputed: Option<string>, rootSeq: Option<nat>,
    hashVersion: Option<string>, merkleVersion: Option<string>, encodingVersion: Option<string>,
    rootSemantics: Option<string>)

  const EMPTY_DATA := Data(0, 0, 0, None, None, None, None, None, None, None, None, None, None)

  datatype Break = Break(seqNo: nat, reason: string)
  datatype State = State(data: Data, leaves: seq<string>, breakLog: seq<Break>)

  const INITIAL := State(EMPTY_DATA, [], [])

  datatype Verdict = Unchained | Open | Verified | Corrupted

  function VerdictOf(d: Data): Verdict {
    if d.hashed == 0 then Unchained
    else if d.breaks > 0 then Corrupted
    else if d.rootExpected.Some? then Verified else Open
  }

  // ── Reading an entry ─────────────────────────────────────────────

  function AsStr(v: Json): Option<string> {
    if v.Str? then Some(v.s) else None
  }

  /** A closed session record that carries a root. */
  predicate IsClosing(entry: Option<Json>) {
    && entry.Some? && entry.value.Obj?
    && entry.value.obj.kind == Str(SESSION) && entry.value.obj.status == Str(CLOSED)
    && entry.value.obj.sessionRoot.Str?
  }

  /** `(entry.prevHash ?? null) === last`. */
  predicate PrevIs(o: Object, last: Option<string>) {
    match o.prevHash
    case Undefined => last.None?
    case Null => last.None?
    case Str(s) => last == Some(s)
    case _ => false
  }

  /** A rule the record does not name, or names as the empty string, is this reader's default. */
  predicate RuleKnown(named: Option<string>, ours: string) {
    named.None? || named.value == "" || named.value == ours
  }

  predicate RulesKnown(o: Object) {
    && RuleKnown(AsStr(o.merkleVersion), MERKLE_VERSION)
    && RuleKnown(AsStr(o.encodingVersion), ENCODING_VERSION)
    && RuleKnown(AsStr(o.rootSemantics), ROOT_SEMANTICS)
  }

  // ── One step, as a function ──────────────────────────────────────

  function CountEntry(st: State): State {
    State(st.data.(entries := st.data.entries + 1), st.leaves, st.breakLog)
  }

  function CountHashed(st: State): State {
    State(st.data.(hashed := st.data.hashed + 1), st.leaves, st.breakLog)
  }

  function Follow(st: State, hash: string): State {
    State(st.data.(lastHash := Some(hash)), st.leaves + [hash], st.breakLog)
  }

  function BreakAt(st: State, seqNo: nat, reason: string): State {
    var d := st.data.(breaks := st.data.breaks + 1);
    var d' := if d.firstBreak.None? then d.(firstBreak := Some(seqNo), firstBreakReason := Some(reason)) else d;
    State(d', st.leaves, if |st.breakLog| < BREAK_LOG_CAP then st.breakLog + [Break(seqNo, reason)] else st.breakLog)
  }

  /** The first rule a chained line breaks on its own, if any. */
  function LinkFault(rt: Runtime, d: Data, seqNo: nat, c: Chained): Option<string> {
    var entry := rt.parse(c.preimage);
    if rt.lineHash(c.preimage) != c.hash then Some("hash_mismatch")
    else if entry.None? || !entry.value.Obj? then Some("unparseable")
    else if !PrevIs(entry.value.obj, d.lastHash) then Some("prev_mismatch")
    else if seqNo != 0 && d.hashed == 1 then Some("late_genesis")
    else None
  }

  function CloseSession(rt: Runtime, st: State, seqNo: nat, o: Object): State
    requires o.sessionRoot.Str?
  {
    var named := st.(data := st.data.(
      rootExpected := AsStr(o.sessionRoot), rootSeq := Some(seqNo),
      hashVersion := AsStr(o.hashVersion), merkleVersion := AsStr(o.merkleVersion),
      encodingVersion := AsStr(o.encodingVersion), rootSemantics := AsStr(o.rootSemantics)));
    var ruled := if RulesKnown(o) then named else BreakAt(named, seqNo, "unknown_rules");
    var rooted := ruled.(data := ruled.data.(rootComputed := Some(rt.sessionRoot(st.leaves))));
    if rooted.data.rootComputed != rooted.data.rootExpected then BreakAt(rooted, seqNo, "root_mismatch") else rooted
  }

  function CheckLink(rt: Runtime, st: State, seqNo: nat, c: Chained): State {
    var fault := LinkFault(rt, st.data, seqNo, c);
    if fault.Some? then BreakAt(st, seqNo, fault.value) else st
  }

  /** A line in chained shape, already counted as an entry; its claimed hash is followed whatever the verdict. */
  function StepChained(rt: Runtime, st: State, seqNo: nat, c: Chained): State {
    var linked := CheckLink(rt, CountHashed(st), seqNo, c);
    var entry := rt.parse(c.preimage);
    Follow(if IsClosing(entry) then CloseSession(rt, linked, seqNo, entry.value.obj) else linked, c.hash)
  }

  function StepSplit(rt: Runtime, st: State, split: Option<Chained>): State {
    match split
    case None =>
      if st.data.hashed > 0 then BreakAt(CountEntry(st), st.data.entries, "unchained_line") else CountEntry(st)
    case Some(c) => StepChained(rt, CountEntry(st), st.data.entries, c)
  }

  function Step(rt: Runtime, st: State, line: string): State {
    StepSplit(rt, st, SplitChainedLine(line))
  }

  function RunSplits(rt: Runtime, splits: seq<Option<Chained>>): State {
    if splits == [] then INITIAL
    else StepSplit(rt, RunSplits(rt, splits[..|splits| - 1]), splits[|splits| - 1])
  }

  function SplitAll(lines: seq<string>): (splits: seq<Option<Chained>>)
    ensures |splits| == |lines| && forall i :: 0 <= i < |lines| ==> splits[i] == SplitChainedLine(lines[i])
  {
    seq(|lines|, i requires 0 <= i < |lines| => SplitChainedLine(lines[i]))
  }

  /** Feeding every line to a fresh verifier. */
  function Run(rt: Runtime, lines: seq<string>): State {
    RunSplits(rt, SplitAll(lines))
  }

  lemma RunAppend(rt: Runtime, lines: seq<string>, line: string)
    ensures Run(rt, lines + [line]) == Step(rt, Run(rt, lines), line)
  {
    assert SplitAll(lines + [line])[..|lines|] == SplitAll(lines);
  }

  function NonBlank(lines: seq<string>): seq<string> {
    if lines == [] then []
    else
      var init, last := lines[..|lines| - 1], lines[|lines| - 1];
      if IsBlank(last) then NonBlank(init) else NonBlank(init) + [last]
  }

  // ── The verifier ─────────────────────────────────────────────────

  class ChainState {
    const rt: Runtime
    var data: Data
    var leaves: seq<string>
    var breakLog: seq<Break>

    function View(): State
      reads this
    {
      State(data, leaves, breakLog)
    }

    /** Resumes from persisted data and leaves; the break log always starts empty. */
    constructor (rt: Runtime, data: Data, leaves: seq<string>)
      ensures this.rt == rt && View() == State(data, leaves, [])
    {
      this.rt := rt;
      this.data := data;
      this.leaves := leaves;
      this.breakLog := [];
    }

    method RecordBreak(seqNo: nat, reason: string)
      modifies this
      ensures View() == BreakAt(old(View()), seqNo, reason)
    {
      data := data.(breaks := data.breaks + 1);
      if data.firstBreak.None? {
        data := data.(firstBreak := Some(seqNo), firstBreakReason := Some(reason));
      }
      if |breakLog| < BREAK_LOG_CAP {
        breakLog := breakLog + [Break(seqNo, reason)];
      }
    }

    /** The closed-record branch of `Feed`. */
    method RecordClose(seqNo: nat, o: Object)
      requires o.sessionRoot.Str?
      modifies this
      ensures View() == CloseSession(rt, old(View()), seqNo, o)
    {
      data := data.(
        rootExpected := AsStr(o.sessionRoot), rootSeq := Some(seqNo),
        hashVersion := AsStr(o.hashVersion), merkleVersion := AsStr(o.merkleVersion),
        encodingVersion := AsStr(o.encodingVersion), rootSemantics := AsStr(o.rootSemantics));
      if !RuleKnown(data.merkleVersion, MERKLE_VERSION) || !RuleKnown(data.encodingVersion, ENCODING_VERSION)
         || !RuleKnown(data.rootSemantics, ROOT_SEMANTICS) {
        RecordBreak(seqNo, "unknown_rules");
      }
      data := data.(rootComputed := Some(rt.sessionRoot(leaves)));
      if data.rootComputed != data.rootExpected {
        RecordBreak(seqNo, "root_mismatch");
      }
    }

    /** The link checks of `Feed`, first fault wins. */
    method RecordLink(seqNo: nat, c: Chained, entry: Option<Json>)
      requires entry == rt.parse(c.preimage)
      modifies this
      ensures View() == CheckLink(rt, old(View()), seqNo, c)
    {
      if rt.lineHash(c.preimage) != c.hash {
        RecordBreak(seqNo, "hash_mismatch");
      } else if entry.None? || !entry.value.Obj? {
        RecordBreak(seqNo, "unparseable");
      } else if !PrevIs(entry.value.obj, data.lastHash) {
        RecordBreak(seqNo, "prev_mismatch");
      } else if seqNo != 0 && data.hashed == 1 {
        RecordBreak(seqNo, "late_genesis");
      }
    }

    /** `Feed` once the line has been split. */
    method FeedSplit(split: Option<Chained>) returns (claimed: Option<string>)
      modifies this
      ensures View() == StepSplit(rt, old(View()), split)
      ensures claimed == if split.Some? then Some(split.value.hash) else None
    {
      var seqNo := data.entries;
      data := data.(entries := seqNo + 1);
      if split.None? {
        if data.hashed > 0 {
          RecordBreak(seqNo, "unchained_line");
        }
        return None;
      }
      var entry := rt.parse(split.value.preimage);
      data := data.(hashed := data.hashed + 1);
      assert View() == CountHashed(CountEntry(old(View())));
      RecordLink(seqNo, split.value, entry);
      if IsClosing(entry) {
        RecordClose(seqNo, entry.value.obj);
      }
      data := data.(lastHash := Some(split.value.hash));
      leaves := leaves + [split.value.hash];
      return Some(split.value.hash);
    }

    method Feed(line: string) returns (claimed: Option<string>)
      modifies this
      ensures View() == Step(rt, old(View()), line)
      ensures var c := SplitChainedLine(line); claimed == if c.Some? then Some(c.value.hash) else None
    {
      claimed := FeedSplit(SplitChainedLine(line));
    }
  }

  /** The verdict on a whole journal: blank lines skipped, every other fed in order. */
  method VerifyLines(rt: Runtime, lines: seq<string>) returns (data: Data, verdict: Verdict)
    ensures data == Run(rt, NonBlank(lines)).data && verdict == VerdictOf(data)
  {
    var st := new ChainState(rt, EMPTY_DATA, []);
    var k := 0;
    while k < |lines|
      invariant 0 <= k <= |lines|
      invariant st.rt == rt && st.View() == Run(rt, NonBlank(lines[..k]))
    {
      assert lines[..k + 1][..k] == lines[..k];
      if !IsBlank(lines[k]) {
        RunAppend(rt, NonBlank(lines[..k]), lines[k]);
        var claimed := st.Feed(lines[k]);
      }
      k := k + 1;
    }
    assert lines[..k] == lines;
    data := st.data;
    verdict := VerdictOf(data);
  }
}
