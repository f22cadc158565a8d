/**
 * The writer side of the chain (packages/core/provenance.ts, `chainLine` and `ChainedJournal`), and
 * the theorem that whatever it writes, across re-opens and closes, its own verifier accepts.
 */
module Journal {
  import opened Wrappers
  import opened Bytes
  import opened Text
  import opened Chain
  import opened ChainTheorems

  /** `JSON.stringify` on the objects a journal writes is left open, like the parser. */
  datatype Writer = Writer(rt: Runtime, stringify: Object -> string)

  // ── The text of a journal file ───────────────────────────────────

  /** `text.split('\n')`. */
  function SplitLines(text: string): (lines: seq<string>)
    ensures |lines| > 0
  {
    if text == "" then [""]
    else
      var lines, c := SplitLines(text[..|text| - 1]), text[|text| - 1];
      if c == '\n' then lines + [""]
      else lines[..|lines| - 1] + [lines[|lines| - 1] + [c]]
  }

  /** The claimed hashes of the lines that carry one. */
  function HashesIn(lines: seq<string>): seq<string> {
    if lines == [] then []
    else
      var rest, split := HashesIn(lines[..|lines| - 1]), SplitChainedLine(lines[|lines| - 1]);
      if split.Some? then rest + [split.value.hash] else rest
  }

  function TextOf(content: Option<string>): string {
    if content.Some? then content.value else ""
  }

  function LastOf(hashes: seq<string>): Option<string> {
    if hashes == [] then None else Some(hashes[|hashes| - 1])
  }

  // ── One write, as functions ──────────────────────────────────────

  function Body(entry: Object, prev: Option<string>): Object {
    entry.(hash := Undefined, prevHash := if prev.Some? then Str(prev.value) else Null)
  }

  function ChainLine(w: Writer, entry: Object, prev: Option<string>): Chained {
    var preimage := w.stringify(Body(entry, prev));
    Chained(preimage, w.rt.lineHash(preimage))
  }

  function ClosedRecord(w: Writer, record: Object, hashes: seq<string>): Object {
    record.(kind := Str(SESSION), status := Str(CLOSED), sessionRoot := Str(w.rt.sessionRoot(hashes)),
            hashVersion := Str(CHAIN_VERSION), merkleVersion := Str(MERKLE_VERSION),
            encodingVersion := Str(ENCODING_VERSION), rootSemantics := Str(ROOT_SEMANTICS))
  }

  /** The file, and the hashes the open journal has recovered or written; None before its first use. */
  datatype Session = Session(content: Option<string>, known: Option<seq<string>>)

  function Recovered(s: Session): seq<string> {
    if s.known.Some? then s.known.value
    else if s.content.Some? then HashesIn(SplitLines(s.content.value)) else []
  }

  function AppendTo(w: Writer, s: Session, entry: Object): Session {
    var hashes := Recovered(s);
    var c := ChainLine(w, entry, LastOf(hashes));
    Session(Some(TextOf(s.content) + DropLast(c.preimage) + HASH_KEY + c.hash + "\"}" + "\n"), Some(hashes + [c.hash]))
  }

  /** `s.slice(0, -1)`. */
  function DropLast(s: string): string {
    if s == "" then "" else s[..|s| - 1]
  }

  datatype Op = Append(entry: Object) | Reopen | Close(record: Object)

  function Apply(w: Writer, s: Session, op: Op): Session {
    match op
    case Append(entry) => AppendTo(w, s, entry)
    case Reopen => s.(known := None)
    case Close(record) => AppendTo(w, s, ClosedRecord(w, record, Recovered(s)))
  }

  function ApplyAll(w: Writer, ops: seq<Op>): Session {
    if ops == [] then Session(None, None) else Apply(w, ApplyAll(w, ops[..|ops| - 1]), ops[|ops| - 1])
  }

  // ── The code ─────────────────────────────────────────────────────

  class Disk {
    var content: Option<string>

    constructor ()
      ensures content == None
    {
      content := None;
    }
  }

  class ChainedJournal {
    const w: Writer
    const disk: Disk
    var prev: Option<Option<string>>
    var hashes: seq<string>

    ghost predicate Valid()
      reads this
    {
      prev.Some? ==> prev.value == LastOf(hashes)
    }

    function View(): Session
      reads this, disk
    {
      Session(disk.content, if prev.Some? then Some(hashes) else None)
    }

    /** Opening a path, or re-opening it: nothing is read until first use. */
    constructor (w: Writer, disk: Disk)
      ensures Valid() && this.w == w && this.disk == disk && View() == Session(disk.content, None)
    {
      this.w := w;
      this.disk := disk;
      prev := None;
      hashes := [];
    }

    method Recover()
      requires Valid()
      modifies this
      ensures Valid() && prev.Some? && hashes == Recovered(old(View()))
    {
      if prev.Some? {
        return;
      }
      hashes := [];
      if disk.content.Some? {
        var lines := SplitLines(disk.content.value);
        var k := 0;
        while k < |lines|
          invariant 0 <= k <= |lines|
          invariant hashes == HashesIn(lines[..k])
        {
          assert lines[..k + 1][..k] == lines[..k];
          var split := SplitChainedLine(lines[k]);
          if split.Some? {
            hashes := hashes + [split.value.hash];
          }
          k := k + 1;
        }
        assert lines[..k] == lines;
      }
      prev := Some(if |hashes| > 0 then Some(hashes[|hashes| - 1]) else None);
    }

    method AppendEntry(entry: Object) returns (hash: string)
      requires Valid()
      modifies this, disk
      ensures Valid() && View() == Apply(w, old(View()), Append(entry)) && LastOf(hashes) == Some(hash)
    {
      Recover();
      var c := ChainLine(w, entry, prev.value);
      hash := c.hash;
      disk.content := Some(TextOf(disk.content) + DropLast(c.preimage) + HASH_KEY + c.hash + "\"}" + "\n");
      prev := Some(Some(hash));
      hashes := hashes + [hash];
    }

    method CloseJournal(record: Object) returns (hash: string)
      requires Valid()
      modifies this, disk
      ensures Valid() && View() == Apply(w, old(View()), Close(record)) && LastOf(hashes) == Some(hash)
    {
      Recover();
      hash := AppendEntry(ClosedRecord(w, record, hashes));
    }
  }

  // ── Splitting undoes joining ─────────────────────────────────────

  lemma SplitUndoesJoin(c: Chained)
    requires |c.preimage| >= 2 && c.preimage[|c.preimage| - 1] == '}' && IsHex64(c.hash)
    ensures SplitChainedLine(JoinChainedLine(c)) == Some(c)
  {
    var line, head := JoinChainedLine(c), c.preimage[..|c.preimage| - 1];
    var tail := HASH_KEY + c.hash + "\"}";
    assert line == head + tail && |tail| == TAIL_LEN;
    assert StripEol(line) == line;
    assert line[|line| - TAIL_LEN..] == tail;
    assert line[|line| - 2..] == "\"}";
    assert tail[..|HASH_KEY|] == HASH_KEY && tail[|HASH_KEY|..TAIL_LEN - 2] == c.hash;
    assert line[..|line| - TAIL_LEN] + "}" == head + [c.preimage[|c.preimage| - 1]] == c.preimage;
  }

  // ── What the theorem asks of JSON ────────────────────────────────

  /** A property survives a print and a parse as far as the verifier looks: strings, null and absence. */
  ghost predicate SameProperty(v: Json, v': Json) {
    && (v.Str? || v.Null? || v.Undefined? ==> v' == v)
    && (v'.Str? ==> v.Str?)
  }

  ghost predicate SameProperties(o: Object, o': Object) {
    && SameProperty(o.kind, o'.kind) && SameProperty(o.status, o'.status)
    && SameProperty(o.prevHash, o'.prevHash) && SameProperty(o.sessionRoot, o'.sessionRoot)
    && SameProperty(o.merkleVersion, o'.merkleVersion) && SameProperty(o.encodingVersion, o'.encodingVersion)
    && SameProperty(o.rootSemantics, o'.rootSemantics)
  }

  /** An object prints as one `{...}` without a raw CR or LF, and parses back to an object with the same properties. */
  ghost predicate PrintsBack(w: Writer, o: Object) {
    var text := w.stringify(o);
    && |text| >= 2 && text[|text| - 1] == '}'
    && (forall i :: 0 <= i < |text| ==> text[i] != '\n')
    && w.rt.parse(text).Some? && w.rt.parse(text).value.Obj?
    && SameProperties(o, w.rt.parse(text).value.obj)
  }

  ghost predicate JsonWorks(w: Writer) {
    forall o: Object :: PrintsBack(w, o)
  }

  // ── What one write does to the file's lines ──────────────────────

  function FileLines(s: Session): seq<string> {
    NonBlank(SplitLines(TextOf(s.content)))
  }

  lemma {:induction false} SplitLinesAppend(text: string, line: string)
    requires forall i :: 0 <= i < |line| ==> line[i] != '\n'
    ensures var lines := SplitLines(text);
            SplitLines(text + line) == lines[..|lines| - 1] + [lines[|lines| - 1] + line]
    decreases |line|
  {
    var lines := SplitLines(text);
    var head, last := lines[..|lines| - 1], lines[|lines| - 1];
    if line == "" {
      assert text + line == text && last + line == last;
      assert lines == head + [last];
    } else {
      var init, c := line[..|line| - 1], line[|line| - 1];
      SplitLinesAppend(text, init);
      SplitLinesOneMore(text + init, c, head, last + init);
      LastCharacter(text, line);
      LastCharacter(last, line);
    }
  }

  lemma LastCharacter(text: string, line: string)
    requires line != ""
    ensures text + line == text + line[..|line| - 1] + [line[|line| - 1]]
  {
  }

  lemma SplitLinesOneMore(text: string, c: char, head: seq<string>, last: string)
    requires c != '\n' && SplitLines(text) == head + [last]
    ensures SplitLines(text + [c]) == head + [last + [c]]
  {
    assert (text + [c])[..|text|] == text;
    assert (head + [last])[..|head|] == head;
  }

  ghost predicate WholeLines(text: string) {
    text == "" || text[|text| - 1] == '\n'
  }

  lemma LastPieceIsEmpty(text: string)
    requires WholeLines(text)
    ensures SplitLines(text)[|SplitLines(text)| - 1] == ""
  {
    if text != "" {
      assert SplitLines(text) == SplitLines(text[..|text| - 1]) + [""];
    }
  }

  lemma SplitLinesAppendLine(text: string, line: string)
    requires WholeLines(text) && forall i :: 0 <= i < |line| ==> line[i] != '\n'
    ensures var lines := SplitLines(text);
            SplitLines(text + line + "\n") == lines[..|lines| - 1] + [line] + [""]
  {
    SplitLinesAppend(text, line);
    LastPieceIsEmpty(text);
    assert (text + line + "\n")[..|text + line|] == text + line;
    assert "" + line == line;
  }

  lemma DropEmptyPiece(init: seq<string>)
    ensures NonBlank(init + [""]) == NonBlank(init) && HashesIn(init + [""]) == HashesIn(init)
  {
    assert (init + [""])[..|init|] == init;
  }

  lemma KeepPiece(init: seq<string>, line: string)
    requires SplitChainedLine(line).Some? && !IsBlank(line)
    ensures NonBlank(init + [line]) == NonBlank(init) + [line]
    ensures HashesIn(init + [line]) == HashesIn(init) + [SplitChainedLine(line).value.hash]
  {
    assert (init + [line])[..|init|] == init;
  }

  /** On a file of whole lines, one more line is one more line, to the verifier and to recovery alike. */
  lemma AppendedLine(text: string, line: string)
    requires WholeLines(text) && SplitChainedLine(line).Some? && !IsBlank(line)
    requires forall i :: 0 <= i < |line| ==> line[i] != '\n'
    ensures WholeLines(text + line + "\n")
    ensures NonBlank(SplitLines(text + line + "\n")) == NonBlank(SplitLines(text)) + [line]
    ensures HashesIn(SplitLines(text + line + "\n")) == HashesIn(SplitLines(text)) + [SplitChainedLine(line).value.hash]
  {
    var lines := SplitLines(text);
    var init := lines[..|lines| - 1];
    SplitLinesAppendLine(text, line);
    LastPieceIsEmpty(text);
    assert lines == init + [""];
    DropEmptyPiece(init);
    DropEmptyPiece(init + [line]);
    KeepPiece(init, line);
  }

  // ── The theorem ──────────────────────────────────────────────────

  ghost predicate Consistent(w: Writer, s: Session) {
    var cs := SplitAll(FileLines(s));
    && WholeLines(TextOf(s.content)) && Sound(w.rt, cs)
    && HashesIn(SplitLines(TextOf(s.content))) == Hashes(cs)
    && (s.known.Some? ==> s.known.value == Hashes(cs))
  }

  lemma ClosingSurvivesPrinting(w: Writer, o: Object)
    requires PrintsBack(w, o)
    ensures IsClosing(w.rt.parse(w.stringify(o))) <==> IsClosing(Some(Obj(o)))
  {
  }

  lemma SplitAllAppend(lines: seq<string>, line: string)
    ensures SplitAll(lines + [line]) == SplitAll(lines) + [SplitChainedLine(line)]
    ensures (lines + [line])[..|lines|] == lines
  {
  }

  lemma WrittenText(text: string, c: Chained)
    requires c.preimage != ""
    ensures text + DropLast(c.preimage) + HASH_KEY + c.hash + "\"}" + "\n" == text + JoinChainedLine(c) + "\n"
  {
  }

  /** What an append writes: one more line, which splits back into what was chained. */
  lemma AppendWritesOneLine(sha: HashFn, w: Writer, s: Session, entry: Object)
    requires w.rt == RuntimeOver(sha, w.rt.parse) && JsonWorks(w) && WholeLines(TextOf(s.content))
    ensures var s', c := AppendTo(w, s, entry), ChainLine(w, entry, LastOf(Recovered(s)));
            && WholeLines(TextOf(s'.content))
            && SplitAll(FileLines(s')) == SplitAll(FileLines(s)) + [Some(c)]
            && HashesIn(SplitLines(TextOf(s'.content))) == HashesIn(SplitLines(TextOf(s.content))) + [c.hash]
            && FileLines(s')[..|FileLines(s)|] == FileLines(s)
  {
    var c := ChainLine(w, entry, LastOf(Recovered(s)));
    assert PrintsBack(w, Body(entry, LastOf(Recovered(s))));
    DigestHexIsHex64(sha(Utf8(c.preimage)));
    SplitUndoesJoin(c);
    JoinedLineIsOneLine(c);
    AppendedLine(TextOf(s.content), JoinChainedLine(c));
    WrittenText(TextOf(s.content), c);
    SplitAllAppend(FileLines(s), JoinChainedLine(c));
  }

  lemma JoinedLineIsOneLine(c: Chained)
    requires c.preimage != "" && IsHex64(c.hash)
    requires forall i :: 0 <= i < |c.preimage| ==> c.preimage[i] != '\n'
    ensures var line := JoinChainedLine(c);
            !IsBlank(line) && forall i :: 0 <= i < |line| ==> line[i] != '\n'
  {
    var line, n := JoinChainedLine(c), |c.preimage| - 1;
    assert line[|line| - 1] == '}';
    forall i | 0 <= i < |line| ensures line[i] != '\n' {
      if n + 9 <= i < n + 73 { assert line[i] == c.hash[i - n - 9] && IsLowerHex(c.hash[i - n - 9]); }
    }
  }

  /** The line an honest writer adds to a sound chain keeps it sound. */
  lemma ChainedLineIsSound(w: Writer, cs: Splits, entry: Object, c: Chained)
    requires JsonWorks(w) && Sound(w.rt, cs) && c == ChainLine(w, entry, HeadOf(cs))
    requires IsClosing(Some(Obj(entry))) ==> RulesKnown(entry) && entry.sessionRoot == Str(w.rt.sessionRoot(Hashes(cs)))
    ensures Sound(w.rt, cs + [Some(c)])
    ensures ClosesAt(w.rt, cs + [Some(c)], |cs|) <==> IsClosing(Some(Obj(entry)))
  {
    var cs', body := cs + [Some(c)], Body(entry, HeadOf(cs));
    assert PrintsBack(w, body);
    ClosingSurvivesPrinting(w, body);
    assert cs'[..|cs|] == cs;
    assert SoundAt(w.rt, cs', |cs|);
    SoundExtends(w.rt, cs');
  }

  /** Appending a chained line to a consistent session keeps it consistent. */
  lemma AppendKeepsConsistent(sha: HashFn, w: Writer, s: Session, entry: Object)
    requires w.rt == RuntimeOver(sha, w.rt.parse) && JsonWorks(w) && Consistent(w, s)
    requires IsClosing(Some(Obj(entry))) ==> RulesKnown(entry) && entry.sessionRoot == Str(w.rt.sessionRoot(Recovered(s)))
    ensures var s' := AppendTo(w, s, entry);
            && Consistent(w, s')
            && |FileLines(s')| == |FileLines(s)| + 1 && FileLines(s')[..|FileLines(s)|] == FileLines(s)
            && (ClosesAt(w.rt, SplitAll(FileLines(s')), |FileLines(s)|) <==> IsClosing(Some(Obj(entry))))
  {
    var s', cs := AppendTo(w, s, entry), SplitAll(FileLines(s));
    RecoveryFindsTheHead(w, s);
    var c := ChainLine(w, entry, HeadOf(cs));
    AppendWritesOneLine(sha, w, s, entry);
    ChainedLineIsSound(w, cs, entry, c);
    assert |FileLines(s')| == |SplitAll(FileLines(s'))|;
    HashesAppend(cs, c);
  }

  lemma RecoveryFindsTheHead(w: Writer, s: Session)
    requires Consistent(w, s)
    ensures Recovered(s) == Hashes(SplitAll(FileLines(s)))
    ensures LastOf(Recovered(s)) == HeadOf(SplitAll(FileLines(s)))
  {
    var cs := SplitAll(FileLines(s));
    assert s.content.None? ==> TextOf(s.content) == "" && HashesIn(SplitLines("")) == [];
    assert Recovered(s) == Hashes(cs);
  }

  lemma HashesAppend(cs: Splits, c: Chained)
    ensures Hashes(cs + [Some(c)]) == Hashes(cs) + [c.hash]
  {
  }

  predicate Writes(op: Op) {
    !op.Reopen?
  }

  /** Callers append anything but a closed record with a root; closing is the journal's own act. */
  predicate Allowed(op: Op) {
    op.Append? ==> !IsClosing(Some(Obj(op.entry)))
  }

  ghost predicate SomeLineCloses(w: Writer, s: Session) {
    exists i :: 0 <= i < |FileLines(s)| && ClosesAt(w.rt, SplitAll(FileLines(s)), i)
  }

  lemma ApplyKeepsConsistent(sha: HashFn, w: Writer, s: Session, op: Op)
    requires w.rt == RuntimeOver(sha, w.rt.parse) && JsonWorks(w) && Consistent(w, s) && Allowed(op)
    ensures var s' := Apply(w, s, op);
            && Consistent(w, s')
            && (FileLines(s') != [] <==> FileLines(s) != [] || Writes(op))
            && (SomeLineCloses(w, s') <==> SomeLineCloses(w, s) || op.Close?)
  {
    if Writes(op) {
      var entry := if op.Append? then op.entry else ClosedRecord(w, op.record, Recovered(s));
      AppendKeepsConsistent(sha, w, s, entry);
      OneMoreLineCloses(w, s, AppendTo(w, s, entry));
    }
  }

  lemma OneMoreLineCloses(w: Writer, s: Session, s': Session)
    requires |FileLines(s')| == |FileLines(s)| + 1 && FileLines(s')[..|FileLines(s)|] == FileLines(s)
    ensures SomeLineCloses(w, s') <==> SomeLineCloses(w, s) || ClosesAt(w.rt, SplitAll(FileLines(s')), |FileLines(s)|)
  {
    var lines, lines' := FileLines(s), FileLines(s');
    forall i | 0 <= i < |lines| ensures ClosesAt(w.rt, SplitAll(lines'), i) <==> ClosesAt(w.rt, SplitAll(lines), i) {
      assert lines'[i] == lines[i];
    }
  }

  lemma NewFileIsConsistent(w: Writer)
    ensures Consistent(w, Session(None, None)) && FileLines(Session(None, None)) == []
  {
    DropEmptyPiece([]);
    assert SplitLines("") == [] + [""];
  }

  ghost predicate AnyWrites(ops: seq<Op>) {
    exists i :: 0 <= i < |ops| && Writes(ops[i])
  }

  ghost predicate AnyCloses(ops: seq<Op>) {
    exists i :: 0 <= i < |ops| && ops[i].Close?
  }

  ghost predicate AllAllowed(ops: seq<Op>) {
    forall i :: 0 <= i < |ops| ==> Allowed(ops[i])
  }

  lemma LastOpCounts(ops: seq<Op>)
    requires ops != []
    ensures AnyWrites(ops) <==> AnyWrites(ops[..|ops| - 1]) || Writes(ops[|ops| - 1])
    ensures AnyCloses(ops) <==> AnyCloses(ops[..|ops| - 1]) || ops[|ops| - 1].Close?
    ensures AllAllowed(ops) ==> AllAllowed(ops[..|ops| - 1]) && Allowed(ops[|ops| - 1])
  {
    var init := ops[..|ops| - 1];
    assert forall i :: 0 <= i < |init| ==> init[i] == ops[i];
  }

  lemma {:induction false} EveryRunIsConsistent(sha: HashFn, w: Writer, ops: seq<Op>)
    requires w.rt == RuntimeOver(sha, w.rt.parse) && JsonWorks(w) && AllAllowed(ops)
    ensures var s := ApplyAll(w, ops);
            && Consistent(w, s)
            && (FileLines(s) != [] <==> AnyWrites(ops))
            && (SomeLineCloses(w, s) <==> AnyCloses(ops))
  {
    if ops == [] {
      NewFileIsConsistent(w);
    } else {
      var init, last := ops[..|ops| - 1], ops[|ops| - 1];
      LastOpCounts(ops);
      EveryRunIsConsistent(sha, w, init);
      ApplyKeepsConsistent(sha, w, ApplyAll(w, init), last);
    }
  }

  /**
   * Writer and verifier agree on every run: any mix of appends, re-opens and closes on a new file
   * leaves a journal without a single break, open until the first close and verified ever after.
   */
  lemma WriterAndVerifierAgree(sha: HashFn, w: Writer, ops: seq<Op>)
    requires w.rt == RuntimeOver(sha, w.rt.parse) && JsonWorks(w) && AllAllowed(ops)
    ensures var d := Run(w.rt, FileLines(ApplyAll(w, ops))).data;
            && d.breaks == 0
            && VerdictOf(d) == if AnyCloses(ops) then Verified else if AnyWrites(ops) then Open else Unchained
  {
    var lines := FileLines(ApplyAll(w, ops));
    EveryRunIsConsistent(sha, w, ops);
    RunTracks(w.rt, SplitAll(lines));
    VerdictMeans(w.rt, lines);
  }
}
