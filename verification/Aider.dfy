/**
 * Splitting an Aider chat log into items (packages/core/aider-adapter.ts, `splitAiderLines`), and why a reader
 * may resume at any item's first line.
 */
module Aider {
  import opened Wrappers
  import opened Seqs
  import opened Text

  datatype Kind = Header | User | Assistant | Output

  /** `offset` is the byte offset of the item's first line; `startedAt` is a header's start time. */
  datatype Item = Item(kind: Kind, offset: nat, lines: seq<string>, startedAt: Option<string>)

  datatype Line = Line(text: string, offset: nat)

  /** What the splitter asks of a line: the header's time, the input or output it carries unmarked, and its looks. */
  datatype Row = Row(offset: nat, text: string, header: Option<string>, user: Option<string>, output: Option<string>,
                     hard: bool, blank: bool, fence: bool)

  // ── Reading a line ───────────────────────────────────────────────

  const HEADER := "# aider chat started at "
  const STAMP := "0000-00-00 00:00:00"

  predicate IsDigit(c: char) {
    '0' <= c <= '9'
  }

  predicate IsStamp(s: string) {
    |s| == |STAMP| && forall i :: 0 <= i < |STAMP| ==> if STAMP[i] == '0' then IsDigit(s[i]) else s[i] == STAMP[i]
  }

  function HeaderTime(text: string): Option<string> {
    var end := |HEADER| + |STAMP|;
    if HEADER <= text && |text| >= end && IsStamp(text[|HEADER|..end]) && IsBlank(text[end..])
    then Some(text[|HEADER|..end]) else None
  }

  function TrimEnd(s: string): string {
    if s != "" && IsSpace(s[|s| - 1]) then TrimEnd(s[..|s| - 1]) else s
  }

  function TrimStart(s: string): string {
    if s != "" && IsSpace(s[0]) then TrimStart(s[1..]) else s
  }

  function Unmark(text: string, marker: string): string
    requires marker <= text
  {
    TrimEnd(if marker + " " <= text then text[|marker| + 1..] else text[|marker|..])
  }

  function UserText(text: string): Option<string> {
    if "#### " <= text || text == "####" then Some(Unmark(text, "####")) else None
  }

  function OutputText(text: string): Option<string> {
    if "> " <= text || (">" <= text && IsBlank(text[1..])) then Some(Unmark(text, ">")) else None
  }

  function Read(line: Line): Row {
    var text := if line.text != "" && line.text[|line.text| - 1] == '\r' then line.text[..|line.text| - 1] else line.text;
    Row(line.offset, text, HeaderTime(text), UserText(text), OutputText(text),
        |text| >= 2 && text[|text| - 2..] == "  ", IsBlank(text), "```" <= TrimStart(text) || "~~~" <= TrimStart(text))
  }

  type Reader = Line -> Row

  function Rows(read: Reader, lines: seq<Line>): (rows: seq<Row>)
    ensures |rows| == |lines| && forall i :: 0 <= i < |lines| ==> rows[i] == read(lines[i])
  {
    seq(|lines|, i requires 0 <= i < |lines| => read(lines[i]))
  }

  /** What the theorems below need of `Read`; they are proved of any such reader, and then of it. */
  ghost predicate KeepsOffsets(read: Reader) {
    forall line :: read(line).offset == line.offset
  }

  ghost predicate SeesBlanks(read: Reader) {
    forall line :: read(line).blank <==> IsBlank(read(line).text)
  }

  lemma ReadIsAReader()
    ensures KeepsOffsets(Read) && SeesBlanks(Read)
  {
  }

  // ── The splitter's state ─────────────────────────────────────────

  datatype State = State(items: seq<Item>, cur: Option<Item>, fenced: bool)

  const START := State([], None, false)

  /** A reply loses its trailing blank lines when it closes. */
  function Trimmed(lines: seq<string>): (r: seq<string>)
    ensures r <= lines
  {
    if lines != [] && IsBlank(lines[|lines| - 1]) then Trimmed(lines[..|lines| - 1]) else lines
  }

  function ClosedItem(item: Item): Item {
    if item.kind == Assistant then item.(lines := Trimmed(item.lines)) else item
  }

  function Close(s: State): State {
    State(if s.cur.Some? then s.items + [ClosedItem(s.cur.value)] else s.items, None, false)
  }

  predicate In(s: State, kind: Kind) {
    s.cur.Some? && s.cur.value.kind == kind
  }

  function Open(s: State, kind: Kind, offset: nat): State {
    Close(s).(cur := Some(Item(kind, offset, [], None)))
  }

  function Add(s: State, text: string): State {
    if s.cur.None? then s else s.(cur := Some(s.cur.value.(lines := s.cur.value.lines + [text])))
  }

  /** A reply is ended by nothing but a line with a hard break, and not within a fence. */
  predicate Marks(s: State, r: Row) {
    !In(s, Assistant) || (!s.fenced && r.hard)
  }

  /** Blank lines alone do not end a run of output. */
  predicate Reopens(s: State) {
    s.cur.None? && s.items != [] && s.items[|s.items| - 1].kind == Output
  }

  function Reopen(s: State): State
    requires Reopens(s)
  {
    State(s.items[..|s.items| - 1], Some(s.items[|s.items| - 1]), s.fenced)
  }

  function HeaderItem(r: Row): Item {
    Item(Header, r.offset, [], r.header)
  }

  function Step(s: State, r: Row): State {
    if r.header.Some? && !s.fenced then
      Close(s).(items := Close(s).items + [HeaderItem(r)])
    else if Marks(s, r) && r.user.Some? then
      Add(if In(s, User) then s else Open(s, User, r.offset), r.user.value)
    else if Marks(s, r) && r.output.Some? then
      Add(if In(s, Output) then s else if Reopens(s) then Reopen(s) else Open(s, Output, r.offset), r.output.value)
    else if r.blank then
      if In(s, Assistant) then Add(s, "") else Close(s)
    else
      var reply := if In(s, Assistant) then s else Open(s, Assistant, r.offset);
      Add(if r.fence then reply.(fenced := !reply.fenced) else reply, r.text)
  }

  function Fold(rows: seq<Row>): State {
    if rows == [] then START else Step(Fold(rows[..|rows| - 1]), rows[|rows| - 1])
  }

  function Split(rows: seq<Row>): seq<Item> {
    Close(Fold(rows)).items
  }

  lemma FoldOneMore(rows: seq<Row>, n: nat)
    requires n < |rows|
    ensures Fold(rows[..n + 1]) == Step(Fold(rows[..n]), rows[n])
  {
    assert rows[..n + 1][..n] == rows[..n];
  }

  // ── The splitter ─────────────────────────────────────────────────

  method TrimReply(item: Item) returns (closed: Item)
    ensures closed == ClosedItem(item)
  {
    closed := item;
    if item.kind == Assistant {
      var lines := item.lines;
      while lines != [] && IsBlank(lines[|lines| - 1])
        invariant Trimmed(lines) == Trimmed(item.lines)
      {
        lines := lines[..|lines| - 1];
      }
      closed := item.(lines := lines);
    }
  }

  method CloseCurrent(items: seq<Item>, cur: Option<Item>, ghost fenced: bool) returns (closed: seq<Item>)
    ensures State(closed, None, false) == Close(State(items, cur, fenced))
  {
    closed := items;
    if cur.Some? {
      var item := TrimReply(cur.value);
      closed := items + [item];
    }
  }

  /** The items of a log, from its finished lines and where each begins. */
  method SplitAiderLines(lines: seq<Line>) returns (items: seq<Item>)
    ensures items == Split(Rows(Read, lines))
  {
    ghost var rows := Rows(Read, lines);
    var cur: Option<Item>, fenced := None, false;
    items := [];
    for k := 0 to |lines|
      invariant State(items, cur, fenced) == Fold(rows[..k])
    {
      var r := Read(lines[k]);
      FoldOneMore(rows, k);
      items, cur, fenced := TakeLine(items, cur, fenced, r);
    }
    TakeAll(rows);
    items := CloseCurrent(items, cur, fenced);
  }

  method TakeLine(items0: seq<Item>, cur0: Option<Item>, fenced0: bool, r: Row)
      returns (items: seq<Item>, cur: Option<Item>, fenced: bool)
    ensures State(items, cur, fenced) == Step(State(items0, cur0, fenced0), r)
  {
    items, cur, fenced := items0, cur0, fenced0;
    var inReply := cur.Some? && cur.value.kind == Assistant;
    var marker := !inReply || (!fenced && r.hard);
    if r.header.Some? && !fenced {
      items := CloseCurrent(items, cur, fenced);
      return items + [HeaderItem(r)], None, false;
    }
    if marker && r.user.Some? {
      if !(cur.Some? && cur.value.kind == User) {
        items := CloseCurrent(items, cur, fenced);
        cur, fenced := Some(Item(User, r.offset, [], None)), false;
      }
      cur := Some(cur.value.(lines := cur.value.lines + [r.user.value]));
      return;
    }
    if marker && r.output.Some? {
      if !(cur.Some? && cur.value.kind == Output) {
        if cur.None? && items != [] && items[|items| - 1].kind == Output {
          cur, items := Some(items[|items| - 1]), items[..|items| - 1];
        } else {
          items := CloseCurrent(items, cur, fenced);
          cur, fenced := Some(Item(Output, r.offset, [], None)), false;
        }
      }
      cur := Some(cur.value.(lines := cur.value.lines + [r.output.value]));
      return;
    }
    if r.blank {
      if inReply {
        cur := Some(cur.value.(lines := cur.value.lines + [""]));
      } else {
        items := CloseCurrent(items, cur, fenced);
        cur, fenced := None, false;
      }
      return;
    }
    if !inReply {
      items := CloseCurrent(items, cur, fenced);
      cur, fenced := Some(Item(Assistant, r.offset, [], None)), false;
    }
    if r.fence {
      fenced := !fenced;
    }
    cur := Some(cur.value.(lines := cur.value.lines + [r.text]));
  }

  // ── Where items start ────────────────────────────────────────────

  /** The line opens an item of its own. */
  predicate Starts(s: State, r: Row) {
    if r.header.Some? && !s.fenced then true
    else if Marks(s, r) && r.user.Some? then !In(s, User)
    else if Marks(s, r) && r.output.Some? then !In(s, Output) && !Reopens(s)
    else !r.blank && !In(s, Assistant)
  }

  predicate WellFormed(s: State) {
    (s.fenced ==> In(s, Assistant)) && (s.cur.Some? ==> s.cur.value.kind != Header)
  }

  function All(s: State): seq<Item> {
    Close(s).items
  }

  lemma {:induction false} FoldIsWellFormed(rows: seq<Row>)
    ensures WellFormed(Fold(rows))
  {
    if rows != [] { FoldIsWellFormed(rows[..|rows| - 1]); }
  }

  ghost predicate SameOffsets(a: seq<Item>, b: seq<Item>) {
    |a| == |b| && forall i :: 0 <= i < |a| ==> a[i].offset == b[i].offset
  }

  /** `b` is `a` with one more item at the end. */
  ghost predicate OneMore(a: seq<Item>, b: seq<Item>, offset: nat) {
    |b| == |a| + 1 && b[|a|].offset == offset && forall i :: 0 <= i < |a| ==> b[i].offset == a[i].offset
  }

  lemma AddOffsets(s: State, text: string)
    ensures SameOffsets(All(s), All(Add(s, text)))
  {
  }

  lemma OpenOffsets(s: State, kind: Kind, offset: nat, text: string)
    ensures OneMore(All(s), All(Add(Open(s, kind, offset), text)), offset)
  {
  }

  lemma ReopenOffsets(s: State, text: string)
    requires Reopens(s)
    ensures SameOffsets(All(s), All(Add(Reopen(s), text)))
  {
  }

  /** A line either opens one item, with its own offset, or leaves the offsets as they were. */
  lemma StepOffsets(s: State, r: Row)
    requires WellFormed(s)
    ensures if Starts(s, r) then OneMore(All(s), All(Step(s, r)), r.offset) else SameOffsets(All(s), All(Step(s, r)))
  {
    if r.header.Some? && !s.fenced {
    } else if Marks(s, r) && r.user.Some? {
      AddOffsets(s, r.user.value);
      OpenOffsets(s, User, r.offset, r.user.value);
    } else if Marks(s, r) && r.output.Some? {
      AddOffsets(s, r.output.value);
      OpenOffsets(s, Output, r.offset, r.output.value);
      if Reopens(s) { ReopenOffsets(s, r.output.value); }
    } else if r.blank {
      AddOffsets(s, "");
    } else {
      ReplyOffsets(s, r);
    }
  }

  lemma ReplyOffsets(s: State, r: Row)
    ensures var s1 := if In(s, Assistant) then s else Open(s, Assistant, r.offset);
            var all := All(Add(if r.fence then s1.(fenced := !s1.fenced) else s1, r.text));
            if In(s, Assistant) then SameOffsets(All(s), all) else OneMore(All(s), all, r.offset)
  {
    AddOffsets(s, r.text);
    AddOffsets(s.(fenced := !s.fenced), r.text);
    OpenOffsets(s, Assistant, r.offset, r.text);
  }

  // ── Resuming ─────────────────────────────────────────────────────

  /** `a` is `b` with `prefix` before its items, and nothing of `prefix` can be reopened. */
  ghost predicate Resumes(prefix: seq<Item>, a: State, b: State) {
    a == b.(items := prefix + b.items) && (b.items != [] || b.cur.Some?)
  }

  lemma CloseResumes(prefix: seq<Item>, a: State, b: State)
    requires a == b.(items := prefix + b.items)
    ensures Close(a) == Close(b).(items := prefix + Close(b).items)
  {
    if b.cur.Some? {
      var last := [ClosedItem(b.cur.value)];
      assert prefix + b.items + last == prefix + (b.items + last);
    }
  }

  lemma AddResumes(prefix: seq<Item>, a: State, b: State, text: string)
    requires a == b.(items := prefix + b.items)
    ensures Add(a, text) == Add(b, text).(items := prefix + Add(b, text).items)
  {
  }

  lemma OpenResumes(prefix: seq<Item>, a: State, b: State, kind: Kind, offset: nat)
    requires a == b.(items := prefix + b.items)
    ensures Open(a, kind, offset) == Open(b, kind, offset).(items := prefix + Open(b, kind, offset).items)
  {
    CloseResumes(prefix, a, b);
  }

  lemma ReopenResumes(prefix: seq<Item>, a: State, b: State)
    requires Resumes(prefix, a, b)
    ensures Reopens(a) <==> Reopens(b)
    ensures Reopens(b) ==> Reopen(a) == Reopen(b).(items := prefix + Reopen(b).items)
  {
    if b.items != [] {
      assert a.items[|a.items| - 1] == b.items[|b.items| - 1];
      assert a.items[..|a.items| - 1] == prefix + b.items[..|b.items| - 1];
    }
  }

  lemma StepResumes(prefix: seq<Item>, a: State, b: State, r: Row)
    requires Resumes(prefix, a, b)
    ensures Resumes(prefix, Step(a, r), Step(b, r))
  {
    CloseResumes(prefix, a, b);
    if r.header.Some? && !b.fenced {
      assert prefix + Close(b).items + [HeaderItem(r)] == prefix + (Close(b).items + [HeaderItem(r)]);
    } else if Marks(b, r) && r.user.Some? {
      OpenResumes(prefix, a, b, User, r.offset);
      AddResumes(prefix, if In(a, User) then a else Open(a, User, r.offset), if In(b, User) then b else Open(b, User, r.offset), r.user.value);
    } else if Marks(b, r) && r.output.Some? {
      OutputResumes(prefix, a, b, r);
    } else if !r.blank {
      OpenResumes(prefix, a, b, Assistant, r.offset);
    }
  }

  lemma OutputResumes(prefix: seq<Item>, a: State, b: State, r: Row)
    requires Resumes(prefix, a, b) && r.output.Some? && !(r.header.Some? && !b.fenced) && Marks(b, r) && r.user.None?
    ensures Resumes(prefix, Step(a, r), Step(b, r))
  {
    ReopenResumes(prefix, a, b);
    OpenResumes(prefix, a, b, Output, r.offset);
  }

  lemma StartResumes(s: State, r: Row)
    requires WellFormed(s) && Starts(s, r)
    ensures Resumes(All(s), Step(s, r), Step(START, r))
  {
  }

  /** The splitter over more lines. */
  function Continue(s: State, rows: seq<Row>): State {
    if rows == [] then s else Step(Continue(s, rows[..|rows| - 1]), rows[|rows| - 1])
  }

  lemma {:induction false} FoldContinues(rows: seq<Row>, more: seq<Row>)
    ensures Fold(rows + more) == Continue(Fold(rows), more)
  {
    if more == [] {
      assert rows + more == rows;
    } else {
      var init, all := more[..|more| - 1], rows + more;
      FoldContinues(rows, init);
      FoldOneMore(all, |all| - 1);
      TakeAll(all);
      assert all[..|all| - 1] == rows + init;
    }
  }

  lemma {:induction false} ContinueResumes(prefix: seq<Item>, a: State, b: State, rows: seq<Row>)
    requires Resumes(prefix, a, b)
    ensures Resumes(prefix, Continue(a, rows), Continue(b, rows))
  {
    if rows != [] {
      ContinueResumes(prefix, a, b, rows[..|rows| - 1]);
      StepResumes(prefix, Continue(a, rows[..|rows| - 1]), Continue(b, rows[..|rows| - 1]), rows[|rows| - 1]);
    }
  }

  /** From a line that opens an item, the rest of the log splits the same on its own. */
  lemma SplitResumes(rows: seq<Row>, k: nat)
    requires k < |rows| && Starts(Fold(rows[..k]), rows[k])
    ensures Split(rows) == All(Fold(rows[..k])) + Split(rows[k..])
  {
    var prefix, more := All(Fold(rows[..k])), rows[k + 1..];
    var a, b := Fold(rows[..k + 1]), Fold([rows[k]]);
    OpensHere(rows, k);
    ContinueResumes(prefix, a, b, more);
    FoldContinues(rows[..k + 1], more);
    FoldContinues([rows[k]], more);
    assert rows[..k + 1] + more == rows && [rows[k]] + more == rows[k..];
    CloseResumes(prefix, Continue(a, more), Continue(b, more));
  }

  lemma OpensHere(rows: seq<Row>, k: nat)
    requires k < |rows| && Starts(Fold(rows[..k]), rows[k])
    ensures Resumes(All(Fold(rows[..k])), Fold(rows[..k + 1]), Fold([rows[k]]))
  {
    FoldOneMore(rows, k);
    FoldIsWellFormed(rows[..k]);
    StartResumes(Fold(rows[..k]), rows[k]);
    assert [rows[k]][..0] == [];
  }

  /** Line `k` opened item `i`. */
  ghost predicate Opened(rows: seq<Row>, k: nat, i: nat, offset: nat) {
    k < |rows| && rows[k].offset == offset && Starts(Fold(rows[..k]), rows[k]) && |All(Fold(rows[..k]))| == i
  }

  lemma {:induction false} EveryItemWasOpened(rows: seq<Row>, n: nat, i: nat) returns (k: nat)
    requires n <= |rows| && i < |All(Fold(rows[..n]))|
    ensures k < n && Opened(rows, k, i, All(Fold(rows[..n]))[i].offset)
  {
    k := 0;
    if n > 0 {
      FoldOneMore(rows, n - 1);
      FoldIsWellFormed(rows[..n - 1]);
      StepOffsets(Fold(rows[..n - 1]), rows[n - 1]);
      if i == |All(Fold(rows[..n - 1]))| {
        k := n - 1;
      } else {
        k := EveryItemWasOpened(rows, n - 1, i);
      }
    }
  }

  ghost predicate DistinctOffsets(rows: seq<Row>) {
    forall p, q :: 0 <= p < q < |rows| ==> rows[p].offset != rows[q].offset
  }

  lemma DropPrefix(all: seq<Item>, prefix: seq<Item>, rest: seq<Item>)
    requires all == prefix + rest
    ensures all[|prefix|..] == rest
  {
  }

  lemma RowsResume(rows: seq<Row>, i: nat, k: nat)
    requires DistinctOffsets(rows)
    requires i < |Split(rows)| && k < |rows| && rows[k].offset == Split(rows)[i].offset
    ensures Split(rows[k..]) == Split(rows)[i..]
  {
    TakeAll(rows);
    var k' := EveryItemWasOpened(rows, |rows|, i);
    assert k' == k;
    SplitResumes(rows, k);
    DropPrefix(Split(rows), All(Fold(rows[..k])), Split(rows[k..]));
  }

  /**
   * Resuming at any item's first line is exact: across fences, hard breaks and output runs reopened after
   * blank lines, the rest of the log alone gives that item and all after it.
   */
  lemma ResumeIsExact(lines: seq<Line>, i: nat, k: nat)
    requires forall p, q :: 0 <= p < q < |lines| ==> lines[p].offset != lines[q].offset
    requires i < |Split(Rows(Read, lines))| && k < |lines| && lines[k].offset == Split(Rows(Read, lines))[i].offset
    ensures Split(Rows(Read, lines[k..])) == Split(Rows(Read, lines))[i..]
  {
    ReadIsAReader();
    ReaderResumes(Read, lines, i, k);
  }

  lemma ReaderResumes(read: Reader, lines: seq<Line>, i: nat, k: nat)
    requires KeepsOffsets(read) && forall p, q :: 0 <= p < q < |lines| ==> lines[p].offset != lines[q].offset
    requires i < |Split(Rows(read, lines))| && k < |lines| && lines[k].offset == Split(Rows(read, lines))[i].offset
    ensures Split(Rows(read, lines[k..])) == Split(Rows(read, lines))[i..]
  {
    var rows := Rows(read, lines);
    forall p, q | 0 <= p < q < |rows| ensures rows[p].offset != rows[q].offset {
      assert rows[p].offset == lines[p].offset && rows[q].offset == lines[q].offset;
    }
    RowsResume(rows, i, k);
    assert Rows(read, lines[k..]) == rows[k..];
  }

  // ── Order, and nothing lost ──────────────────────────────────────

  ghost predicate Increasing(items: seq<Item>) {
    forall i, j :: 0 <= i < j < |items| ==> items[i].offset < items[j].offset
  }

  /** Item offsets strictly increase, as the lines' do. */
  lemma {:induction false} OffsetsIncrease(rows: seq<Row>, n: nat)
    requires n <= |rows| && forall p, q :: 0 <= p < q < |rows| ==> rows[p].offset < rows[q].offset
    ensures Increasing(All(Fold(rows[..n])))
    ensures forall i :: 0 <= i < |All(Fold(rows[..n]))| ==> n > 0 && All(Fold(rows[..n]))[i].offset <= rows[n - 1].offset
  {
    if n == 0 {
      assert rows[..n] == [];
    } else {
      assert rows[..n][..n - 1] == rows[..n - 1];
      OffsetsIncrease(rows, n - 1);
      FoldIsWellFormed(rows[..n - 1]);
      StepOffsets(Fold(rows[..n - 1]), rows[n - 1]);
    }
  }

  lemma ItemsAreInOrder(lines: seq<Line>)
    requires forall p, q :: 0 <= p < q < |lines| ==> lines[p].offset < lines[q].offset
    ensures Increasing(Split(Rows(Read, lines)))
  {
    ReadIsAReader();
    ReaderOrders(Read, lines);
  }

  lemma ReaderOrders(read: Reader, lines: seq<Line>)
    requires KeepsOffsets(read) && forall p, q :: 0 <= p < q < |lines| ==> lines[p].offset < lines[q].offset
    ensures Increasing(Split(Rows(read, lines)))
  {
    var rows := Rows(read, lines);
    forall p, q | 0 <= p < q < |rows| ensures rows[p].offset < rows[q].offset {
      assert rows[p].offset == lines[p].offset && rows[q].offset == lines[q].offset;
    }
    OffsetsIncrease(rows, |rows|);
    TakeAll(rows);
  }

  function NonBlank(lines: seq<string>): seq<string> {
    if lines == [] then []
    else
      var rest := NonBlank(lines[..|lines| - 1]);
      if IsBlank(lines[|lines| - 1]) then rest else rest + [lines[|lines| - 1]]
  }

  /** What an item holds of its lines: a header's time, a reply's lines that are not blank, all others' lines. */
  function Held(item: Item): seq<string> {
    match item.kind
    case Header => if item.startedAt.Some? then [item.startedAt.value] else []
    case Assistant => NonBlank(item.lines)
    case _ => item.lines
  }

  function HeldBy(items: seq<Item>): seq<string> {
    if items == [] then [] else HeldBy(items[..|items| - 1]) + Held(items[|items| - 1])
  }

  /** What a line contributes: nothing if it is blank, else one string. */
  function Contribution(s: State, r: Row): seq<string> {
    if r.header.Some? && !s.fenced then [r.header.value]
    else if Marks(s, r) && r.user.Some? then [r.user.value]
    else if Marks(s, r) && r.output.Some? then [r.output.value]
    else if r.blank then []
    else [r.text]
  }

  function Contributions(rows: seq<Row>): seq<string> {
    if rows == [] then []
    else Contributions(rows[..|rows| - 1]) + Contribution(Fold(rows[..|rows| - 1]), rows[|rows| - 1])
  }

  lemma {:induction false} TrimmingKeepsText(lines: seq<string>)
    ensures NonBlank(Trimmed(lines)) == NonBlank(lines)
  {
    if lines != [] && IsBlank(lines[|lines| - 1]) { TrimmingKeepsText(lines[..|lines| - 1]); }
  }

  lemma HeldByMore(items: seq<Item>, item: Item)
    ensures HeldBy(items + [item]) == HeldBy(items) + Held(item)
  {
    assert (items + [item])[..|items|] == items;
  }

  function HeldNow(s: State): seq<string> {
    HeldBy(s.items) + if s.cur.Some? then Held(s.cur.value) else []
  }

  lemma ClosingLosesNothing(s: State)
    ensures HeldBy(Close(s).items) == HeldNow(s)
  {
    if s.cur.Some? {
      HeldByMore(s.items, ClosedItem(s.cur.value));
      TrimmingKeepsText(s.cur.value.lines);
    }
  }

  lemma OpeningLosesNothing(s: State, kind: Kind, offset: nat)
    requires kind != Header
    ensures HeldNow(Open(s, kind, offset)) == HeldNow(s)
  {
    ClosingLosesNothing(s);
  }

  lemma ReopeningLosesNothing(s: State)
    requires Reopens(s)
    ensures HeldNow(Reopen(s)) == HeldNow(s)
  {
    HeldByMore(s.items[..|s.items| - 1], s.items[|s.items| - 1]);
    assert s.items == s.items[..|s.items| - 1] + [s.items[|s.items| - 1]];
  }

  lemma AddingHolds(s: State, text: string)
    requires s.cur.Some? && s.cur.value.kind != Header
    ensures HeldNow(Add(s, text)) == HeldNow(s) + if s.cur.value.kind == Assistant && IsBlank(text) then [] else [text]
  {
    var lines := s.cur.value.lines;
    assert (lines + [text])[..|lines|] == lines;
  }

  lemma StepHolds(s: State, r: Row)
    requires WellFormed(s) && (r.blank <==> IsBlank(r.text))
    ensures HeldNow(Step(s, r)) == HeldNow(s) + Contribution(s, r)
  {
    if r.header.Some? && !s.fenced {
      ClosingLosesNothing(s);
      HeldByMore(Close(s).items, HeaderItem(r));
    } else if Marks(s, r) && r.user.Some? {
      var s1 := if In(s, User) then s else Open(s, User, r.offset);
      OpeningLosesNothing(s, User, r.offset);
      AddingHolds(s1, r.user.value);
    } else if Marks(s, r) && r.output.Some? {
      OutputHolds(s, r);
    } else if r.blank {
      if In(s, Assistant) { AddingHolds(s, ""); } else { ClosingLosesNothing(s); }
    } else {
      ReplyHolds(s, r);
    }
  }

  lemma OutputHolds(s: State, r: Row)
    requires WellFormed(s) && r.output.Some?
    ensures var s1 := if In(s, Output) then s else if Reopens(s) then Reopen(s) else Open(s, Output, r.offset);
            HeldNow(Add(s1, r.output.value)) == HeldNow(s) + [r.output.value]
  {
    var s1 := if In(s, Output) then s else if Reopens(s) then Reopen(s) else Open(s, Output, r.offset);
    if Reopens(s) { ReopeningLosesNothing(s); }
    OpeningLosesNothing(s, Output, r.offset);
    AddingHolds(s1, r.output.value);
  }

  lemma ReplyHolds(s: State, r: Row)
    requires WellFormed(s) && !IsBlank(r.text)
    ensures var s1 := if In(s, Assistant) then s else Open(s, Assistant, r.offset);
            HeldNow(Add(if r.fence then s1.(fenced := !s1.fenced) else s1, r.text)) == HeldNow(s) + [r.text]
  {
    var s1 := if In(s, Assistant) then s else Open(s, Assistant, r.offset);
    var s2 := if r.fence then s1.(fenced := !s1.fenced) else s1;
    OpeningLosesNothing(s, Assistant, r.offset);
    assert HeldNow(s2) == HeldNow(s1);
    AddingHolds(s2, r.text);
  }

  /** Every line that is not blank lands in exactly one item, in order; blank lines add nothing. */
  lemma EveryLineLandsOnce(lines: seq<Line>)
    ensures HeldBy(Split(Rows(Read, lines))) == Contributions(Rows(Read, lines))
  {
    ReadIsAReader();
    ReaderLosesNothing(Read, lines);
  }

  lemma ReaderLosesNothing(read: Reader, lines: seq<Line>)
    requires SeesBlanks(read)
    ensures HeldBy(Split(Rows(read, lines))) == Contributions(Rows(read, lines))
  {
    FoldHolds(Rows(read, lines));
    ClosingLosesNothing(Fold(Rows(read, lines)));
  }

  lemma {:induction false} FoldHolds(rows: seq<Row>)
    requires forall i :: 0 <= i < |rows| ==> (rows[i].blank <==> IsBlank(rows[i].text))
    ensures HeldNow(Fold(rows)) == Contributions(rows)
  {
    if rows != [] {
      var init := rows[..|rows| - 1];
      FoldHolds(init);
      FoldIsWellFormed(init);
      StepHolds(Fold(init), rows[|rows| - 1]);
    }
  }

  /** Exactly the lines with something on them contribute. */
  lemma BlankLinesAlone(s: State, line: Line)
    ensures |Contribution(s, Read(line))| == if IsBlank(Read(line).text) then 0 else 1
  {
    var text := Read(line).text;
    if HEADER <= text || "####" <= text || ">" <= text {
      assert !IsSpace(text[0]);
    }
  }
}
