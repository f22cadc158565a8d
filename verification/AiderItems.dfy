/**
 * Which stretch of an Aider log each item stands for, and what it holds of it
 * (packages/core/aider-adapter.ts, `splitAiderLines`).
 */
module AiderItems {
  import opened Wrappers
  import opened Seqs
  import opened Text
  import opened Aider
  import opened AiderMeaning

  // ── One item, one stretch of lines ───────────────────────────────

  /** Blank and nothing else. */
  predicate Idle(r: Row) {
    r.blank && r.header.None? && r.user.None? && r.output.None?
  }

  ghost predicate AllIdle(rows: seq<Row>, lo: nat, hi: nat) {
    forall k :: lo <= k < hi && k < |rows| ==> Idle(rows[k])
  }

  /** One header, then blank lines. */
  ghost predicate HeaderMeans(item: Item, rows: seq<Row>, lo: nat, hi: nat)
    requires lo < hi <= |rows|
  {
    rows[lo].header.Some? && item == Item(Header, rows[lo].offset, [], rows[lo].header) && AllIdle(rows, lo + 1, hi)
  }

  /** Every line of a stretch is input, and these are their texts. */
  ghost predicate InputRun(lines: seq<string>, rows: seq<Row>, lo: nat, hi: nat) {
    && lo <= hi <= |rows| && |lines| == hi - lo
    && forall k :: lo <= k < hi ==> rows[k].header.None? && rows[k].user == Some(lines[k - lo])
  }

  /** Consecutive input lines, then blank ones. */
  ghost predicate UserMeans(lines: seq<string>, rows: seq<Row>, lo: nat, hi: nat) {
    exists mid: nat :: lo < mid <= hi && InputRun(lines, rows, lo, mid) && AllIdle(rows, mid, hi)
  }

  predicate Prints(r: Row) {
    r.header.None? && r.user.None? && r.output.Some?
  }

  /** What the output lines of a stretch say, in order. */
  function Printed(rows: seq<Row>, lo: nat, hi: nat): seq<string>
    requires lo <= hi <= |rows|
    decreases hi
  {
    if lo == hi then []
    else if Prints(rows[hi - 1]) then Printed(rows, lo, hi - 1) + [rows[hi - 1].output.value]
    else Printed(rows, lo, hi - 1)
  }

  /** Output lines, with only blank ones between and after them. */
  ghost predicate OutputMeans(lines: seq<string>, rows: seq<Row>, lo: nat, hi: nat)
    requires lo < hi <= |rows|
  {
    && Prints(rows[lo]) && (forall k :: lo <= k < hi ==> Prints(rows[k]) || Idle(rows[k]))
    && lines == Printed(rows, lo, hi)
  }

  /** A line in a reply stands for itself, a blank one for nothing. */
  function ReplyText(r: Row): string {
    if r.blank then "" else r.text
  }

  /** How many fences a stretch of a reply holds: inside one when odd. */
  function Fences(rows: seq<Row>, lo: nat, hi: nat): nat
    requires lo <= hi <= |rows|
    decreases hi
  {
    if lo == hi then 0 else Fences(rows, lo, hi - 1) + if rows[hi - 1].fence && !rows[hi - 1].blank then 1 else 0
  }

  /** A line ends the reply before it: outside a fence, a header, or a hard-broken line of input or output. */
  predicate EndsReply(rows: seq<Row>, lo: nat, k: nat)
    requires lo <= k < |rows|
  {
    Fences(rows, lo, k) % 2 == 0 && (rows[k].header.Some? || (rows[k].hard && (rows[k].user.Some? || rows[k].output.Some?)))
  }

  /** The lines of a stretch that starts a reply and does not end it. */
  ghost predicate ReplyRun(lines: seq<string>, rows: seq<Row>, lo: nat, hi: nat) {
    && lo < hi <= |rows| && |lines| == hi - lo
    && rows[lo].header.None? && rows[lo].user.None? && rows[lo].output.None? && !rows[lo].blank
    && (forall k :: lo < k < hi ==> !EndsReply(rows, lo, k))
    && (forall k :: lo <= k < hi ==> lines[k - lo] == ReplyText(rows[k]))
  }

  /** A reply holds its lines up to the last that is not blank. */
  ghost predicate ReplyMeans(lines: seq<string>, rows: seq<Row>, lo: nat, hi: nat) {
    exists all: seq<string> :: ReplyRun(all, rows, lo, hi) && lines != [] && lines <= all && !IsBlank(lines[|lines| - 1])
                               && forall i :: |lines| <= i < |all| ==> IsBlank(all[i])
  }

  ghost predicate ItemMeans(item: Item, rows: seq<Row>, lo: nat, hi: nat)
    requires lo < hi <= |rows|
  {
    match item.kind
    case Header => HeaderMeans(item, rows, lo, hi)
    case User => item.offset == rows[lo].offset && item.startedAt.None? && UserMeans(item.lines, rows, lo, hi)
    case Output => item.offset == rows[lo].offset && item.startedAt.None? && OutputMeans(item.lines, rows, lo, hi)
    case Assistant => item.offset == rows[lo].offset && item.startedAt.None? && ReplyMeans(item.lines, rows, lo, hi)
  }

  /** Why a new item starts at line `k` rather than the one before, from line `lo`, going on. */
  ghost predicate Turns(before: Kind, after: Kind, rows: seq<Row>, lo: nat, k: nat)
    requires lo < k < |rows|
  {
    && (before == Assistant ==> EndsReply(rows, lo, k))
    && (before == User && after == User ==> Idle(rows[k - 1]))
    && !(before == Output && after == Output)
  }

  ghost predicate ItemAt(rows: seq<Row>, cuts: seq<nat>, items: seq<Item>, i: nat) {
    && i < |items| && i + 1 < |cuts| && cuts[i] < cuts[i + 1] <= |rows|
    && ItemMeans(items[i], rows, cuts[i], cuts[i + 1])
    && (i > 0 ==> cuts[i - 1] < cuts[i] && Turns(items[i - 1].kind, items[i].kind, rows, cuts[i - 1], cuts[i]))
  }

  /** The items explain the first `n` lines: blank ones first, then each item its own stretch, all the way. */
  ghost predicate Explains(rows: seq<Row>, n: nat, cuts: seq<nat>, items: seq<Item>) {
    && |cuts| == |items| + 1 && cuts[|items|] == n <= |rows| && cuts[0] <= n && AllIdle(rows, 0, cuts[0])
    && forall i :: 0 <= i < |items| ==> ItemAt(rows, cuts, items, i)
  }

  // ── Growing an explanation by a line ─────────────────────────────

  lemma AppendItem(rows: seq<Row>, n: nat, cuts: seq<nat>, items: seq<Item>, item: Item)
    requires Explains(rows, n, cuts, items) && n < |rows| && ItemMeans(item, rows, n, n + 1)
    requires items != [] ==> cuts[|items| - 1] < n && Turns(items[|items| - 1].kind, item.kind, rows, cuts[|items| - 1], n)
    ensures Explains(rows, n + 1, cuts + [n + 1], items + [item])
  {
    var more, all := cuts + [n + 1], items + [item];
    forall i | 0 <= i < |all| ensures ItemAt(rows, more, all, i) {
      if i < |items| { assert ItemAt(rows, cuts, items, i); }
    }
  }

  lemma GrowLast(rows: seq<Row>, n: nat, cuts: seq<nat>, items: seq<Item>, item: Item)
    requires Explains(rows, n, cuts, items) && n < |rows| && items != [] && cuts[|items| - 1] < n
    requires ItemMeans(item, rows, cuts[|items| - 1], n + 1) && item.kind == items[|items| - 1].kind
    ensures Explains(rows, n + 1, cuts[|items| := n + 1], items[|items| - 1 := item])
  {
    var more, all := cuts[|items| := n + 1], items[|items| - 1 := item];
    forall i | 0 <= i < |all| ensures ItemAt(rows, more, all, i) {
      assert ItemAt(rows, cuts, items, i);
    }
  }

  lemma BlankStart(rows: seq<Row>, n: nat, cuts: seq<nat>)
    requires Explains(rows, n, cuts, []) && n < |rows| && Idle(rows[n])
    ensures Explains(rows, n + 1, [n + 1], [])
  {
  }

  // ── What is open after some lines ────────────────────────────────

  ghost predicate TailMeans(s: State, rows: seq<Row>, n: nat, cuts: seq<nat>) {
    match s.cur
    case None =>
      s.items != [] ==> s.items[|s.items| - 1].kind != Assistant
                        && (s.items[|s.items| - 1].kind == User ==> 0 < n <= |rows| && Idle(rows[n - 1]))
    case Some(c) =>
      && |cuts| == |s.items| + 2
      && (c.kind == User ==> InputRun(c.lines, rows, cuts[|s.items|], n))
      && (c.kind == Assistant ==> ReplyRun(c.lines, rows, cuts[|s.items|], n)
                                  && (s.fenced <==> Fences(rows, cuts[|s.items|], n) % 2 == 1))
  }

  ghost predicate Means(s: State, rows: seq<Row>, n: nat, cuts: seq<nat>) {
    WellFormed(s) && Explains(rows, n, cuts, All(s)) && TailMeans(s, rows, n, cuts)
  }

  ghost predicate SeesItsBlanks(rows: seq<Row>) {
    forall k :: 0 <= k < |rows| ==> (rows[k].blank <==> IsBlank(rows[k].text))
  }

  lemma {:induction false} TrimmedIs(lines: seq<string>)
    ensures Trimmed(lines) != [] ==> !IsBlank(Trimmed(lines)[|Trimmed(lines)| - 1])
    ensures forall i :: |Trimmed(lines)| <= i < |lines| ==> IsBlank(lines[i])
  {
    if lines != [] && IsBlank(lines[|lines| - 1]) { TrimmedIs(lines[..|lines| - 1]); }
  }

  /** A reply, closed, holds what it should. */
  lemma ReplyCloses(c: Item, rows: seq<Row>, lo: nat, hi: nat)
    requires SeesItsBlanks(rows) && ReplyRun(c.lines, rows, lo, hi) && c.kind == Assistant
    requires c.offset == rows[lo].offset && c.startedAt.None?
    ensures ItemMeans(ClosedItem(c), rows, lo, hi)
  {
    TrimmedIs(c.lines);
    assert !IsBlank(c.lines[0]);
  }

  lemma ReplyGrows(lines: seq<string>, rows: seq<Row>, lo: nat, n: nat)
    requires ReplyRun(lines, rows, lo, n) && n < |rows| && !EndsReply(rows, lo, n)
    ensures ReplyRun(lines + [ReplyText(rows[n])], rows, lo, n + 1)
  {
  }

  lemma InputGrows(lines: seq<string>, rows: seq<Row>, lo: nat, n: nat)
    requires InputRun(lines, rows, lo, n) && n < |rows| && rows[n].header.None? && rows[n].user.Some?
    ensures InputRun(lines + [rows[n].user.value], rows, lo, n + 1)
    ensures UserMeans(lines + [rows[n].user.value], rows, lo, n + 1)
  {
  }

  /** More blank lines change no closed item that is not a reply. */
  lemma BlankGrows(item: Item, rows: seq<Row>, lo: nat, n: nat)
    requires lo < n < |rows| && Idle(rows[n]) && item.kind != Assistant && ItemMeans(item, rows, lo, n)
    ensures ItemMeans(item, rows, lo, n + 1)
  {
    if item.kind == User {
      var mid: nat :| lo < mid <= n && InputRun(item.lines, rows, lo, mid) && AllIdle(rows, mid, n);
      assert AllIdle(rows, mid, n + 1);
    }
  }

  // ── Each kind of line ────────────────────────────────────────────

  ghost predicate MeansAfter(s: State, rows: seq<Row>, n: nat) {
    exists cuts: seq<nat> :: Means(s, rows, n, cuts)
  }

  /** What a state's last item is, and where it began. */
  lemma LastOf(s: State, rows: seq<Row>, n: nat, cuts: seq<nat>)
    requires Means(s, rows, n, cuts) && All(s) != []
    ensures var i := |All(s)| - 1;
            && cuts[i] < n <= |rows| && ItemMeans(All(s)[i], rows, cuts[i], n)
            && (s.cur.Some? ==> i == |s.items| && All(s)[i] == ClosedItem(s.cur.value))
            && (s.cur.None? ==> All(s) == s.items)
  {
    assert ItemAt(rows, cuts, All(s), |All(s)| - 1);
  }

  lemma HeaderLineStep(s: State, rows: seq<Row>, n: nat, cuts: seq<nat>)
    requires Means(s, rows, n, cuts) && n < |rows| && rows[n].header.Some? && !s.fenced
    ensures MeansAfter(Step(s, rows[n]), rows, n + 1)
  {
    if All(s) != [] { LastOf(s, rows, n, cuts); }
    AppendItem(rows, n, cuts, All(s), HeaderItem(rows[n]));
    assert Means(Step(s, rows[n]), rows, n + 1, cuts + [n + 1]);
  }

  lemma OpensItem(s: State, rows: seq<Row>, n: nat, cuts: seq<nat>, c: Item, fenced: bool)
    requires Means(s, rows, n, cuts) && n < |rows| && c.kind != Header && (fenced ==> c.kind == Assistant)
    requires ItemMeans(ClosedItem(c), rows, n, n + 1) && (c.kind == User ==> InputRun(c.lines, rows, n, n + 1))
    requires c.kind == Assistant ==> ReplyRun(c.lines, rows, n, n + 1) && (fenced <==> Fences(rows, n, n + 1) % 2 == 1)
    requires All(s) != [] ==> cuts[|All(s)| - 1] < n && Turns(All(s)[|All(s)| - 1].kind, c.kind, rows, cuts[|All(s)| - 1], n)
    ensures MeansAfter(State(All(s), Some(c), fenced), rows, n + 1)
  {
    AppendItem(rows, n, cuts, All(s), ClosedItem(c));
    assert Means(State(All(s), Some(c), fenced), rows, n + 1, cuts + [n + 1]);
  }

  lemma GrowsItem(s: State, rows: seq<Row>, n: nat, cuts: seq<nat>, items: seq<Item>, c: Item, fenced: bool)
    requires Means(s, rows, n, cuts) && n < |rows| && All(s) != [] && c.kind != Header && (fenced ==> c.kind == Assistant)
    requires items == All(s)[..|All(s)| - 1] && c.kind == All(s)[|All(s)| - 1].kind
    requires cuts[|items|] < n && ItemMeans(ClosedItem(c), rows, cuts[|items|], n + 1)
    requires c.kind == User ==> InputRun(c.lines, rows, cuts[|items|], n + 1)
    requires c.kind == Assistant ==> ReplyRun(c.lines, rows, cuts[|items|], n + 1) && (fenced <==> Fences(rows, cuts[|items|], n + 1) % 2 == 1)
    ensures MeansAfter(State(items, Some(c), fenced), rows, n + 1)
  {
    GrowLast(rows, n, cuts, All(s), ClosedItem(c));
    var now := cuts[|All(s)| := n + 1];
    assert items + [ClosedItem(c)] == All(s)[|All(s)| - 1 := ClosedItem(c)];
    assert Means(State(items, Some(c), fenced), rows, n + 1, now);
  }

  lemma EndsTheReply(s: State, rows: seq<Row>, n: nat, lo: nat)
    requires lo < n < |rows| && In(s, Assistant) && Marks(s, rows[n]) && (s.fenced <==> Fences(rows, lo, n) % 2 == 1)
    requires rows[n].user.Some? || rows[n].output.Some?
    ensures EndsReply(rows, lo, n)
  {
  }

  lemma TurnsFromTail(s: State, rows: seq<Row>, n: nat, cuts: seq<nat>, kind: Kind, lo: nat)
    requires TailMeans(s, rows, n, cuts) && lo < n < |rows| && Marks(s, rows[n]) && !In(s, kind)
    requires (kind == User && rows[n].user.Some?) || (kind == Output && rows[n].output.Some? && !Reopens(s))
    requires (s.cur.Some? ==> lo == cuts[|s.items|]) && (s.cur.None? ==> s.items != [])
    ensures Turns(if s.cur.Some? then s.cur.value.kind else s.items[|s.items| - 1].kind, kind, rows, lo, n)
  {
    if In(s, Assistant) { EndsTheReply(s, rows, n, lo); }
  }

  /** What makes a line of input or output turn from what came before to an item of its own. */
  lemma TurnsHere(s: State, rows: seq<Row>, n: nat, cuts: seq<nat>, kind: Kind)
    requires Means(s, rows, n, cuts) && n < |rows| && Marks(s, rows[n]) && !In(s, kind) && All(s) != []
    requires (kind == User && rows[n].user.Some?) || (kind == Output && rows[n].output.Some? && !Reopens(s))
    ensures cuts[|All(s)| - 1] < n && Turns(All(s)[|All(s)| - 1].kind, kind, rows, cuts[|All(s)| - 1], n)
  {
    LastOf(s, rows, n, cuts);
    TurnsFromTail(s, rows, n, cuts, kind, cuts[|All(s)| - 1]);
  }

  lemma OpensRun(s: State, kind: Kind, offset: nat, said: string)
    ensures Add(Open(s, kind, offset), said) == State(All(s), Some(Item(kind, offset, [said], None)), false)
  {
    assert [] + [said] == [said];
  }

  lemma UserLineStep(s: State, rows: seq<Row>, n: nat, cuts: seq<nat>)
    requires Means(s, rows, n, cuts) && n < |rows| && rows[n].header.None? && Marks(s, rows[n]) && rows[n].user.Some?
    ensures MeansAfter(Step(s, rows[n]), rows, n + 1)
  {
    var said := rows[n].user.value;
    if In(s, User) {
      LastOf(s, rows, n, cuts);
      InputGrows(s.cur.value.lines, rows, cuts[|s.items|], n);
      GrowsItem(s, rows, n, cuts, s.items, s.cur.value.(lines := s.cur.value.lines + [said]), s.fenced);
    } else {
      if All(s) != [] { TurnsHere(s, rows, n, cuts, User); }
      InputGrows([], rows, n, n);
      OpensItem(s, rows, n, cuts, Item(User, rows[n].offset, [said], None), false);
      OpensRun(s, User, rows[n].offset, said);
    }
  }

  lemma OutputGrows(lines: seq<string>, rows: seq<Row>, lo: nat, n: nat)
    requires lo < n < |rows| && OutputMeans(lines, rows, lo, n) && Prints(rows[n])
    ensures OutputMeans(lines + [rows[n].output.value], rows, lo, n + 1)
  {
  }

  lemma PrintedOne(rows: seq<Row>, n: nat)
    requires n < |rows| && Prints(rows[n])
    ensures OutputMeans([rows[n].output.value], rows, n, n + 1)
  {
    assert Printed(rows, n, n) == [];
  }

  lemma OutputGrowsItem(s: State, rows: seq<Row>, n: nat, cuts: seq<nat>, items: seq<Item>, c: Item)
    requires Means(s, rows, n, cuts) && n < |rows| && Prints(rows[n]) && All(s) != [] && !s.fenced
    requires items == All(s)[..|All(s)| - 1] && c == All(s)[|All(s)| - 1] && c.kind == Output
    ensures MeansAfter(State(items, Some(c.(lines := c.lines + [rows[n].output.value])), false), rows, n + 1)
  {
    LastOf(s, rows, n, cuts);
    OutputGrows(c.lines, rows, cuts[|items|], n);
    GrowsItem(s, rows, n, cuts, items, c.(lines := c.lines + [rows[n].output.value]), false);
  }

  lemma OutputLineStep(s: State, rows: seq<Row>, n: nat, cuts: seq<nat>)
    requires Means(s, rows, n, cuts) && n < |rows| && Prints(rows[n]) && Marks(s, rows[n])
    ensures MeansAfter(Step(s, rows[n]), rows, n + 1)
  {
    if In(s, Output) {
      OutputGrowsItem(s, rows, n, cuts, s.items, s.cur.value);
    } else if Reopens(s) {
      OutputGrowsItem(s, rows, n, cuts, s.items[..|s.items| - 1], s.items[|s.items| - 1]);
    } else {
      if All(s) != [] { TurnsHere(s, rows, n, cuts, Output); }
      PrintedOne(rows, n);
      OpensItem(s, rows, n, cuts, Item(Output, rows[n].offset, [rows[n].output.value], None), false);
      OpensRun(s, Output, rows[n].offset, rows[n].output.value);
    }
  }

  lemma BlankLineStep(s: State, rows: seq<Row>, n: nat, cuts: seq<nat>)
    requires Means(s, rows, n, cuts) && n < |rows| && Idle(rows[n]) && !In(s, Assistant)
    ensures MeansAfter(Close(s), rows, n + 1)
  {
    if All(s) == [] {
      BlankStart(rows, n, cuts);
      assert Means(Close(s), rows, n + 1, [n + 1]);
    } else {
      LastOf(s, rows, n, cuts);
      var last := All(s)[|All(s)| - 1];
      BlankGrows(last, rows, cuts[|All(s)| - 1], n);
      GrowLast(rows, n, cuts, All(s), last);
      assert All(s)[|All(s)| - 1 := last] == All(s);
      assert Means(Close(s), rows, n + 1, cuts[|All(s)| := n + 1]);
    }
  }

  /** A reply and one more of its lines, blank or not. */
  function GrownReply(c: Item, r: Row): Item {
    c.(lines := c.lines + [ReplyText(r)])
  }

  lemma GrownReplyMeans(c: Item, rows: seq<Row>, lo: nat, n: nat)
    requires SeesItsBlanks(rows) && ReplyRun(c.lines, rows, lo, n) && n < |rows| && c.kind == Assistant && !EndsReply(rows, lo, n)
    requires c.offset == rows[lo].offset && c.startedAt.None?
    ensures ReplyRun(GrownReply(c, rows[n]).lines, rows, lo, n + 1) && ItemMeans(ClosedItem(GrownReply(c, rows[n])), rows, lo, n + 1)
  {
    ReplyGrows(c.lines, rows, lo, n);
    ReplyCloses(GrownReply(c, rows[n]), rows, lo, n + 1);
  }

  predicate Toggled(fenced: bool, r: Row) {
    if r.fence && !r.blank then !fenced else fenced
  }

  lemma FencesToggle(fenced: bool, rows: seq<Row>, lo: nat, n: nat)
    requires lo <= n < |rows| && (fenced <==> Fences(rows, lo, n) % 2 == 1)
    ensures Toggled(fenced, rows[n]) <==> Fences(rows, lo, n + 1) % 2 == 1
  {
  }

  lemma ReplyLineStep(s: State, rows: seq<Row>, n: nat, cuts: seq<nat>)
    requires SeesItsBlanks(rows) && Means(s, rows, n, cuts) && n < |rows| && In(s, Assistant) && !EndsReply(rows, cuts[|s.items|], n)
    ensures MeansAfter(State(s.items, Some(GrownReply(s.cur.value, rows[n])), Toggled(s.fenced, rows[n])), rows, n + 1)
  {
    var lo := cuts[|s.items|];
    LastOf(s, rows, n, cuts);
    GrownReplyMeans(s.cur.value, rows, lo, n);
    FencesToggle(s.fenced, rows, lo, n);
    GrowsItem(s, rows, n, cuts, s.items, GrownReply(s.cur.value, rows[n]), Toggled(s.fenced, rows[n]));
  }

  lemma NewReplyStep(s: State, rows: seq<Row>, n: nat, cuts: seq<nat>)
    requires SeesItsBlanks(rows) && Means(s, rows, n, cuts) && n < |rows| && !In(s, Assistant)
    requires rows[n].header.None? && rows[n].user.None? && rows[n].output.None? && !rows[n].blank
    ensures MeansAfter(State(All(s), Some(Item(Assistant, rows[n].offset, [rows[n].text], None)), rows[n].fence), rows, n + 1)
  {
    var c := Item(Assistant, rows[n].offset, [rows[n].text], None);
    if All(s) != [] { LastOf(s, rows, n, cuts); }
    assert Fences(rows, n, n) == 0;
    assert ReplyRun(c.lines, rows, n, n + 1);
    ReplyCloses(c, rows, n, n + 1);
    OpensItem(s, rows, n, cuts, c, rows[n].fence);
  }

  lemma StepMeans(s: State, rows: seq<Row>, n: nat, cuts: seq<nat>)
    requires SeesItsBlanks(rows) && Means(s, rows, n, cuts) && n < |rows|
    ensures MeansAfter(Step(s, rows[n]), rows, n + 1)
  {
    var r := rows[n];
    if r.header.Some? && !s.fenced {
      HeaderLineStep(s, rows, n, cuts);
    } else if Marks(s, r) && r.user.Some? {
      UserLineStep(s, rows, n, cuts);
    } else if Marks(s, r) && r.output.Some? {
      OutputLineStep(s, rows, n, cuts);
    } else if In(s, Assistant) {
      ReplyLineStep(s, rows, n, cuts);
      assert Step(s, r) == State(s.items, Some(GrownReply(s.cur.value, r)), Toggled(s.fenced, r));
    } else if r.blank {
      BlankLineStep(s, rows, n, cuts);
    } else {
      NewReplyStep(s, rows, n, cuts);
      assert [] + [r.text] == [r.text];
    }
  }

  lemma {:induction false} FoldMeans(rows: seq<Row>, n: nat)
    requires SeesItsBlanks(rows) && n <= |rows|
    ensures MeansAfter(Fold(rows[..n]), rows, n)
  {
    if n == 0 {
      assert Means(START, rows, 0, [0]);
    } else {
      FoldMeans(rows, n - 1);
      FoldOneMore(rows, n - 1);
      var cuts: seq<nat> :| Means(Fold(rows[..n - 1]), rows, n - 1, cuts);
      StepMeans(Fold(rows[..n - 1]), rows, n - 1, cuts);
    }
  }

  // ── The whole log ────────────────────────────────────────────────

  /** Each line is what its text makes it, and the items explain them all. */
  ghost predicate LogMeans(lines: seq<Line>, items: seq<Item>) {
    exists rows: seq<Row>, cuts: seq<nat> ::
      |rows| == |lines| && (forall k :: 0 <= k < |lines| ==> Says(lines[k], rows[k])) && Explains(rows, |rows|, cuts, items)
  }

  lemma SplitMeans(lines: seq<Line>)
    ensures LogMeans(lines, Split(Rows(Read, lines)))
  {
    var rows := Rows(Read, lines);
    forall k | 0 <= k < |lines| ensures Says(lines[k], rows[k]) {
      ReadSays(lines[k]);
    }
    FoldMeans(rows, |rows|);
    TakeAll(rows);
    var cuts: seq<nat> :| Means(Fold(rows), rows, |rows|, cuts);
  }

  lemma HiIsSaid(text: string)
    requires text == "#### hi"
    ensures UserLine(text)("hi")
    ensures forall said: string :: UserLine(text)(said) ==> said == "hi"
    ensures forall time: string :: !HeaderLine(text)(time)
  {
    assert text == "#### " + "hi" + "";
    forall said: string | UserLine(text)(said) ensures said == "hi" {
      var blanks: string :| IsBlank(blanks) && text == "#### " + said + blanks;
      assert text == "#### " + (said + blanks);
      After(text, "#### ", said + blanks);
      CleanEndIsUnique(said, "hi", blanks, "");
    }
    forall time: string ensures !HeaderLine(text)(time) {
      HeaderLineStarts(text, time);
    }
  }

  lemma HeaderLineStarts(text: string, time: string)
    ensures HeaderLine(text)(time) ==> |text| > 1 && text[1] == ' '
  {
  }

  lemma OneInputLine(r: Row)
    requires r.header.None? && r.user.Some?
    ensures Split([r]) == [Item(User, r.offset, [r.user.value], None)]
  {
    var rows := [r];
    assert rows[..0] == [];
    FoldOneMore(rows, 0);
    TakeAll(rows);
    OpensRun(START, User, r.offset, r.user.value);
  }

  /** A prompt comes out as input. */
  lemma PromptIsInput(line: Line)
    requires line.text == "#### hi"
    ensures Split(Rows(Read, [line])) == [Item(User, line.offset, ["hi"], None)]
  {
    var r := Read(line);
    ReadSays(line);
    HiIsSaid(r.text);
    OneInputLine(r);
    assert Rows(Read, [line]) == [r];
  }
}
