/**
 * One rebuilt range of the energy tables (packages/core/energy-attribution.ts, `buildEnergyChunk`):
 * every node's buckets, and the active energy of each split over the messages that landed in it.
 */
module EnergyChunk {
  import opened Wrappers
  import opened Seqs
  import opened EnergyBuckets

  const MINUTE_MS := 60000

  datatype GroupKey = GroupKey(host: string, model: string, projectId: int, harness: string)

  /** A message as the join sees it: where its inference ran, if anywhere we know, and what it weighs there. */
  datatype Message = Message(id: nat, ts: Option<int>, key: Option<GroupKey>, tokens: real, weight: real)

  datatype Group = Group(key: GroupKey, bucket: int, messages: real, tokens: real, weight: real)

  /** A sampled node: its intervals, and its idle draw at an instant. */
  datatype Node = Node(name: string, intervals: seq<Interval>, idleFor: IdleFor)

  /** A node's integrated buckets, in the order its samples opened them. */
  datatype NodeBuckets = NodeBuckets(host: string, buckets: seq<NodeBucket>)

  datatype NodeRow = NodeRow(host: string, energy: NodeBucket, attributedWh: real)
  datatype GroupRow = GroupRow(group: Group, activeWh: real, measured: bool)

  /** What both tables hold for one bucket. */
  datatype Rows = Rows(nodes: seq<NodeRow>, groups: seq<GroupRow>)

  const NO_ROWS := Rows([], [])

  /** The query folds messages to the minute. */
  function MinuteOf(ts: int): int {
    ts / MINUTE_MS * MINUTE_MS
  }

  /** A quarter hour is whole minutes, so that moves no message to another bucket. */
  lemma MinuteKeepsBucket(ts: int)
    ensures BucketOf(MinuteOf(ts)) == BucketOf(ts)
  {
    assert ts / MINUTE_MS / 15 == ts / BUCKET_MS;
    assert ts / MINUTE_MS * MINUTE_MS / BUCKET_MS == ts / BUCKET_MS;
  }

  // ── Messages into groups ─────────────────────────────────────────

  function AddMessage(g: Group, m: Message): Group {
    g.(messages := g.messages + 1.0, tokens := g.tokens + m.tokens, weight := g.weight + m.weight)
  }

  /** The insertion-ordered map's update: the group's own entry, or a new one at the end. */
  function DepositMessage(groups: seq<Group>, m: Message, key: GroupKey, bucket: int): seq<Group> {
    if groups == [] then [AddMessage(Group(key, bucket, 0.0, 0.0, 0.0), m)]
    else if groups[0].key == key && groups[0].bucket == bucket then [AddMessage(groups[0], m)] + groups[1..]
    else [groups[0]] + DepositMessage(groups[1..], m, key, bucket)
  }

  predicate InRange(m: Message, start: int, end: int) {
    m.ts.Some? && start <= m.ts.value < end
  }

  function Gather(msgs: seq<Message>, start: int, end: int): seq<Group> {
    if msgs == [] then []
    else
      var groups, m := Gather(msgs[..|msgs| - 1], start, end), msgs[|msgs| - 1];
      if InRange(m, start, end) && m.key.Some? then DepositMessage(groups, m, m.key.value, BucketOf(m.ts.value)) else groups
  }

  /** The messages of one bucket. */
  function InBucket(msgs: seq<Message>, b: int): seq<Message> {
    if msgs == [] then []
    else
      var rest, m := InBucket(msgs[..|msgs| - 1], b), msgs[|msgs| - 1];
      if InRange(m, b, b + BUCKET_MS) then rest + [m] else rest
  }

  function GroupsAt(groups: seq<Group>, b: int): seq<Group> {
    if groups == [] then []
    else if groups[0].bucket == b then [groups[0]] + GroupsAt(groups[1..], b)
    else GroupsAt(groups[1..], b)
  }

  function GroupsOn(groups: seq<Group>, host: string): seq<Group> {
    if groups == [] then []
    else if groups[0].key.host == host then [groups[0]] + GroupsOn(groups[1..], host)
    else GroupsOn(groups[1..], host)
  }

  // ── A bucket's rows ──────────────────────────────────────────────

  function Weights(groups: seq<Group>): (ws: seq<real>)
    ensures |ws| == |groups|
  {
    seq(|groups|, i requires 0 <= i < |groups| => groups[i].weight)
  }

  function Counts(groups: seq<Group>): (ns: seq<real>)
    ensures |ns| == |groups|
  {
    seq(|groups|, i requires 0 <= i < |groups| => groups[i].messages)
  }

  function SharesOf(nb: NodeBucket, list: seq<Group>): (shares: seq<real>)
    ensures |shares| == |list|
  {
    SplitActive(nb.activeWh, Weights(list), Counts(list))
  }

  function Paired(list: seq<Group>, shares: seq<real>): (r: seq<GroupRow>)
    requires |shares| == |list|
    ensures |r| == |list| && forall i :: 0 <= i < |list| ==> r[i] == GroupRow(list[i], shares[i], true)
  {
    seq(|list|, i requires 0 <= i < |list| => GroupRow(list[i], shares[i], true))
  }

  /** One node's part of a bucket: its groups with their shares, then its own row. */
  function AddNode(rows: Rows, host: string, nb: Option<NodeBucket>, groups: seq<Group>): Rows {
    if nb.None? then rows
    else
      var list := GroupsOn(groups, host);
      var shares := SharesOf(nb.value, list);
      Rows(rows.nodes + [NodeRow(host, nb.value, SumOf(shares))], rows.groups + Paired(list, shares))
  }

  function NodesRows(built: seq<NodeBuckets>, b: int, groups: seq<Group>): Rows {
    if built == [] then NO_ROWS
    else
      var n := built[|built| - 1];
      AddNode(NodesRows(built[..|built| - 1], b, groups), n.host, At(n.buckets, b), groups)
  }

  /** The nodes that were sampled in a bucket. */
  function SampledIn(built: seq<NodeBuckets>, b: int): set<string> {
    if built == [] then {}
    else
      var rest, n := SampledIn(built[..|built| - 1], b), built[|built| - 1];
      if At(n.buckets, b).Some? then rest + {n.host} else rest
  }

  /** Tokens a node served while it was not sampled: kept, unmeasured. */
  function Unmeasured(groups: seq<Group>, sampled: set<string>): seq<GroupRow> {
    if groups == [] then []
    else if groups[0].key.host in sampled then Unmeasured(groups[1..], sampled)
    else [GroupRow(groups[0], 0.0, false)] + Unmeasured(groups[1..], sampled)
  }

  /** Both tables' rows for bucket `b`, out of a range's node buckets and groups. */
  function RowsOf(built: seq<NodeBuckets>, groups: seq<Group>, b: int): Rows {
    var own := GroupsAt(groups, b);
    var measured := NodesRows(built, b, own);
    measured.(groups := measured.groups + Unmeasured(own, SampledIn(built, b)))
  }

  function BuiltNode(n: Node, start: int, end: int): NodeBuckets {
    NodeBuckets(n.name, Graded(Integrate(n.intervals, start, end, n.idleFor)))
  }

  function Built(nodes: seq<Node>, start: int, end: int): (r: seq<NodeBuckets>)
    ensures |r| == |nodes|
  {
    if nodes == [] then [] else Built(nodes[..|nodes| - 1], start, end) + [BuiltNode(nodes[|nodes| - 1], start, end)]
  }

  /** What one rebuild of [start, end) stores for bucket `b`. */
  function ChunkRows(nodes: seq<Node>, msgs: seq<Message>, start: int, end: int, b: int): Rows {
    RowsOf(Built(nodes, start, end), Gather(msgs, start, end), b)
  }

  /** From scratch: bucket `b` rebuilt alone, out of its own messages. */
  function RowsAt(nodes: seq<Node>, own: seq<Message>, b: int): Rows {
    ChunkRows(nodes, own, b, b + BUCKET_MS, b)
  }

  /** What a bucket's rows are out of its own messages: fixed once samples and idle baselines are. */
  type RowsFor = (seq<Message>, int) -> Rows

  function FromScratch(nodes: seq<Node>): RowsFor {
    (own: seq<Message>, b: int) => RowsAt(nodes, own, b)
  }

  function Owned(rows: RowsFor, msgs: seq<Message>): int -> Rows {
    b => rows(InBucket(msgs, b), b)
  }

  // ── The tables, and the rebuild ──────────────────────────────────

  type Table = map<int, Rows>

  function Lookup(table: Table, b: int): Rows {
    if b in table then table[b] else NO_ROWS
  }

  /** The tables after every bucket of [start, end) was deleted and written again. */
  ghost predicate Rebuilt(before: Table, after: Table, start: int, end: int, rows: int -> Rows) {
    forall b :: Aligned(b) ==> Lookup(after, b) == if start <= b < end then rows(b) else Lookup(before, b)
  }

  lemma RebuiltOnwards(t0: Table, t1: Table, t2: Table, start: int, mid: int, end: int, rows: int -> Rows)
    requires start <= mid <= end && Rebuilt(t0, t1, start, mid, rows) && Rebuilt(t1, t2, mid, end, rows)
    ensures Rebuilt(t0, t2, start, end, rows)
  {
  }

  class EnergyTables {
    var table: Table

    constructor ()
      ensures table == map[]
    {
      table := map[];
    }

    /** Rebuild every bucket of [start, end): integrate, group, delete, write. */
    method BuildEnergyChunk(nodes: seq<Node>, msgs: seq<Message>, start: int, end: int)
      requires Aligned(start) && Aligned(end) && start <= end
      modifies this
      ensures Rebuilt(old(table), table, start, end, Owned(FromScratch(nodes), msgs))
    {
      var built := IntegrateNodes(nodes, start, end);
      var groups := GatherGroups(msgs, start, end);
      table := map b | b in table && !(start <= b < end) :: table[b];
      WriteBuckets(built, groups, start, end);
      forall b | Aligned(b) && start <= b < end
        ensures RowsOf(built, groups, b) == RowsAt(nodes, InBucket(msgs, b), b)
      {
        ChunkIsFromScratch(nodes, msgs, start, end, b);
      }
    }

    method WriteBuckets(built: seq<NodeBuckets>, groups: seq<Group>, start: int, end: int)
      requires Aligned(start) && Aligned(end) && start <= end
      modifies this
      ensures Rebuilt(old(table), table, start, end, b => RowsOf(built, groups, b))
    {
      var b := start;
      while b < end
        invariant Aligned(b) && start <= b <= end
        invariant Rebuilt(old(table), table, start, b, c => RowsOf(built, groups, c))
      {
        table := table[b := RowsOf(built, groups, b)];
        b := b + BUCKET_MS;
      }
    }
  }

  method IntegrateNodes(nodes: seq<Node>, start: int, end: int) returns (built: seq<NodeBuckets>)
    ensures built == Built(nodes, start, end)
  {
    built := [];
    for k := 0 to |nodes|
      invariant built == Built(nodes[..k], start, end)
    {
      var buckets := IntegrateBuckets(nodes[k].intervals, start, end, nodes[k].idleFor);
      built := built + [NodeBuckets(nodes[k].name, buckets)];
      TakeOneMore(nodes, k);
      assert nodes[..k + 1][..k] == nodes[..k];
    }
    TakeAll(nodes);
  }

  method GatherGroups(msgs: seq<Message>, start: int, end: int) returns (groups: seq<Group>)
    ensures groups == Gather(msgs, start, end)
  {
    groups := [];
    for k := 0 to |msgs|
      invariant groups == Gather(msgs[..k], start, end)
    {
      var m := msgs[k];
      if InRange(m, start, end) && m.key.Some? {
        MinuteKeepsBucket(m.ts.value);
        groups := DepositMessage(groups, m, m.key.value, BucketOf(MinuteOf(m.ts.value)));
      }
      TakeOneMore(msgs, k);
      assert msgs[..k + 1][..k] == msgs[..k];
    }
    TakeAll(msgs);
  }

  // ── Rebuilding a range gives each bucket its from-scratch rows ───

  lemma {:induction false} DepositStaysInItsBucket(groups: seq<Group>, m: Message, key: GroupKey, bucket: int, b: int)
    ensures GroupsAt(DepositMessage(groups, m, key, bucket), b)
            == if bucket == b then DepositMessage(GroupsAt(groups, b), m, key, bucket) else GroupsAt(groups, b)
  {
    if groups != [] {
      var out := DepositMessage(groups, m, key, bucket);
      if groups[0].key == key && groups[0].bucket == bucket {
        assert out[1..] == groups[1..];
      } else {
        DepositStaysInItsBucket(groups[1..], m, key, bucket, b);
        assert out[1..] == DepositMessage(groups[1..], m, key, bucket);
      }
      if groups[0].bucket == b {
        assert GroupsAt(groups, b)[1..] == GroupsAt(groups[1..], b);
      }
    }
  }

  lemma GatherOneMore(msgs: seq<Message>, m: Message, start: int, end: int)
    ensures Gather(msgs + [m], start, end)
            == if InRange(m, start, end) && m.key.Some?
               then DepositMessage(Gather(msgs, start, end), m, m.key.value, BucketOf(m.ts.value)) else Gather(msgs, start, end)
  {
    assert (msgs + [m])[..|msgs|] == msgs;
  }

  lemma BucketRange(ts: int, b: int, start: int, end: int)
    requires Aligned(b) && Aligned(start) && Aligned(end) && start <= b < end
    ensures b <= ts < b + BUCKET_MS <==> BucketOf(ts) == b
    ensures BucketOf(ts) == b ==> start <= ts < end
  {
  }

  lemma {:induction false} GatherIsLocal(msgs: seq<Message>, start: int, end: int, b: int)
    requires Aligned(start) && Aligned(end) && Aligned(b) && start <= b < end
    ensures GroupsAt(Gather(msgs, start, end), b) == Gather(InBucket(msgs, b), b, b + BUCKET_MS)
  {
    if msgs != [] {
      var init, m := msgs[..|msgs| - 1], msgs[|msgs| - 1];
      GatherIsLocal(init, start, end, b);
      GatherOneMore(init, m, start, end);
      assert init + [m] == msgs;
      GatherOneMore(InBucket(init, b), m, b, b + BUCKET_MS);
      if m.ts.Some? {
        BucketRange(m.ts.value, b, start, end);
        if m.key.Some? {
          DepositStaysInItsBucket(Gather(init, start, end), m, m.key.value, BucketOf(m.ts.value), b);
        }
      }
    }
  }

  lemma {:induction false} GatherFillsItsRange(msgs: seq<Message>, b: int)
    requires Aligned(b)
    ensures forall g :: g in Gather(msgs, b, b + BUCKET_MS) ==> g.bucket == b
  {
    if msgs != [] {
      var init, m := msgs[..|msgs| - 1], msgs[|msgs| - 1];
      GatherFillsItsRange(init, b);
      if InRange(m, b, b + BUCKET_MS) && m.key.Some? {
        DepositMembers(Gather(init, b, b + BUCKET_MS), m, m.key.value, b);
      }
    }
  }

  lemma {:induction false} DepositMembers(groups: seq<Group>, m: Message, key: GroupKey, bucket: int)
    requires forall g :: g in groups ==> g.bucket == bucket
    ensures forall g :: g in DepositMessage(groups, m, key, bucket) ==> g.bucket == bucket
  {
    if groups != [] && !(groups[0].key == key && groups[0].bucket == bucket) {
      DepositMembers(groups[1..], m, key, bucket);
    }
  }

  lemma {:induction false} GroupsAtAll(groups: seq<Group>, b: int)
    requires forall g :: g in groups ==> g.bucket == b
    ensures GroupsAt(groups, b) == groups
  {
    if groups != [] { GroupsAtAll(groups[1..], b); }
  }

  lemma NodeIsLocal(n: Node, start: int, end: int, b: int)
    requires Aligned(start) && Aligned(end) && Aligned(b) && start <= b < end
    ensures At(BuiltNode(n, start, end).buckets, b) == At(BuiltNode(n, b, b + BUCKET_MS).buckets, b)
  {
    GradedAt(Integrate(n.intervals, start, end, n.idleFor), b);
    GradedAt(Integrate(n.intervals, b, b + BUCKET_MS, n.idleFor), b);
    BucketsAreLocal(n.intervals, start, end, n.idleFor, b);
    BucketsAreLocal(n.intervals, b, b + BUCKET_MS, n.idleFor, b);
  }

  lemma {:induction false} NodesAreLocal(nodes: seq<Node>, start: int, end: int, b: int, own: seq<Group>)
    requires Aligned(start) && Aligned(end) && Aligned(b) && start <= b < end
    ensures NodesRows(Built(nodes, start, end), b, own) == NodesRows(Built(nodes, b, b + BUCKET_MS), b, own)
    ensures SampledIn(Built(nodes, start, end), b) == SampledIn(Built(nodes, b, b + BUCKET_MS), b)
  {
    if nodes != [] {
      var init := nodes[..|nodes| - 1];
      NodesAreLocal(init, start, end, b, own);
      NodeIsLocal(nodes[|nodes| - 1], start, end, b);
      assert Built(nodes, start, end)[..|init|] == Built(init, start, end);
      assert Built(nodes, b, b + BUCKET_MS)[..|init|] == Built(init, b, b + BUCKET_MS);
    }
  }

  /** Whatever range a rebuild covered, each bucket in it holds the rows that rebuilding it alone would give. */
  lemma ChunkIsFromScratch(nodes: seq<Node>, msgs: seq<Message>, start: int, end: int, b: int)
    requires Aligned(start) && Aligned(end) && Aligned(b) && start <= b < end
    ensures ChunkRows(nodes, msgs, start, end, b) == RowsAt(nodes, InBucket(msgs, b), b)
  {
    var own := Gather(InBucket(msgs, b), b, b + BUCKET_MS);
    GatherIsLocal(msgs, start, end, b);
    GatherFillsItsRange(InBucket(msgs, b), b);
    GroupsAtAll(own, b);
    NodesAreLocal(nodes, start, end, b, own);
  }

  // ── Nothing is lost between the meter and the rows ───────────────

  function NodeTotal(rows: seq<NodeRow>): real {
    if rows == [] then 0.0 else NodeTotal(rows[..|rows| - 1]) + rows[|rows| - 1].energy.totalWh
  }

  function Standing(rows: seq<NodeRow>): real {
    if rows == [] then 0.0 else Standing(rows[..|rows| - 1]) + rows[|rows| - 1].energy.idleWh
  }

  function Unattributed(rows: seq<NodeRow>): real {
    if rows == [] then 0.0
    else Unattributed(rows[..|rows| - 1]) + (rows[|rows| - 1].energy.activeWh - rows[|rows| - 1].attributedWh)
  }

  function Attributed(rows: seq<GroupRow>): real {
    if rows == [] then 0.0 else Attributed(rows[..|rows| - 1]) + rows[|rows| - 1].activeWh
  }

  lemma {:induction false} AttributedAppend(xs: seq<GroupRow>, ys: seq<GroupRow>)
    ensures Attributed(xs + ys) == Attributed(xs) + Attributed(ys)
  {
    if ys == [] {
      assert xs + ys == xs;
    } else {
      AttributedAppend(xs, ys[..|ys| - 1]);
      assert (xs + ys)[..|xs + ys| - 1] == xs + ys[..|ys| - 1];
    }
  }

  lemma {:induction false} PairedSum(list: seq<Group>, shares: seq<real>)
    requires |shares| == |list|
    ensures Attributed(Paired(list, shares)) == SumOf(shares)
  {
    if list != [] {
      var n := |list| - 1;
      PairedSum(list[..n], shares[..n]);
      assert Paired(list, shares)[..n] == Paired(list[..n], shares[..n]);
    }
  }

  lemma {:induction false} UnmeasuredSum(groups: seq<Group>, sampled: set<string>)
    ensures Attributed(Unmeasured(groups, sampled)) == 0.0
  {
    if groups != [] {
      UnmeasuredSum(groups[1..], sampled);
      if groups[0].key.host !in sampled {
        AttributedAppend([GroupRow(groups[0], 0.0, false)], Unmeasured(groups[1..], sampled));
      }
    }
  }

  /** Every node's energy of a bucket is on the books: standing, attributed to a group, or attributed to none. */
  ghost predicate OnTheBooks(rows: Rows) {
    NodeTotal(rows.nodes) == Standing(rows.nodes) + Attributed(rows.groups) + Unattributed(rows.nodes)
  }

  ghost predicate BooksBalance(built: seq<NodeBuckets>) {
    forall k :: 0 <= k < |built| ==> Balanced(built[k].buckets)
  }

  lemma {:induction false} NodesOnTheBooks(built: seq<NodeBuckets>, b: int, groups: seq<Group>)
    requires BooksBalance(built)
    ensures OnTheBooks(NodesRows(built, b, groups))
  {
    if built != [] {
      var init, n := built[..|built| - 1], built[|built| - 1];
      NodesOnTheBooks(init, b, groups);
      var rows, nb := NodesRows(init, b, groups), At(n.buckets, b);
      if nb.Some? {
        var list := GroupsOn(groups, n.host);
        var shares := SharesOf(nb.value, list);
        var row := NodeRow(n.host, nb.value, SumOf(shares));
        PairedSum(list, shares);
        AttributedAppend(rows.groups, Paired(list, shares));
        assert (rows.nodes + [row])[..|rows.nodes|] == rows.nodes;
      }
    }
  }

  lemma {:induction false} BuiltBalance(nodes: seq<Node>, start: int, end: int)
    ensures BooksBalance(Built(nodes, start, end))
  {
    if nodes != [] {
      var n := nodes[|nodes| - 1];
      BuiltBalance(nodes[..|nodes| - 1], start, end);
      EnergyIsConserved(n.intervals, start, end, n.idleFor);
    }
  }

  /** What the nodes drew in a bucket: the integral of each one's draw over the intervals that began in it. */
  function DrawnIn(nodes: seq<Node>, b: int): real {
    if nodes == [] then 0.0
    else DrawnIn(nodes[..|nodes| - 1], b) + Integral(nodes[|nodes| - 1].intervals, b, b + BUCKET_MS)
  }

  function TotalOf(nb: Option<NodeBucket>): real {
    if nb.Some? then nb.value.totalWh else 0.0
  }

  /** A bucket's total is the integral over the intervals that began in it. */
  lemma {:induction false} BucketTotal(intervals: seq<Interval>, b: int, idleFor: IdleFor)
    requires Aligned(b)
    ensures TotalOf(BucketAt(intervals, b, idleFor)) == Integral(intervals, b, b + BUCKET_MS)
  {
    if intervals != [] {
      var x := intervals[|intervals| - 1];
      BucketTotal(intervals[..|intervals| - 1], b, idleFor);
      AlignedBounds(x.ts, b, b + BUCKET_MS);
    }
  }

  lemma NodeTotalIsDrawn(n: Node, start: int, end: int, b: int)
    requires Aligned(start) && Aligned(end) && Aligned(b) && start <= b < end
    ensures TotalOf(At(BuiltNode(n, start, end).buckets, b)) == Integral(n.intervals, b, b + BUCKET_MS)
  {
    GradedAt(Integrate(n.intervals, start, end, n.idleFor), b);
    BucketsAreLocal(n.intervals, start, end, n.idleFor, b);
    BucketTotal(n.intervals, b, n.idleFor);
  }

  lemma NodeTotalAppend(rows: seq<NodeRow>, row: NodeRow)
    ensures NodeTotal(rows + [row]) == NodeTotal(rows) + row.energy.totalWh
  {
    assert (rows + [row])[..|rows|] == rows;
  }

  lemma {:induction false} NodesTotalIsDrawn(nodes: seq<Node>, start: int, end: int, b: int, groups: seq<Group>)
    requires Aligned(start) && Aligned(end) && Aligned(b) && start <= b < end
    ensures NodeTotal(NodesRows(Built(nodes, start, end), b, groups).nodes) == DrawnIn(nodes, b)
  {
    if nodes != [] {
      var init, n := nodes[..|nodes| - 1], nodes[|nodes| - 1];
      NodesTotalIsDrawn(init, start, end, b, groups);
      NodeTotalIsDrawn(n, start, end, b);
      assert Built(nodes, start, end)[..|init|] == Built(init, start, end);
      var rows, nb := NodesRows(Built(init, start, end), b, groups), At(BuiltNode(n, start, end).buckets, b);
      if nb.Some? {
        NodeTotalAppend(rows.nodes, NodeRow(n.name, nb.value, SumOf(SharesOf(nb.value, GroupsOn(groups, n.name)))));
      }
    }
  }

  /** Standing, attributed and unattributed Wh of a rebuilt bucket add up to what its nodes drew in it. */
  lemma EnergyReachesTheRows(nodes: seq<Node>, msgs: seq<Message>, start: int, end: int, b: int)
    requires Aligned(start) && Aligned(end) && Aligned(b) && start <= b < end
    ensures var rows := ChunkRows(nodes, msgs, start, end, b);
            Standing(rows.nodes) + Attributed(rows.groups) + Unattributed(rows.nodes) == DrawnIn(nodes, b)
  {
    RowsOnTheBooks(nodes, msgs, start, end, b);
    NodesTotalIsDrawn(nodes, start, end, b, GroupsAt(Gather(msgs, start, end), b));
  }

  lemma RowsOnTheBooks(nodes: seq<Node>, msgs: seq<Message>, start: int, end: int, b: int)
    ensures OnTheBooks(ChunkRows(nodes, msgs, start, end, b))
  {
    var built, own := Built(nodes, start, end), GroupsAt(Gather(msgs, start, end), b);
    BuiltBalance(nodes, start, end);
    NodesOnTheBooks(built, b, own);
    var rows := NodesRows(built, b, own);
    UnmeasuredSum(own, SampledIn(built, b));
    AttributedAppend(rows.groups, Unmeasured(own, SampledIn(built, b)));
  }

  /** A node's active energy is split in full over the groups it served, or left whole when it served none. */
  ghost predicate Settled(row: NodeRow, groups: seq<Group>) {
    row.attributedWh == if GroupsOn(groups, row.host) == [] then 0.0 else row.energy.activeWh
  }

  ghost predicate NonNegative(intervals: seq<Interval>) {
    forall i :: 0 <= i < |intervals| ==> intervals[i].hours >= 0.0
  }

  lemma {:induction false} ActiveIsNonNegative(intervals: seq<Interval>, start: int, end: int, idleFor: IdleFor)
    requires NonNegative(intervals)
    ensures forall i :: 0 <= i < |Integrate(intervals, start, end, idleFor)| ==> Integrate(intervals, start, end, idleFor)[i].activeWh >= 0.0
  {
    if intervals != [] {
      var x := intervals[|intervals| - 1];
      ActiveIsNonNegative(intervals[..|intervals| - 1], start, end, idleFor);
      assert x.hours >= 0.0;
      assert ActiveShare(x, idleFor(x.ts)) >= 0.0;
    }
  }

  lemma {:induction false} RowsSettle(nodes: seq<Node>, start: int, end: int, b: int, groups: seq<Group>)
    requires forall k :: 0 <= k < |nodes| ==> NonNegative(nodes[k].intervals)
    ensures forall row :: row in NodesRows(Built(nodes, start, end), b, groups).nodes ==> Settled(row, groups)
  {
    if nodes != [] {
      var init, n := nodes[..|nodes| - 1], nodes[|nodes| - 1];
      RowsSettle(init, start, end, b, groups);
      assert Built(nodes, start, end)[..|init|] == Built(init, start, end);
      var out := BuiltNode(n, start, end).buckets;
      ActiveIsNonNegative(n.intervals, start, end, n.idleFor);
      if At(out, b).Some? {
        var list := GroupsOn(groups, n.name);
        SharesSumToActive(At(out, b).value.activeWh, Weights(list), Counts(list));
      }
    }
  }

  /** In every rebuilt bucket, a node that served any message has all its active energy attributed, and no other has any. */
  lemma ActiveIsAllOrNothing(nodes: seq<Node>, msgs: seq<Message>, start: int, end: int, b: int)
    requires forall k :: 0 <= k < |nodes| ==> NonNegative(nodes[k].intervals)
    ensures forall row :: row in ChunkRows(nodes, msgs, start, end, b).nodes
                          ==> Settled(row, GroupsAt(Gather(msgs, start, end), b))
  {
    RowsSettle(nodes, start, end, b, GroupsAt(Gather(msgs, start, end), b));
  }

  // ── Every located message's tokens reach exactly one row ─────────

  function GroupTokens(groups: seq<Group>): real {
    if groups == [] then 0.0 else groups[0].tokens + GroupTokens(groups[1..])
  }

  function RowTokens(rows: seq<GroupRow>): real {
    if rows == [] then 0.0 else RowTokens(rows[..|rows| - 1]) + rows[|rows| - 1].group.tokens
  }

  /** The tokens of the messages of a bucket whose node is known. */
  function LocatedTokens(msgs: seq<Message>, b: int): real {
    if msgs == [] then 0.0
    else
      var m := msgs[|msgs| - 1];
      LocatedTokens(msgs[..|msgs| - 1], b) + if InRange(m, b, b + BUCKET_MS) && m.key.Some? then m.tokens else 0.0
  }

  function MeasuredTokens(groups: seq<Group>, hosts: set<string>): real {
    if groups == [] then 0.0
    else (if groups[0].key.host in hosts then groups[0].tokens else 0.0) + MeasuredTokens(groups[1..], hosts)
  }

  lemma {:induction false} DepositTokens(groups: seq<Group>, m: Message, key: GroupKey, bucket: int)
    ensures GroupTokens(DepositMessage(groups, m, key, bucket)) == GroupTokens(groups) + m.tokens
  {
    var out := DepositMessage(groups, m, key, bucket);
    if groups == [] {
      assert out[1..] == [];
    } else if groups[0].key == key && groups[0].bucket == bucket {
      assert out[1..] == groups[1..];
    } else {
      DepositTokens(groups[1..], m, key, bucket);
      assert out[1..] == DepositMessage(groups[1..], m, key, bucket);
    }
  }

  lemma {:induction false} GatherTokens(msgs: seq<Message>, start: int, end: int, b: int)
    requires Aligned(start) && Aligned(end) && Aligned(b) && start <= b < end
    ensures GroupTokens(GroupsAt(Gather(msgs, start, end), b)) == LocatedTokens(msgs, b)
  {
    if msgs != [] {
      var init, m := msgs[..|msgs| - 1], msgs[|msgs| - 1];
      GatherTokens(init, start, end, b);
      if InRange(m, start, end) && m.key.Some? {
        var groups := Gather(init, start, end);
        DepositStaysInItsBucket(groups, m, m.key.value, BucketOf(m.ts.value), b);
        DepositTokens(GroupsAt(groups, b), m, m.key.value, b);
      }
    }
  }

  lemma {:induction false} RowTokensAppend(xs: seq<GroupRow>, ys: seq<GroupRow>)
    ensures RowTokens(xs + ys) == RowTokens(xs) + RowTokens(ys)
  {
    if ys == [] {
      assert xs + ys == xs;
    } else {
      RowTokensAppend(xs, ys[..|ys| - 1]);
      assert (xs + ys)[..|xs + ys| - 1] == xs + ys[..|ys| - 1];
    }
  }

  lemma {:induction false} TokensOnHost(groups: seq<Group>, host: string, shares: seq<real>)
    requires |shares| == |GroupsOn(groups, host)|
    ensures RowTokens(Paired(GroupsOn(groups, host), shares)) == MeasuredTokens(groups, {host})
  {
    if groups != [] {
      var list := GroupsOn(groups, host);
      if groups[0].key.host == host {
        TokensOnHost(groups[1..], host, shares[1..]);
        assert list[1..] == GroupsOn(groups[1..], host);
        assert Paired(list, shares) == [GroupRow(list[0], shares[0], true)] + Paired(list[1..], shares[1..]);
        RowTokensAppend([GroupRow(list[0], shares[0], true)], Paired(list[1..], shares[1..]));
      } else {
        TokensOnHost(groups[1..], host, shares);
      }
    }
  }

  lemma {:induction false} OneMoreHost(groups: seq<Group>, hosts: set<string>, host: string)
    requires host !in hosts
    ensures MeasuredTokens(groups, hosts + {host}) == MeasuredTokens(groups, hosts) + MeasuredTokens(groups, {host})
  {
    if groups != [] { OneMoreHost(groups[1..], hosts, host); }
  }

  lemma {:induction false} NoHosts(groups: seq<Group>)
    ensures MeasuredTokens(groups, {}) == 0.0
  {
    if groups != [] { NoHosts(groups[1..]); }
  }

  lemma {:induction false} RestIsUnmeasured(groups: seq<Group>, sampled: set<string>)
    ensures MeasuredTokens(groups, sampled) + RowTokens(Unmeasured(groups, sampled)) == GroupTokens(groups)
  {
    if groups != [] {
      RestIsUnmeasured(groups[1..], sampled);
      if groups[0].key.host !in sampled {
        RowTokensAppend([GroupRow(groups[0], 0.0, false)], Unmeasured(groups[1..], sampled));
      }
    }
  }

  ghost predicate UniqueHosts(built: seq<NodeBuckets>) {
    forall i, j :: 0 <= i < j < |built| ==> built[i].host != built[j].host
  }

  lemma {:induction false} SampledAreBuilt(built: seq<NodeBuckets>, b: int)
    ensures forall h :: h in SampledIn(built, b) ==> exists i :: 0 <= i < |built| && built[i].host == h
  {
    if built != [] { SampledAreBuilt(built[..|built| - 1], b); }
  }

  lemma {:induction false} NodesTokens(built: seq<NodeBuckets>, b: int, groups: seq<Group>)
    requires UniqueHosts(built)
    ensures RowTokens(NodesRows(built, b, groups).groups) == MeasuredTokens(groups, SampledIn(built, b))
  {
    if built == [] {
      NoHosts(groups);
    } else {
      var init, n := built[..|built| - 1], built[|built| - 1];
      NodesTokens(init, b, groups);
      if At(n.buckets, b).Some? {
        var list := GroupsOn(groups, n.host);
        var shares := SharesOf(At(n.buckets, b).value, list);
        TokensOnHost(groups, n.host, shares);
        RowTokensAppend(NodesRows(init, b, groups).groups, Paired(list, shares));
        SampledAreBuilt(init, b);
        OneMoreHost(groups, SampledIn(init, b), n.host);
      }
    }
  }

  lemma {:induction false} BuiltHosts(nodes: seq<Node>, start: int, end: int)
    ensures forall k :: 0 <= k < |nodes| ==> Built(nodes, start, end)[k].host == nodes[k].name
  {
    if nodes != [] { BuiltHosts(nodes[..|nodes| - 1], start, end); }
  }

  /** Sampled or not, every node's messages keep their tokens: each reaches exactly one row of its bucket. */
  lemma TokensReachTheRows(nodes: seq<Node>, msgs: seq<Message>, start: int, end: int, b: int)
    requires Aligned(start) && Aligned(end) && Aligned(b) && start <= b < end
    requires forall i, j :: 0 <= i < j < |nodes| ==> nodes[i].name != nodes[j].name
    ensures RowTokens(ChunkRows(nodes, msgs, start, end, b).groups) == LocatedTokens(msgs, b)
  {
    var built, own := Built(nodes, start, end), GroupsAt(Gather(msgs, start, end), b);
    BuiltHosts(nodes, start, end);
    assert UniqueHosts(built);
    NodesTokens(built, b, own);
    RestIsUnmeasured(own, SampledIn(built, b));
    RowTokensAppend(NodesRows(built, b, own).groups, Unmeasured(own, SampledIn(built, b)));
    GatherTokens(msgs, start, end, b);
  }
}
