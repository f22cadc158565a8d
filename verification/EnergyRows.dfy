/**
 * The rows both energy tables hold for one quarter hour, said over the nodes' samples and the messages themselves
 * (packages/core/energy-attribution.ts, `buildEnergyChunk`).
 */
module EnergyRows {
  import opened Wrappers
  import opened EnergyBuckets
  import opened EnergyChunk
  import opened EnergyMeaning

  // ── What a group is ──────────────────────────────────────────────

  /** A message of this node, model, project and harness, sent in the quarter hour. */
  function Sent(key: GroupKey, b: int): Message -> bool {
    (m: Message) => m.key == Some(key) && m.ts.Some? && b <= m.ts.value < b + 900000
  }

  ghost predicate Served(msgs: seq<Message>, key: GroupKey, b: int) {
    exists i :: 0 <= i < |msgs| && Sent(key, b)(msgs[i])
  }

  /** A group counts and sums exactly the messages of its key in its quarter hour, and there is at least one. */
  ghost predicate GroupMeans(g: Group, msgs: seq<Message>, b: int) {
    && g.bucket == b && Served(msgs, g.key, b)
    && g.messages == SumWhere(msgs, Sent(g.key, b), (m: Message) => 1.0)
    && g.tokens == SumWhere(msgs, Sent(g.key, b), (m: Message) => m.tokens)
    && g.weight == SumWhere(msgs, Sent(g.key, b), (m: Message) => m.weight)
  }

  function Find(groups: seq<Group>, key: GroupKey, b: int): Option<Group> {
    if groups == [] then None
    else if groups[0].key == key && groups[0].bucket == b then Some(groups[0])
    else Find(groups[1..], key, b)
  }

  lemma {:induction false} FindDeposit(groups: seq<Group>, m: Message, key: GroupKey, bucket: int, wanted: GroupKey, b: int)
    ensures var found := Find(groups, wanted, b);
            Find(DepositMessage(groups, m, key, bucket), wanted, b)
            == if wanted == key && b == bucket
               then Some(AddMessage(if found.Some? then found.value else Group(key, bucket, 0.0, 0.0, 0.0), m)) else found
  {
    if groups != [] && !(groups[0].key == key && groups[0].bucket == bucket) {
      var out := DepositMessage(groups, m, key, bucket);
      assert out[1..] == DepositMessage(groups[1..], m, key, bucket);
      FindDeposit(groups[1..], m, key, bucket, wanted, b);
    }
  }

  /** A group's sums by themselves. */
  function GroupSums(msgs: seq<Message>, key: GroupKey, b: int): Group {
    Group(key, b,
          SumWhere(msgs, Sent(key, b), (m: Message) => 1.0),
          SumWhere(msgs, Sent(key, b), (m: Message) => m.tokens),
          SumWhere(msgs, Sent(key, b), (m: Message) => m.weight))
  }

  ghost predicate TracksGroup(g: Option<Group>, msgs: seq<Message>, key: GroupKey, b: int) {
    && (g.Some? <==> Served(msgs, key, b))
    && (g.Some? ==> g.value == GroupSums(msgs, key, b))
  }

  lemma ServedOneMore(msgs: seq<Message>, key: GroupKey, b: int)
    requires msgs != []
    ensures Served(msgs, key, b) <==> Served(msgs[..|msgs| - 1], key, b) || Sent(key, b)(msgs[|msgs| - 1])
  {
    var init := msgs[..|msgs| - 1];
    if Served(init, key, b) {
      var i :| 0 <= i < |init| && Sent(key, b)(init[i]);
      assert Sent(key, b)(msgs[i]);
    }
  }

  lemma UnservedSums(msgs: seq<Message>, key: GroupKey, b: int)
    requires !Served(msgs, key, b)
    ensures GroupSums(msgs, key, b) == Group(key, b, 0.0, 0.0, 0.0)
  {
    SumOfNone(msgs, Sent(key, b), (m: Message) => 1.0);
    SumOfNone(msgs, Sent(key, b), (m: Message) => m.tokens);
    SumOfNone(msgs, Sent(key, b), (m: Message) => m.weight);
  }

  lemma TracksOneMoreMessage(g: Option<Group>, msgs: seq<Message>, key: GroupKey, b: int)
    requires msgs != [] && TracksGroup(g, msgs[..|msgs| - 1], key, b)
    ensures var m := msgs[|msgs| - 1];
            var so := if g.Some? then g.value else Group(key, b, 0.0, 0.0, 0.0);
            TracksGroup(if Sent(key, b)(m) then Some(AddMessage(so, m)) else g, msgs, key, b)
  {
    ServedOneMore(msgs, key, b);
    if g.None? { UnservedSums(msgs[..|msgs| - 1], key, b); }
  }

  lemma SentInBucket(m: Message, key: GroupKey, start: int, end: int, b: int)
    requires Aligned(start) && Aligned(end) && Aligned(b) && start <= b < end
    ensures Sent(key, b)(m) <==> InRange(m, start, end) && m.key == Some(key) && BucketOf(m.ts.value) == b
  {
    if m.ts.Some? { BucketRange(m.ts.value, b, start, end); }
  }

  lemma {:induction false} GatherTracks(msgs: seq<Message>, start: int, end: int, key: GroupKey, b: int)
    requires Aligned(start) && Aligned(end) && Aligned(b) && start <= b < end
    ensures TracksGroup(Find(Gather(msgs, start, end), key, b), msgs, key, b)
  {
    if msgs != [] {
      var init, m := msgs[..|msgs| - 1], msgs[|msgs| - 1];
      GatherTracks(init, start, end, key, b);
      var groups := Gather(init, start, end);
      SentInBucket(m, key, start, end, b);
      TracksOneMoreMessage(Find(groups, key, b), msgs, key, b);
      if InRange(m, start, end) && m.key.Some? {
        FindDeposit(groups, m, m.key.value, BucketOf(m.ts.value), key, b);
      }
    }
  }

  ghost predicate OnePerKey(groups: seq<Group>) {
    forall i, j :: 0 <= i < j < |groups| ==> groups[i].key != groups[j].key || groups[i].bucket != groups[j].bucket
  }

  lemma {:induction false} FindNone(groups: seq<Group>, key: GroupKey, b: int)
    ensures Find(groups, key, b).None? <==> forall i :: 0 <= i < |groups| ==> groups[i].key != key || groups[i].bucket != b
    ensures Find(groups, key, b).Some? ==> Find(groups, key, b).value in groups
    ensures Find(groups, key, b).Some? ==> Find(groups, key, b).value.key == key && Find(groups, key, b).value.bucket == b
  {
    if groups != [] { FindNone(groups[1..], key, b); }
  }

  lemma {:induction false} FindIt(groups: seq<Group>, i: nat)
    requires OnePerKey(groups) && i < |groups|
    ensures Find(groups, groups[i].key, groups[i].bucket) == Some(groups[i])
  {
    if i > 0 { FindIt(groups[1..], i - 1); }
  }

  lemma {:induction false} DepositKeepsOne(groups: seq<Group>, m: Message, key: GroupKey, bucket: int)
    requires OnePerKey(groups)
    ensures OnePerKey(DepositMessage(groups, m, key, bucket))
  {
    if groups != [] {
      var out := DepositMessage(groups, m, key, bucket);
      if groups[0].key == key && groups[0].bucket == bucket {
        assert out[1..] == groups[1..];
      } else {
        DepositKeepsOne(groups[1..], m, key, bucket);
        FindDeposit(groups[1..], m, key, bucket, groups[0].key, groups[0].bucket);
        FindNone(groups[1..], groups[0].key, groups[0].bucket);
        FindNone(out[1..], groups[0].key, groups[0].bucket);
        assert out[1..] == DepositMessage(groups[1..], m, key, bucket);
      }
    }
  }

  lemma {:induction false} GatherOnePerKey(msgs: seq<Message>, start: int, end: int)
    ensures OnePerKey(Gather(msgs, start, end))
  {
    if msgs != [] {
      var init, m := msgs[..|msgs| - 1], msgs[|msgs| - 1];
      GatherOnePerKey(init, start, end);
      if InRange(m, start, end) && m.key.Some? {
        DepositKeepsOne(Gather(init, start, end), m, m.key.value, BucketOf(m.ts.value));
      }
    }
  }

  lemma {:induction false} GroupsAtAre(groups: seq<Group>, b: int)
    ensures forall g :: g in GroupsAt(groups, b) <==> g in groups && g.bucket == b
    ensures OnePerKey(groups) ==> OnePerKey(GroupsAt(groups, b))
  {
    if groups != [] {
      GroupsAtAre(groups[1..], b);
      if groups[0].bucket == b {
        var out := GroupsAt(groups, b);
        assert out[1..] == GroupsAt(groups[1..], b);
        if OnePerKey(groups) {
          assert OnePerKey(groups[1..]);
          forall j | 1 <= j < |out| ensures out[j].key != groups[0].key || out[j].bucket != b {
            assert out[j] in out[1..];
          }
        }
      } else if OnePerKey(groups) {
        assert OnePerKey(groups[1..]);
      }
    }
  }

  lemma {:induction false} GroupsOnAre(groups: seq<Group>, host: string)
    ensures forall g :: g in GroupsOn(groups, host) <==> g in groups && g.key.host == host
    ensures OnePerKey(groups) ==> OnePerKey(GroupsOn(groups, host))
  {
    if groups != [] {
      GroupsOnAre(groups[1..], host);
      if groups[0].key.host == host {
        var out := GroupsOn(groups, host);
        assert out[1..] == GroupsOn(groups[1..], host);
        if OnePerKey(groups) {
          assert OnePerKey(groups[1..]);
          forall j | 1 <= j < |out| ensures out[j].key != groups[0].key || out[j].bucket != groups[0].bucket {
            assert out[j] in out[1..];
          }
        }
      } else if OnePerKey(groups) {
        assert OnePerKey(groups[1..]);
      }
    }
  }

  /** One group for each key that was served in the quarter hour, no two alike. */
  ghost predicate GroupsMean(own: seq<Group>, msgs: seq<Message>, b: int) {
    && OnePerKey(own)
    && (forall g :: g in own ==> GroupMeans(g, msgs, b))
    && (forall key :: Served(msgs, key, b) ==> exists g :: g in own && g.key == key)
  }

  lemma GatheredMeans(msgs: seq<Message>, start: int, end: int, b: int, g: Group)
    requires Aligned(start) && Aligned(end) && Aligned(b) && start <= b < end
    requires g in Gather(msgs, start, end) && g.bucket == b
    ensures GroupMeans(g, msgs, b)
  {
    var groups := Gather(msgs, start, end);
    var i :| 0 <= i < |groups| && groups[i] == g;
    GatherOnePerKey(msgs, start, end);
    FindIt(groups, i);
    GatherTracks(msgs, start, end, g.key, b);
  }

  lemma ServedIsGathered(msgs: seq<Message>, start: int, end: int, b: int, key: GroupKey)
    requires Aligned(start) && Aligned(end) && Aligned(b) && start <= b < end && Served(msgs, key, b)
    ensures exists g :: g in GroupsAt(Gather(msgs, start, end), b) && g.key == key
  {
    var groups := Gather(msgs, start, end);
    GatherTracks(msgs, start, end, key, b);
    FindNone(groups, key, b);
    GroupsAtAre(groups, b);
    assert Find(groups, key, b).value in GroupsAt(groups, b);
  }

  lemma OwnGroupsMean(msgs: seq<Message>, start: int, end: int, b: int)
    requires Aligned(start) && Aligned(end) && Aligned(b) && start <= b < end
    ensures GroupsMean(GroupsAt(Gather(msgs, start, end), b), msgs, b)
  {
    var groups := Gather(msgs, start, end);
    GatherOnePerKey(msgs, start, end);
    GroupsAtAre(groups, b);
    forall g | g in GroupsAt(groups, b) ensures GroupMeans(g, msgs, b) {
      GatheredMeans(msgs, start, end, b, g);
    }
    forall key | Served(msgs, key, b) ensures exists g :: g in GroupsAt(groups, b) && g.key == key {
      ServedIsGathered(msgs, start, end, b, key);
    }
  }

  // ── The rows of a bucket ─────────────────────────────────────────

  function OnMeter(host: string): GroupRow -> bool {
    (r: GroupRow) => r.measured && r.group.key.host == host
  }

  ghost predicate Sampled(nodes: seq<Node>, host: string, b: int) {
    exists k :: 0 <= k < |nodes| && nodes[k].name == host && Began(nodes[k].intervals, b)
  }

  ghost predicate SomeWeight(rows: seq<GroupRow>, host: string) {
    exists r :: r in rows && OnMeter(host)(r) && r.group.weight > 0.0
  }

  ghost predicate SomeCount(rows: seq<GroupRow>, host: string) {
    exists r :: r in rows && OnMeter(host)(r) && r.group.messages > 0.0
  }

  /** The energies of two groups of one node stand as their weights do; as their counts when none has a weight; else alike. */
  ghost predicate InProportion(r: GroupRow, s: GroupRow, byWeight: bool, byCount: bool) {
    if byWeight then r.activeWh * Part(s.group.weight) == s.activeWh * Part(r.group.weight)
    else if byCount then r.activeWh * Part(s.group.messages) == s.activeWh * Part(r.group.messages)
    else r.activeWh == s.activeWh
  }

  ghost predicate SharedFairly(rows: seq<GroupRow>, host: string) {
    var byWeight, byCount := SomeWeight(rows, host), SomeCount(rows, host);
    forall r, s :: r in rows && s in rows && OnMeter(host)(r) && OnMeter(host)(s) ==> InProportion(r, s, byWeight, byCount)
  }

  /** What the group rows say of the messages and of the meters. */
  ghost predicate GroupRowsMean(rows: seq<GroupRow>, nodes: seq<Node>, msgs: seq<Message>, b: int) {
    && (forall i, j :: 0 <= i < j < |rows| ==> rows[i].group.key != rows[j].group.key)
    && (forall r :: r in rows ==> GroupMeans(r.group, msgs, b))
    && (forall key :: Served(msgs, key, b) ==> exists r :: r in rows && r.group.key == key)
    && (forall r :: r in rows ==> (r.measured <==> Sampled(nodes, r.group.key.host, b)))
    && (forall r :: r in rows && !r.measured ==> r.activeWh == 0.0)
    && (forall host :: SharedFairly(rows, host))
  }

  function AttributedOn(rows: seq<GroupRow>, host: string): real {
    SumWhere(rows, OnMeter(host), (r: GroupRow) => r.activeWh)
  }

  ghost predicate Serves(rows: seq<GroupRow>, host: string) {
    exists r :: r in rows && OnMeter(host)(r)
  }

  /** A node's row holds the sums of its own samples, and all its active energy went to the groups it served, if any. */
  ghost predicate NodeRowMeans(row: NodeRow, n: Node, groups: seq<GroupRow>, b: int) {
    && row.host == n.name && BucketMeans(row.energy, n.intervals, b, n.idleFor) && GradeMeans(row.energy)
    && row.attributedWh == AttributedOn(groups, n.name)
    && row.attributedWh == if Serves(groups, n.name) then row.energy.activeWh else 0.0
  }

  ghost function BeganAt(b: int): Node -> bool {
    (n: Node) => Began(n.intervals, b)
  }

  ghost function MeansWith(groups: seq<GroupRow>, b: int): (NodeRow, Node) -> bool {
    (row: NodeRow, n: Node) => NodeRowMeans(row, n, groups, b)
  }

  ghost predicate DistinctHosts(rows: seq<NodeRow>) {
    forall i, j :: 0 <= i < j < |rows| ==> rows[i].host != rows[j].host
  }

  ghost predicate EachOfOne(rows: seq<NodeRow>, nodes: seq<Node>, counts: Node -> bool, means: (NodeRow, Node) -> bool) {
    forall row :: row in rows ==> exists k :: 0 <= k < |nodes| && counts(nodes[k]) && means(row, nodes[k])
  }

  ghost predicate EachHasOne(rows: seq<NodeRow>, nodes: seq<Node>, counts: Node -> bool, means: (NodeRow, Node) -> bool) {
    forall k :: 0 <= k < |nodes| && counts(nodes[k]) ==> exists row :: row in rows && means(row, nodes[k])
  }

  /** One row for each node with a sample in the quarter hour, and no other. */
  ghost predicate NodeRowsMean(rows: Rows, nodes: seq<Node>, b: int) {
    && DistinctHosts(rows.nodes)
    && EachOfOne(rows.nodes, nodes, BeganAt(b), MeansWith(rows.groups, b))
    && EachHasOne(rows.nodes, nodes, BeganAt(b), MeansWith(rows.groups, b))
  }

  /** Every row of a bucket is fixed by the samples and messages of its quarter hour. */
  ghost predicate RowsMean(rows: Rows, nodes: seq<Node>, msgs: seq<Message>, b: int) {
    NodeRowsMean(rows, nodes, b) && GroupRowsMean(rows.groups, nodes, msgs, b)
  }

  ghost predicate DistinctNames(nodes: seq<Node>) {
    forall i, j :: 0 <= i < j < |nodes| ==> nodes[i].name != nodes[j].name
  }

  // ── Fair shares, row by row ──────────────────────────────────────

  lemma PairedPositive(list: seq<Group>, shares: seq<real>, host: string)
    requires |shares| == |list| && forall g :: g in list ==> g.key.host == host
    ensures SomeWeight(Paired(list, shares), host) <==> SomePositive(Weights(list))
    ensures SomeCount(Paired(list, shares), host) <==> SomePositive(Counts(list))
  {
    var rows := Paired(list, shares);
    forall i | 0 <= i < |list| ensures rows[i] in rows && OnMeter(host)(rows[i]) && rows[i].group == list[i] {
      assert list[i] in list;
    }
    if SomeWeight(rows, host) {
      var r :| r in rows && OnMeter(host)(r) && r.group.weight > 0.0;
      var i :| 0 <= i < |rows| && rows[i] == r;
      assert Weights(list)[i] > 0.0;
    }
    if SomeCount(rows, host) {
      var r :| r in rows && OnMeter(host)(r) && r.group.messages > 0.0;
      var i :| 0 <= i < |rows| && rows[i] == r;
      assert Counts(list)[i] > 0.0;
    }
    if SomePositive(Weights(list)) {
      var i :| 0 <= i < |list| && Weights(list)[i] > 0.0;
      assert rows[i].group.weight > 0.0;
    }
    if SomePositive(Counts(list)) {
      var i :| 0 <= i < |list| && Counts(list)[i] > 0.0;
      assert rows[i].group.messages > 0.0;
    }
  }

  lemma PairAt(list: seq<Group>, shares: seq<real>, i: nat, j: nat)
    requires |shares| == |list| && SplitFairly(shares, Weights(list), Counts(list)) && i < |list| && j < |list|
    ensures InProportion(Paired(list, shares)[i], Paired(list, shares)[j], SomePositive(Weights(list)), SomePositive(Counts(list)))
  {
    assert Weights(list)[i] == list[i].weight && Weights(list)[j] == list[j].weight;
    assert Counts(list)[i] == list[i].messages && Counts(list)[j] == list[j].messages;
  }

  lemma PairedIsFair(list: seq<Group>, shares: seq<real>, host: string)
    requires |shares| == |list| && forall g :: g in list ==> g.key.host == host
    requires SplitFairly(shares, Weights(list), Counts(list))
    ensures SharedFairly(Paired(list, shares), host)
  {
    var rows, byWeight, byCount := Paired(list, shares), SomePositive(Weights(list)), SomePositive(Counts(list));
    PairedPositive(list, shares, host);
    forall r, s | r in rows && s in rows ensures InProportion(r, s, byWeight, byCount) {
      var i :| 0 <= i < |rows| && rows[i] == r;
      var j :| 0 <= j < |rows| && rows[j] == s;
      PairAt(list, shares, i, j);
    }
  }

  ghost predicate Nothing(rows: seq<GroupRow>, host: string) {
    forall r :: r in rows ==> !OnMeter(host)(r)
  }

  lemma FairAppend(xs: seq<GroupRow>, ys: seq<GroupRow>, host: string)
    requires (Nothing(ys, host) && SharedFairly(xs, host)) || (Nothing(xs, host) && SharedFairly(ys, host))
    ensures SharedFairly(xs + ys, host)
  {
    var own := if Nothing(ys, host) && SharedFairly(xs, host) then xs else ys;
    assert forall r :: r in xs + ys && OnMeter(host)(r) ==> r in own;
    assert forall r :: r in own ==> r in xs + ys;
    assert SomeWeight(xs + ys, host) <==> SomeWeight(own, host);
    assert SomeCount(xs + ys, host) <==> SomeCount(own, host);
  }

  lemma {:induction false} AttributedOnAppend(xs: seq<GroupRow>, ys: seq<GroupRow>, host: string)
    ensures AttributedOn(xs + ys, host) == AttributedOn(xs, host) + AttributedOn(ys, host)
  {
    if ys == [] {
      assert xs + ys == xs;
    } else {
      AttributedOnAppend(xs, ys[..|ys| - 1], host);
      assert (xs + ys)[..|xs + ys| - 1] == xs + ys[..|ys| - 1];
    }
  }

  lemma AttributedOnNothing(rows: seq<GroupRow>, host: string)
    requires Nothing(rows, host)
    ensures AttributedOn(rows, host) == 0.0
  {
    SumOfNone(rows, OnMeter(host), (r: GroupRow) => r.activeWh);
  }

  lemma {:induction false} AttributedOnPaired(list: seq<Group>, shares: seq<real>, host: string)
    requires |shares| == |list| && forall g :: g in list ==> g.key.host == host
    ensures AttributedOn(Paired(list, shares), host) == SumOf(shares)
  {
    if list != [] {
      var n := |list| - 1;
      assert list[n] in list;
      AttributedOnPaired(list[..n], shares[..n], host);
      assert Paired(list, shares)[..n] == Paired(list[..n], shares[..n]);
    }
  }

  // ── One node after another ───────────────────────────────────────

  /** What the rows of some of the nodes say, before the unmeasured groups are added. */
  ghost predicate MeteredMeans(rows: Rows, nodes: seq<Node>, own: seq<Group>, b: int) {
    && NodeRowsMean(rows, nodes, b)
    && (forall i, j :: 0 <= i < j < |rows.groups| ==> rows.groups[i].group.key != rows.groups[j].group.key)
    && (forall r :: r in rows.groups ==> r.measured && r.group in own && Sampled(nodes, r.group.key.host, b))
    && (forall g :: g in own && Sampled(nodes, g.key.host, b) ==> exists r :: r in rows.groups && r.group == g)
    && (forall host :: SharedFairly(rows.groups, host))
  }

  /** A further node's rows, beside those of the others. */
  ghost predicate JoinsAs(row: NodeRow, more: seq<GroupRow>, n: Node, own: seq<Group>, b: int) {
    && NodeRowMeans(row, n, more, b)
    && (forall i, j :: 0 <= i < j < |more| ==> more[i].group.key != more[j].group.key)
    && (forall r :: r in more ==> r.measured && r.group in own && r.group.key.host == n.name)
    && (forall g :: g in own && g.key.host == n.name ==> exists r :: r in more && r.group == g)
    && SharedFairly(more, n.name)
  }

  lemma NodeJoins(n: Node, nb: NodeBucket, own: seq<Group>, b: int)
    requires BucketMeans(nb, n.intervals, b, n.idleFor) && GradeMeans(nb) && OnePerKey(own) && (forall g :: g in own ==> g.bucket == b)
    ensures var list := GroupsOn(own, n.name);
            var shares := SharesOf(nb, list);
            JoinsAs(NodeRow(n.name, nb, SumOf(shares)), Paired(list, shares), n, own, b)
  {
    var list := GroupsOn(own, n.name);
    var shares := SharesOf(nb, list);
    var more := Paired(list, shares);
    GroupsOnAre(own, n.name);
    SplitIsFair(nb.activeWh, Weights(list), Counts(list));
    PairedIsFair(list, shares, n.name);
    AttributedOnPaired(list, shares, n.name);
    forall r | r in more ensures r.measured && r.group in own && r.group.key.host == n.name {
      var i :| 0 <= i < |more| && more[i] == r;
      assert list[i] in list;
    }
    forall g | g in own && g.key.host == n.name ensures exists r :: r in more && r.group == g {
      var i :| 0 <= i < |list| && list[i] == g;
      assert more[i] in more && more[i].group == g;
    }
    forall i, j | 0 <= i < j < |more| ensures more[i].group.key != more[j].group.key {
      assert list[i] in list && list[j] in list;
    }
    if list != [] { assert more[0] in more; }
  }

  lemma SampledOneMore(nodes: seq<Node>, n: Node, host: string, b: int)
    ensures Sampled(nodes + [n], host, b) <==> Sampled(nodes, host, b) || (n.name == host && Began(n.intervals, b))
  {
    var all := nodes + [n];
    if Sampled(nodes, host, b) {
      var k :| 0 <= k < |nodes| && nodes[k].name == host && Began(nodes[k].intervals, b);
      assert all[k] == nodes[k];
    }
    if n.name == host && Began(n.intervals, b) { assert all[|nodes|] == n; }
  }

  /** More groups of another node leave a node's row meaning what it meant. */
  lemma RowStays(row: NodeRow, n: Node, xs: seq<GroupRow>, ys: seq<GroupRow>, b: int)
    requires (NodeRowMeans(row, n, xs, b) && Nothing(ys, n.name)) || (NodeRowMeans(row, n, ys, b) && Nothing(xs, n.name))
    ensures NodeRowMeans(row, n, xs + ys, b)
  {
    AttributedOnAppend(xs, ys, n.name);
    var own, other := xs, ys;
    if !(NodeRowMeans(row, n, xs, b) && Nothing(ys, n.name)) { own, other := ys, xs; }
    AttributedOnNothing(other, n.name);
    assert forall r :: r in xs + ys && OnMeter(n.name)(r) ==> r in own;
    assert forall r :: r in own ==> r in xs + ys;
    assert Serves(xs + ys, n.name) <==> Serves(own, n.name);
  }

  ghost predicate NewName(nodes: seq<Node>, n: Node) {
    forall k :: 0 <= k < |nodes| ==> nodes[k].name != n.name
  }

  lemma GroupsJoin(rows: Rows, row: NodeRow, more: seq<GroupRow>, nodes: seq<Node>, n: Node, own: seq<Group>, b: int)
    requires MeteredMeans(rows, nodes, own, b) && JoinsAs(row, more, n, own, b) && Began(n.intervals, b) && NewName(nodes, n)
    ensures var all := rows.groups + more;
            && (forall i, j :: 0 <= i < j < |all| ==> all[i].group.key != all[j].group.key)
            && (forall r :: r in all ==> r.measured && r.group in own && Sampled(nodes + [n], r.group.key.host, b))
            && (forall g :: g in own && Sampled(nodes + [n], g.key.host, b) ==> exists r :: r in all && r.group == g)
  {
    var all := rows.groups + more;
    forall r | r in all ensures r.measured && r.group in own && Sampled(nodes + [n], r.group.key.host, b) {
      SampledOneMore(nodes, n, r.group.key.host, b);
    }
    forall g | g in own && Sampled(nodes + [n], g.key.host, b) ensures exists r :: r in all && r.group == g {
      SampledOneMore(nodes, n, g.key.host, b);
      if g.key.host == n.name {
        var r :| r in more && r.group == g;
        assert r in all;
      } else {
        var r :| r in rows.groups && r.group == g;
        assert r in all;
      }
    }
    forall i, j | 0 <= i < j < |all| ensures all[i].group.key != all[j].group.key {
      if i < |rows.groups| <= j {
        assert all[i] in rows.groups && all[j] in more;
      }
    }
  }

  lemma SharesJoin(rows: Rows, row: NodeRow, more: seq<GroupRow>, nodes: seq<Node>, n: Node, own: seq<Group>, b: int)
    requires MeteredMeans(rows, nodes, own, b) && JoinsAs(row, more, n, own, b) && NewName(nodes, n)
    ensures Nothing(rows.groups, n.name) && forall host :: host != n.name ==> Nothing(more, host)
    ensures forall host :: SharedFairly(rows.groups + more, host)
  {
    forall host ensures SharedFairly(rows.groups + more, host) {
      FairAppend(rows.groups, more, host);
    }
  }

  lemma OfOneStays(rows: seq<NodeRow>, nodes: seq<Node>, counts: Node -> bool, means: (NodeRow, Node) -> bool, now: (NodeRow, Node) -> bool)
    requires EachOfOne(rows, nodes, counts, means)
    requires forall row, n :: row in rows && n in nodes && means(row, n) ==> now(row, n)
    ensures EachOfOne(rows, nodes, counts, now)
  {
    forall row | row in rows ensures exists k :: 0 <= k < |nodes| && counts(nodes[k]) && now(row, nodes[k]) {
      var k :| 0 <= k < |nodes| && counts(nodes[k]) && means(row, nodes[k]);
      assert nodes[k] in nodes;
    }
  }

  lemma HasOneStays(rows: seq<NodeRow>, nodes: seq<Node>, counts: Node -> bool, means: (NodeRow, Node) -> bool, now: (NodeRow, Node) -> bool)
    requires EachHasOne(rows, nodes, counts, means)
    requires forall row, n :: row in rows && n in nodes && means(row, n) ==> now(row, n)
    ensures EachHasOne(rows, nodes, counts, now)
  {
    forall k | 0 <= k < |nodes| && counts(nodes[k]) ensures exists row :: row in rows && now(row, nodes[k]) {
      var row :| row in rows && means(row, nodes[k]);
      assert nodes[k] in nodes && now(row, nodes[k]);
    }
  }

  lemma OfOneMoreNode(rows: seq<NodeRow>, nodes: seq<Node>, n: Node, counts: Node -> bool, means: (NodeRow, Node) -> bool)
    requires EachOfOne(rows, nodes, counts, means)
    ensures EachOfOne(rows, nodes + [n], counts, means)
  {
    var every := nodes + [n];
    forall row | row in rows ensures exists k :: 0 <= k < |every| && counts(every[k]) && means(row, every[k]) {
      var k :| 0 <= k < |nodes| && counts(nodes[k]) && means(row, nodes[k]);
      assert every[k] == nodes[k];
    }
  }

  lemma OfOneMoreRow(rows: seq<NodeRow>, row: NodeRow, nodes: seq<Node>, n: Node, counts: Node -> bool, means: (NodeRow, Node) -> bool)
    requires EachOfOne(rows, nodes + [n], counts, means) && counts(n) && means(row, n)
    ensures EachOfOne(rows + [row], nodes + [n], counts, means)
  {
    var every := nodes + [n];
    assert every[|nodes|] == n;
  }

  lemma HasOneMore(rows: seq<NodeRow>, more: seq<NodeRow>, nodes: seq<Node>, n: Node, counts: Node -> bool, means: (NodeRow, Node) -> bool)
    requires EachHasOne(rows, nodes, counts, means) && (counts(n) ==> exists row :: row in more && means(row, n))
    ensures EachHasOne(rows + more, nodes + [n], counts, means)
  {
    var all, every := rows + more, nodes + [n];
    forall k | 0 <= k < |every| && counts(every[k]) ensures exists row :: row in all && means(row, every[k]) {
      if k < |nodes| {
        assert counts(nodes[k]);
        var row :| row in rows && means(row, nodes[k]);
        assert row in all;
      } else {
        var row :| row in more && means(row, n);
        assert row in all;
      }
    }
  }

  lemma HostsOf(rows: seq<NodeRow>, groups: seq<GroupRow>, nodes: seq<Node>, n: Node, b: int)
    requires EachOfOne(rows, nodes, BeganAt(b), MeansWith(groups, b)) && NewName(nodes, n)
    ensures forall row :: row in rows ==> row.host != n.name
  {
    forall row | row in rows ensures row.host != n.name {
      var k :| 0 <= k < |nodes| && BeganAt(b)(nodes[k]) && MeansWith(groups, b)(row, nodes[k]);
    }
  }

  lemma DistinctWithOneMore(rows: seq<NodeRow>, row: NodeRow)
    requires DistinctHosts(rows) && forall r :: r in rows ==> r.host != row.host
    ensures DistinctHosts(rows + [row])
  {
    var all := rows + [row];
    forall i, j | 0 <= i < j < |all| ensures all[i].host != all[j].host {
      if j == |rows| { assert all[i] in rows; }
    }
  }

  /** Rows that mean the same beside further groups of other nodes. */
  lemma NodeRowsStay(rows: seq<NodeRow>, nodes: seq<Node>, xs: seq<GroupRow>, ys: seq<GroupRow>, b: int)
    requires NodeRowsMean(Rows(rows, xs), nodes, b) && forall n :: n in nodes ==> Nothing(ys, n.name)
    ensures NodeRowsMean(Rows(rows, xs + ys), nodes, b)
  {
    var means, now := MeansWith(xs, b), MeansWith(xs + ys, b);
    MeaningsStay(rows, nodes, xs, ys, b);
    OfOneStays(rows, nodes, BeganAt(b), means, now);
    HasOneStays(rows, nodes, BeganAt(b), means, now);
  }

  lemma MeaningsStay(rows: seq<NodeRow>, nodes: seq<Node>, xs: seq<GroupRow>, ys: seq<GroupRow>, b: int)
    requires forall n :: n in nodes ==> Nothing(ys, n.name)
    ensures forall row, n :: row in rows && n in nodes && MeansWith(xs, b)(row, n) ==> MeansWith(xs + ys, b)(row, n)
  {
    forall row, n | row in rows && n in nodes && MeansWith(xs, b)(row, n) ensures MeansWith(xs + ys, b)(row, n) {
      RowStays(row, n, xs, ys, b);
    }
  }

  lemma NodesJoin(rows: seq<NodeRow>, groups: seq<GroupRow>, row: NodeRow, nodes: seq<Node>, n: Node, b: int)
    requires NodeRowsMean(Rows(rows, groups), nodes, b) && NodeRowMeans(row, n, groups, b) && Began(n.intervals, b) && NewName(nodes, n)
    ensures NodeRowsMean(Rows(rows + [row], groups), nodes + [n], b)
  {
    var means := MeansWith(groups, b);
    HostsOf(rows, groups, nodes, n, b);
    DistinctWithOneMore(rows, row);
    OfOneMoreNode(rows, nodes, n, BeganAt(b), means);
    OfOneMoreRow(rows, row, nodes, n, BeganAt(b), means);
    assert row in [row] && means(row, n);
    HasOneMore(rows, [row], nodes, n, BeganAt(b), means);
  }

  lemma MeteredOneMore(rows: Rows, row: NodeRow, more: seq<GroupRow>, nodes: seq<Node>, n: Node, own: seq<Group>, b: int)
    requires MeteredMeans(rows, nodes, own, b) && JoinsAs(row, more, n, own, b) && Began(n.intervals, b) && NewName(nodes, n)
    ensures MeteredMeans(Rows(rows.nodes + [row], rows.groups + more), nodes + [n], own, b)
  {
    GroupsJoin(rows, row, more, nodes, n, own, b);
    SharesJoin(rows, row, more, nodes, n, own, b);
    NodeRowsStay(rows.nodes, nodes, rows.groups, more, b);
    RowStays(row, n, rows.groups, more, b);
    NodesJoin(rows.nodes, rows.groups + more, row, nodes, n, b);
  }

  lemma UnsampledNode(rows: Rows, nodes: seq<Node>, n: Node, own: seq<Group>, b: int)
    requires MeteredMeans(rows, nodes, own, b) && !Began(n.intervals, b)
    ensures MeteredMeans(rows, nodes + [n], own, b)
  {
    var every := nodes + [n];
    forall host: string ensures Sampled(every, host, b) <==> Sampled(nodes, host, b) {
      SampledOneMore(nodes, n, host, b);
    }
    var means := MeansWith(rows.groups, b);
    OfOneMoreNode(rows.nodes, nodes, n, BeganAt(b), means);
    HasOneMore(rows.nodes, [], nodes, n, BeganAt(b), means);
    assert rows.nodes + [] == rows.nodes;
  }

  lemma {:induction false} NodesMean(nodes: seq<Node>, start: int, end: int, own: seq<Group>, b: int)
    requires Aligned(start) && Aligned(end) && Aligned(b) && start <= b < end
    requires DistinctNames(nodes) && OnePerKey(own) && forall g :: g in own ==> g.bucket == b
    ensures MeteredMeans(NodesRows(Built(nodes, start, end), b, own), nodes, own, b)
  {
    if nodes == [] {
      NoNodesMean(own, b);
    } else {
      var init, n := nodes[..|nodes| - 1], nodes[|nodes| - 1];
      NodesMean(init, start, end, own, b);
      assert Built(nodes, start, end)[..|init|] == Built(init, start, end);
      assert init + [n] == nodes;
      NodeBucketMeans(n, start, end, b);
      var rows, nb := NodesRows(Built(init, start, end), b, own), At(BuiltNode(n, start, end).buckets, b);
      AddedNodeMeans(rows, nb, init, n, own, b);
    }
  }

  lemma NoNodesMean(own: seq<Group>, b: int)
    ensures MeteredMeans(NO_ROWS, [], own, b)
  {
  }

  lemma AddedNodeMeans(rows: Rows, nb: Option<NodeBucket>, nodes: seq<Node>, n: Node, own: seq<Group>, b: int)
    requires MeteredMeans(rows, nodes, own, b) && NewName(nodes, n)
    requires nb.Some? <==> Began(n.intervals, b)
    requires nb.Some? ==> BucketMeans(nb.value, n.intervals, b, n.idleFor) && GradeMeans(nb.value)
    requires OnePerKey(own) && forall g :: g in own ==> g.bucket == b
    ensures MeteredMeans(AddNode(rows, n.name, nb, own), nodes + [n], own, b)
  {
    if nb.Some? {
      var list := GroupsOn(own, n.name);
      var shares := SharesOf(nb.value, list);
      NodeJoins(n, nb.value, own, b);
      MeteredOneMore(rows, NodeRow(n.name, nb.value, SumOf(shares)), Paired(list, shares), nodes, n, own, b);
    } else {
      UnsampledNode(rows, nodes, n, own, b);
    }
  }

  // ── And the groups of nodes that were not sampled ────────────────

  lemma {:induction false} UnmeasuredAre(groups: seq<Group>, sampled: set<string>)
    ensures var rows := Unmeasured(groups, sampled);
            && (forall r :: r in rows ==> r == GroupRow(r.group, 0.0, false) && r.group in groups && r.group.key.host !in sampled)
            && (forall g :: g in groups && g.key.host !in sampled ==> GroupRow(g, 0.0, false) in rows)
  {
    if groups != [] { UnmeasuredAre(groups[1..], sampled); }
  }

  lemma {:induction false} UnmeasuredDiffer(groups: seq<Group>, sampled: set<string>, b: int)
    requires OnePerKey(groups) && forall g :: g in groups ==> g.bucket == b
    ensures var rows := Unmeasured(groups, sampled);
            forall i, j :: 0 <= i < j < |rows| ==> rows[i].group.key != rows[j].group.key
  {
    if groups != [] {
      UnmeasuredDiffer(groups[1..], sampled, b);
      if groups[0].key.host !in sampled {
        var rest := Unmeasured(groups[1..], sampled);
        UnmeasuredAre(groups[1..], sampled);
        forall j | 0 <= j < |rest| ensures rest[j].group.key != groups[0].key {
          assert rest[j] in rest;
          assert groups[0] in groups;
        }
      }
    }
  }

  lemma {:induction false} SampledInIs(nodes: seq<Node>, start: int, end: int, b: int)
    requires Aligned(start) && Aligned(end) && Aligned(b) && start <= b < end
    ensures forall host :: host in SampledIn(Built(nodes, start, end), b) <==> Sampled(nodes, host, b)
  {
    if nodes != [] {
      var init, n := nodes[..|nodes| - 1], nodes[|nodes| - 1];
      SampledInIs(init, start, end, b);
      assert Built(nodes, start, end)[..|init|] == Built(init, start, end);
      assert init + [n] == nodes;
      NodeBucketMeans(n, start, end, b);
      forall host ensures host in SampledIn(Built(nodes, start, end), b) <==> Sampled(nodes, host, b) {
        SampledOneMore(init, n, host, b);
      }
    }
  }

  ghost predicate RestIs(rest: seq<GroupRow>, nodes: seq<Node>, own: seq<Group>, b: int) {
    && (forall r :: r in rest ==> !r.measured && r.activeWh == 0.0 && r.group in own && !Sampled(nodes, r.group.key.host, b))
    && (forall g :: g in own && !Sampled(nodes, g.key.host, b) ==> exists r :: r in rest && r.group == g)
    && (forall i, j :: 0 <= i < j < |rest| ==> rest[i].group.key != rest[j].group.key)
  }

  lemma UnmeasuredIsTheRest(nodes: seq<Node>, sampled: set<string>, own: seq<Group>, b: int)
    requires OnePerKey(own) && forall g :: g in own ==> g.bucket == b
    requires forall host :: host in sampled <==> Sampled(nodes, host, b)
    ensures RestIs(Unmeasured(own, sampled), nodes, own, b)
  {
    UnmeasuredAre(own, sampled);
    UnmeasuredDiffer(own, sampled, b);
    forall g | g in own && !Sampled(nodes, g.key.host, b) ensures exists r :: r in Unmeasured(own, sampled) && r.group == g {
      assert GroupRow(g, 0.0, false).group == g;
    }
  }

  lemma AllNodesStay(rows: Rows, rest: seq<GroupRow>, nodes: seq<Node>, b: int)
    requires NodeRowsMean(rows, nodes, b) && forall r :: r in rest ==> !r.measured
    ensures NodeRowsMean(rows.(groups := rows.groups + rest), nodes, b)
  {
    NodeRowsStay(rows.nodes, nodes, rows.groups, rest, b);
  }

  lemma AllGroupsMean(metered: Rows, rest: seq<GroupRow>, nodes: seq<Node>, msgs: seq<Message>, own: seq<Group>, b: int)
    requires MeteredMeans(metered, nodes, own, b) && RestIs(rest, nodes, own, b) && GroupsMean(own, msgs, b)
    ensures GroupRowsMean(metered.groups + rest, nodes, msgs, b)
  {
    var all := metered.groups + rest;
    forall key | Served(msgs, key, b) ensures exists r :: r in all && r.group.key == key {
      var g :| g in own && g.key == key;
      if Sampled(nodes, g.key.host, b) {
        var r :| r in metered.groups && r.group == g;
        assert r in all;
      } else {
        var r :| r in rest && r.group == g;
        assert r in all;
      }
    }
    forall i, j | 0 <= i < j < |all| ensures all[i].group.key != all[j].group.key {
      if i < |metered.groups| <= j {
        assert all[i] in metered.groups && all[j] in rest;
      }
    }
    forall host ensures SharedFairly(all, host) {
      FairAppend(metered.groups, rest, host);
    }
  }

  /** Whatever range was rebuilt, a quarter hour's rows mean what its samples and messages say. */
  lemma ChunkRowsMean(nodes: seq<Node>, msgs: seq<Message>, start: int, end: int, b: int)
    requires Aligned(start) && Aligned(end) && Aligned(b) && start <= b < end && DistinctNames(nodes)
    ensures RowsMean(ChunkRows(nodes, msgs, start, end, b), nodes, msgs, b)
  {
    var own := GroupsAt(Gather(msgs, start, end), b);
    OwnGroupsMean(msgs, start, end, b);
    NodesMean(nodes, start, end, own, b);
    SampledInIs(nodes, start, end, b);
    var sampled := SampledIn(Built(nodes, start, end), b);
    var metered := NodesRows(Built(nodes, start, end), b, own);
    UnmeasuredIsTheRest(nodes, sampled, own, b);
    AllGroupsMean(metered, Unmeasured(own, sampled), nodes, msgs, own, b);
    AllNodesStay(metered, Unmeasured(own, sampled), nodes, b);
  }

  /** And so do the rows a rebuild stores and every run of refreshes ends with. */
  lemma FromScratchMeans(nodes: seq<Node>, msgs: seq<Message>, b: int)
    requires Aligned(b) && DistinctNames(nodes)
    ensures RowsMean(Owned(FromScratch(nodes), msgs)(b), nodes, msgs, b)
  {
    ChunkIsFromScratch(nodes, msgs, b, b + BUCKET_MS, b);
    ChunkRowsMean(nodes, msgs, b, b + BUCKET_MS, b);
  }
}
