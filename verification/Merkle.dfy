/**
 * merkle-v1 as packages/core/provenance.ts builds, proves and verifies it: leaf prefix 0x00, node
 * prefix 0x03, empty root 32 zero bytes, proofs carried as hex strings.
 */
module Merkle {
  import opened Wrappers
  import opened Bytes
  import opened HashTree

  const LEAF_PREFIX: seq<Byte> := [0x00]
  const NODE_PREFIX: seq<Byte> := [0x03]
  const ZERO_HASH: Digest :=
    [0, 0, 0, 0, 0, 0, 0, 0, 0, 0, 0, 0, 0, 0, 0, 0, 0, 0, 0, 0, 0, 0, 0, 0, 0, 0, 0, 0, 0, 0, 0, 0]

  function HashLeaf(sha: HashFn, content: seq<Byte>): Digest {
    sha(LEAF_PREFIX + content)
  }

  function NodeInput(left: Digest, right: Digest): seq<Byte> {
    NODE_PREFIX + left + right
  }

  function HashCombine(sha: HashFn, left: Digest, right: Digest): Digest {
    sha(NodeInput(left, right))
  }

  function Combiner(sha: HashFn): (Digest, Digest) -> Digest {
    (left: Digest, right: Digest) => HashCombine(sha, left, right)
  }

  function RootOf(sha: HashFn, leaves: seq<Digest>): Digest {
    if leaves == [] then ZERO_HASH else Root(Combiner(sha), leaves)
  }

  datatype ProofNode = ProofNode(hash: string, isLeft: bool)
  datatype MerkleProof = MerkleProof(leaf: string, leafIndex: int, siblings: seq<ProofNode>, root: string)

  function PrintPath(path: seq<Step<Digest>>): (nodes: seq<ProofNode>)
    ensures |nodes| == |path|
  {
    if path == [] then [] else [ProofNode(ToHex(path[0].sibling), path[0].isLeft)] + PrintPath(path[1..])
  }

  /** The proof of leaf `i`, as the code prints it. */
  function ProofOf(sha: HashFn, leaves: seq<Digest>, i: nat): MerkleProof
    requires i < |leaves|
  {
    MerkleProof(ToHex(leaves[i]), i, PrintPath(AuditPath(Combiner(sha), leaves, i)), ToHex(RootOf(sha, leaves)))
  }

  /** Climb printed siblings from `current`; combining anything that is not 32 bytes throws. */
  function ClimbNodes(sha: HashFn, current: seq<Byte>, nodes: seq<ProofNode>): Result<seq<Byte>, string>
    decreases |nodes|
  {
    if nodes == [] then Success(current)
    else
      var sib := FromHex(nodes[0].hash);
      if |sib| != 32 || |current| != 32 then Failure("hash inputs must be 32 bytes")
      else ClimbNodes(sha, Combine<Digest>(Combiner(sha), current, Step(sib, nodes[0].isLeft)), nodes[1..])
  }

  function Accepts(sha: HashFn, proof: MerkleProof): Result<bool, string> {
    match ClimbNodes(sha, FromHex(proof.leaf), proof.siblings)
    case Failure(e) => Failure(e)
    case Success(top) => Success(top == FromHex(proof.root))
  }

  // ── The code ─────────────────────────────────────────────────────

  method BuildLayer(sha: HashFn, current: seq<Digest>) returns (next: seq<Digest>)
    ensures next == NextLayer(Combiner(sha), current)
  {
    next := [];
    var i := 0;
    while i < |current|
      invariant 0 <= i <= |current| + 1 && i % 2 == 0
      invariant next == NextLayer(Combiner(sha), current)[..i / 2]
    {
      var left := current[i];
      var right := if i + 1 < |current| then current[i + 1] else current[i];
      assert HashCombine(sha, left, right) == Parent(Combiner(sha), current, i / 2);
      next := next + [HashCombine(sha, left, right)];
      i := i + 2;
    }
  }

  method BuildTree(sha: HashFn, leaves: seq<Digest>) returns (layers: seq<seq<Digest>>)
    ensures layers == Tree(Combiner(sha), leaves)
  {
    ghost var node := Combiner(sha);
    if |leaves| == 0 {
      return [[]];
    }
    layers := [leaves];
    var current := leaves;
    ghost var below: seq<seq<Digest>> := [];
    while |current| > 1
      invariant |current| > 0 && layers == below + [current]
      invariant below + Tree(node, current) == Tree(node, leaves)
      decreases |current|
    {
      var next := BuildLayer(sha, current);
      assert below + ([current] + Tree(node, next)) == layers + Tree(node, next);
      below := layers;
      layers := layers + [next];
      current := next;
    }
  }

  method TreeRoot(ghost sha: HashFn, layers: seq<seq<Digest>>) returns (root: Digest)
    requires |layers| > 0 && layers == Tree(Combiner(sha), layers[0])
    ensures root == RootOf(sha, layers[0])
  {
    if |layers[0]| > 0 {
      LastLayerHoldsTheRoot(Combiner(sha), layers[0]);
    }
    var top := layers[|layers| - 1];
    root := if |top| > 0 then top[0] else ZERO_HASH;
  }

  method MerkleRoot(sha: HashFn, leaves: seq<Digest>) returns (root: Digest)
    ensures root == RootOf(sha, leaves)
  {
    var layers := BuildTree(sha, leaves);
    root := TreeRoot(sha, layers);
  }

  lemma LayerTail(node: (Digest, Digest) -> Digest, layer: seq<Digest>)
    requires |Tree(node, layer)| > 1
    ensures |layer| > 1 && Tree(node, layer)[1..] == Tree(node, NextLayer(node, layer))
  {
  }

  lemma PrintPathAppend(path: seq<Step<Digest>>, step: Step<Digest>, rest: seq<Step<Digest>>)
    requires path == [step] + rest
    ensures PrintPath(path) == [ProofNode(ToHex(step.sibling), step.isLeft)] + PrintPath(rest)
  {
    assert path[1..] == rest;
  }

  method ProofFor(ghost sha: HashFn, layers: seq<seq<Digest>>, leafIndex: int) returns (r: Result<MerkleProof, string>)
    requires |layers| > 0 && layers == Tree(Combiner(sha), layers[0])
    ensures r.Success? <==> 0 <= leafIndex < |layers[0]|
    ensures r.Success? ==> r.value == ProofOf(sha, layers[0], leafIndex)
  {
    ghost var node := Combiner(sha);
    var leaves := layers[0];
    if |leaves| == 0 {
      return Failure("empty tree has no proofs");
    }
    if leafIndex < 0 || leafIndex >= |leaves| {
      return Failure("leaf_index out of range");
    }
    var siblings: seq<ProofNode> := [];
    var idx: nat := leafIndex;
    var k := 0;
    while k < |layers| - 1
      invariant 0 <= k <= |layers| - 1
      invariant idx < |layers[k]| && layers[k..] == Tree(node, layers[k])
      invariant siblings + PrintPath(AuditPath(node, layers[k], idx)) == PrintPath(AuditPath(node, leaves, leafIndex))
    {
      var layer := layers[k];
      LayerTail(node, layer);
      assert layers[k..][1..] == layers[k + 1..];
      assert layers[k + 1] == layers[k + 1..][0] == NextLayer(node, layer);
      var sibling := if idx % 2 == 0 then idx + 1 else idx - 1;
      var isLeft := idx % 2 != 0;
      if sibling >= |layer| {
        sibling := idx; // odd-element rule: self-duplicate
      }
      assert sibling == SiblingOf(|layer|, idx);
      PrintPathAppend(AuditPath(node, layer, idx), Step(layer[sibling], isLeft),
                      AuditPath(node, layers[k + 1], idx / 2));
      siblings := siblings + [ProofNode(ToHex(layer[sibling]), isLeft)];
      idx := idx / 2;
      k := k + 1;
    }
    var root := TreeRoot(sha, layers);
    r := Success(MerkleProof(ToHex(leaves[leafIndex]), leafIndex, siblings, ToHex(root)));
  }

  method VerifyProof(sha: HashFn, proof: MerkleProof) returns (r: Result<bool, string>)
    ensures r == Accepts(sha, proof)
  {
    var current := FromHex(proof.leaf);
    var k := 0;
    while k < |proof.siblings|
      invariant 0 <= k <= |proof.siblings|
      invariant ClimbNodes(sha, FromHex(proof.leaf), proof.siblings) == ClimbNodes(sha, current, proof.siblings[k..])
    {
      var node := proof.siblings[k];
      var sib := FromHex(node.hash);
      if |sib| != 32 || |current| != 32 {
        return Failure("hash inputs must be 32 bytes");
      }
      assert proof.siblings[k..][1..] == proof.siblings[k + 1..];
      current := if node.isLeft then HashCombine(sha, sib, current) else HashCombine(sha, current, sib);
      k := k + 1;
    }
    r := Success(current == FromHex(proof.root));
  }

  // ── Completeness ─────────────────────────────────────────────────

  lemma {:induction false} PrintedPathClimbsAlike(sha: HashFn, current: Digest, path: seq<Step<Digest>>)
    ensures ClimbNodes(sha, current, PrintPath(path)) == Success(Climb(Combiner(sha), current, path))
    decreases |path|
  {
    if path != [] {
      FromHexToHex(path[0].sibling);
      assert PrintPath(path)[1..] == PrintPath(path[1..]);
      PrintedPathClimbsAlike(sha, Combine(Combiner(sha), current, path[0]), path[1..]);
    }
  }

  /** Every proof the code prints is accepted, at every size and index. */
  lemma ProofsAreComplete(sha: HashFn, leaves: seq<Digest>, i: nat)
    requires i < |leaves|
    ensures Accepts(sha, ProofOf(sha, leaves, i)) == Success(true)
  {
    AuditPathClimbsToRoot(Combiner(sha), leaves, i);
    PrintedPathClimbsAlike(sha, leaves[i], AuditPath(Combiner(sha), leaves, i));
    FromHexToHex(leaves[i]);
    FromHexToHex(RootOf(sha, leaves));
  }

  // ── The preimages in play ────────────────────────────────────────

  ghost function NodeInputs(pairs: set<(Digest, Digest)>): set<seq<Byte>> {
    set p | p in pairs :: NodeInput(p.0, p.1)
  }

  /** Every node preimage hashed while building the tree. */
  ghost function TreeInputs(sha: HashFn, leaves: seq<Digest>): set<seq<Byte>> {
    NodeInputs(TreePairs(Combiner(sha), leaves))
  }

  ghost predicate WellSized(nodes: seq<ProofNode>) {
    forall k :: 0 <= k < |nodes| ==> |FromHex(nodes[k].hash)| == 32
  }

  ghost function ReadPath(nodes: seq<ProofNode>): (path: seq<Step<Digest>>)
    requires WellSized(nodes)
    ensures |path| == |nodes|
  {
    if nodes == [] then []
    else [Step(FromHex(nodes[0].hash), nodes[0].isLeft)] + ReadPath(nodes[1..])
  }

  /** Every node preimage hashed while verifying a proof; none when a size check throws. */
  ghost function VerifyInputs(sha: HashFn, proof: MerkleProof): set<seq<Byte>> {
    if WellSized(proof.siblings) && |FromHex(proof.leaf)| == 32
    then NodeInputs(ClimbPairs(Combiner(sha), FromHex(proof.leaf), ReadPath(proof.siblings)))
    else {}
  }

  lemma NodeInputInjective(p: (Digest, Digest), q: (Digest, Digest))
    requires NodeInput(p.0, p.1) == NodeInput(q.0, q.1)
    ensures p == q
  {
    assert p.0 == NodeInput(p.0, p.1)[1..33] && q.0 == NodeInput(q.0, q.1)[1..33];
    assert p.1 == NodeInput(p.0, p.1)[33..] && q.1 == NodeInput(q.0, q.1)[33..];
  }

  lemma CollisionFreePairs(sha: HashFn, preimages: set<seq<Byte>>, pairs: set<(Digest, Digest)>)
    requires CollisionFree(sha, preimages) && NodeInputs(pairs) <= preimages
    ensures PairwiseInjective(Combiner(sha), pairs)
  {
    forall p, q | p in pairs && q in pairs && Combiner(sha)(p.0, p.1) == Combiner(sha)(q.0, q.1)
      ensures p == q
    {
      assert NodeInput(p.0, p.1) in NodeInputs(pairs) && NodeInput(q.0, q.1) in NodeInputs(pairs);
      NodeInputInjective(p, q);
    }
  }

  // ── Soundness ────────────────────────────────────────────────────

  lemma {:induction false} AcceptedClimbIsWellSized(sha: HashFn, current: seq<Byte>, nodes: seq<ProofNode>)
    requires ClimbNodes(sha, current, nodes).Success?
    requires |ClimbNodes(sha, current, nodes).value| == 32
    ensures |current| == 32 && WellSized(nodes)
    ensures ClimbNodes(sha, current, nodes).value == Climb(Combiner(sha), current, ReadPath(nodes))
    decreases |nodes|
  {
    if nodes != [] {
      var step: Step<Digest> := Step(FromHex(nodes[0].hash), nodes[0].isLeft);
      AcceptedClimbIsWellSized(sha, Combine<Digest>(Combiner(sha), current, step), nodes[1..]);
      forall k | 0 <= k < |nodes| ensures |FromHex(nodes[k].hash)| == 32 {
        if k > 0 { assert nodes[k] == nodes[1..][k - 1]; }
      }
      assert ReadPath(nodes)[1..] == ReadPath(nodes[1..]);
    }
  }

  /**
   * A proof accepted against a list's root, with one sibling per layer, is about the leaf its
   * turns spell, unless the tree and the climb hold a collision.
   */
  lemma ProofsAreSound(sha: HashFn, leaves: seq<Digest>, proof: MerkleProof)
    requires |leaves| > 0 && |proof.siblings| == Height(|leaves|)
    requires FromHex(proof.root) == RootOf(sha, leaves)
    requires CollisionFree(sha, TreeInputs(sha, leaves) + VerifyInputs(sha, proof))
    requires Accepts(sha, proof) == Success(true)
    ensures WellSized(proof.siblings)
    ensures FromHex(proof.leaf) == leaves[Slot(|leaves|, Turns(ReadPath(proof.siblings)))]
    ensures FromHex(proof.leaf) in leaves
  {
    var node := Combiner(sha);
    AcceptedClimbIsWellSized(sha, FromHex(proof.leaf), proof.siblings);
    var path := ReadPath(proof.siblings);
    var pairs := TreePairs(node, leaves) + ClimbPairs(node, FromHex(proof.leaf), path);
    NodeInputsOfUnion(TreePairs(node, leaves), ClimbPairs(node, FromHex(proof.leaf), path));
    CollisionFreePairs(sha, NodeInputs(pairs), pairs);
    ClimbStartsAtItsSlot(node, pairs, leaves, FromHex(proof.leaf), path);
  }

  /** The height condition is needed: the root itself, with no siblings at all, is always accepted. */
  lemma ShortProofOfTheRoot(sha: HashFn, leaves: seq<Digest>)
    ensures Accepts(sha, MerkleProof(ToHex(RootOf(sha, leaves)), 0, [], ToHex(RootOf(sha, leaves)))) == Success(true)
  {
  }

  // ── What a root commits to ───────────────────────────────────────

  function HashLeaves(sha: HashFn, contents: seq<seq<Byte>>): (leaves: seq<Digest>)
    ensures |leaves| == |contents|
    ensures forall i :: 0 <= i < |contents| ==> leaves[i] == HashLeaf(sha, contents[i])
  {
    seq(|contents|, i requires 0 <= i < |contents| => HashLeaf(sha, contents[i]))
  }

  ghost function LeafInputs(contents: seq<seq<Byte>>): set<seq<Byte>> {
    set i | 0 <= i < |contents| :: LEAF_PREFIX + contents[i]
  }

  /** Every preimage hashed on the way from contents to their root. */
  ghost function RootInputs(sha: HashFn, contents: seq<seq<Byte>>): set<seq<Byte>> {
    LeafInputs(contents) + TreeInputs(sha, HashLeaves(sha, contents))
  }

  lemma LeafInputInjective(a: seq<Byte>, b: seq<Byte>)
    requires LEAF_PREFIX + a == LEAF_PREFIX + b
    ensures a == b
  {
    assert a == (LEAF_PREFIX + a)[1..] && b == (LEAF_PREFIX + b)[1..];
  }

  lemma PrefixesDiffer(content: seq<Byte>, p: (Digest, Digest))
    ensures LEAF_PREFIX + content != NodeInput(p.0, p.1)
  {
    assert NodeInput(p.0, p.1)[0] == 3 && (LEAF_PREFIX + content)[0] == 0;
  }

  /** Domain separation: with both kinds of preimage in play and no collisions, no node is a leaf. */
  lemma PrefixesSeparateLevels(sha: HashFn, preimages: set<seq<Byte>>, pairs: set<(Digest, Digest)>, contents: seq<seq<Byte>>)
    requires CollisionFree(sha, preimages) && NodeInputs(pairs) <= preimages && LeafInputs(contents) <= preimages
    ensures Separated(Combiner(sha), pairs, (set d | d in HashLeaves(sha, contents)))
  {
    CollisionFreePairs(sha, preimages, pairs);
    var leaves := HashLeaves(sha, contents);
    forall p, i | p in pairs && 0 <= i < |leaves| ensures Combiner(sha)(p.0, p.1) != leaves[i] {
      assert NodeInput(p.0, p.1) in NodeInputs(pairs) && LEAF_PREFIX + contents[i] in LeafInputs(contents);
      PrefixesDiffer(contents[i], p);
    }
  }

  lemma DistinctContentsDistinctLeaves(sha: HashFn, preimages: set<seq<Byte>>, contents: seq<seq<Byte>>)
    requires LeafInputs(contents) <= preimages && CollisionFree(sha, preimages) && NoDuplicates(contents)
    ensures NoDuplicates(HashLeaves(sha, contents))
  {
    forall i, j | 0 <= i < j < |contents| ensures HashLeaf(sha, contents[i]) != HashLeaf(sha, contents[j]) {
      assert LEAF_PREFIX + contents[i] in LeafInputs(contents) && LEAF_PREFIX + contents[j] in LeafInputs(contents);
      if HashLeaf(sha, contents[i]) == HashLeaf(sha, contents[j]) {
        LeafInputInjective(contents[i], contents[j]);
      }
    }
  }

  lemma EqualLeavesEqualContents(sha: HashFn, preimages: set<seq<Byte>>, a: seq<seq<Byte>>, b: seq<seq<Byte>>)
    requires LeafInputs(a) <= preimages && LeafInputs(b) <= preimages && CollisionFree(sha, preimages)
    requires HashLeaves(sha, a) == HashLeaves(sha, b)
    ensures a == b
  {
    assert |a| == |HashLeaves(sha, a)| == |b|;
    forall i | 0 <= i < |a| ensures a[i] == b[i] {
      assert LEAF_PREFIX + a[i] in LeafInputs(a) && LEAF_PREFIX + b[i] in LeafInputs(b);
      assert HashLeaves(sha, a)[i] == HashLeaves(sha, b)[i];
      LeafInputInjective(a[i], b[i]);
    }
  }

  /** A non-empty list's root is the digest of a preimage in play. */
  lemma RootIsHashed(sha: HashFn, contents: seq<seq<Byte>>)
    requires |contents| > 0
    ensures exists x :: x in RootInputs(sha, contents) && sha(x) == RootOf(sha, HashLeaves(sha, contents))
  {
    var leaves := HashLeaves(sha, contents);
    var node, root := Combiner(sha), RootOf(sha, leaves);
    var bottom := set d | d in leaves;
    var pairs := TreePairs(node, leaves);
    RootLevel(node, pairs, bottom, 0, leaves, Root(node, leaves), Height(|leaves|));
    if Height(|leaves|) == 0 {
      var i :| 0 <= i < |leaves| && leaves[i] == root;
      assert LEAF_PREFIX + contents[i] in LeafInputs(contents);
    } else {
      var p :| p in pairs && root == node(p.0, p.1);
      assert NodeInput(p.0, p.1) in NodeInputs(pairs);
    }
  }

  /** Exactly when the roots of two non-empty lists of contents agree. */
  lemma RootsAgreeIff(sha: HashFn, a: seq<seq<Byte>>, b: seq<seq<Byte>>)
    requires |a| > 0 && |b| > 0
    requires CollisionFree(sha, RootInputs(sha, a) + RootInputs(sha, b))
    ensures RootOf(sha, HashLeaves(sha, a)) == RootOf(sha, HashLeaves(sha, b))
            <==> SameFullTree(HashLeaves(sha, a), HashLeaves(sha, b))
  {
    var preimages := RootInputs(sha, a) + RootInputs(sha, b);
    var la, lb := HashLeaves(sha, a), HashLeaves(sha, b);
    var pairs := TreePairs(Combiner(sha), la) + TreePairs(Combiner(sha), lb);
    NodeInputsOfUnion(TreePairs(Combiner(sha), la), TreePairs(Combiner(sha), lb));
    PrefixesSeparateLevels(sha, preimages, pairs, a);
    PrefixesSeparateLevels(sha, preimages, pairs, b);
    RootsAgreeExactlyWhen(Combiner(sha), pairs, (set d | d in la) + (set d | d in lb), la, lb);
  }

  lemma NodeInputsOfUnion(p: set<(Digest, Digest)>, q: set<(Digest, Digest)>)
    ensures NodeInputs(p + q) == NodeInputs(p) + NodeInputs(q)
  {
  }

  /** merkle-v1 is injective on duplicate-free lists of any lengths, the empty list included. */
  lemma RootDeterminesContents(sha: HashFn, a: seq<seq<Byte>>, b: seq<seq<Byte>>)
    requires NoDuplicates(a) && NoDuplicates(b)
    requires CollisionFree(sha, RootInputs(sha, a) + RootInputs(sha, b))
    requires forall x :: x in RootInputs(sha, a) + RootInputs(sha, b) ==> sha(x) != ZERO_HASH
    requires RootOf(sha, HashLeaves(sha, a)) == RootOf(sha, HashLeaves(sha, b))
    ensures a == b
  {
    var preimages := RootInputs(sha, a) + RootInputs(sha, b);
    if |a| > 0 { RootIsHashed(sha, a); }
    if |b| > 0 { RootIsHashed(sha, b); }
    if |a| > 0 && |b| > 0 {
      RootsAgreeIff(sha, a, b);
      DistinctContentsDistinctLeaves(sha, preimages, a);
      DistinctContentsDistinctLeaves(sha, preimages, b);
      FullTreeDeterminesList(HashLeaves(sha, a), HashLeaves(sha, b));
      EqualLeavesEqualContents(sha, preimages, a, b);
    }
  }

  /** Without the duplicate-free condition it fails: `[a, b, c]` and `[a, b, c, c]` share a root. */
  lemma RepeatedTailSharesRoot(sha: HashFn, a: seq<Byte>, b: seq<Byte>, c: seq<Byte>)
    ensures RootOf(sha, HashLeaves(sha, [a, b, c])) == RootOf(sha, HashLeaves(sha, [a, b, c, c]))
  {
    var leaves := HashLeaves(sha, [a, b, c]);
    assert HashLeaves(sha, [a, b, c, c]) == leaves + [leaves[2]];
    OddTailRepeatIsInvisible(Combiner(sha), leaves);
  }
}
