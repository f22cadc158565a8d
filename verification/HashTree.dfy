/**
 * The shape of the merkle-v1 tree, over any element type and any combining function: layers pair up
 * left to right and an odd layer pairs its last element with itself.
 */
module HashTree {
  /** Where the right child of node `j` of the next layer sits in a layer of `n`: itself, clipped. */
  function RightOf(n: nat, j: nat): nat
    requires 2 * j < n
  {
    if 2 * j + 1 < n then 2 * j + 1 else 2 * j
  }

  function Parent<T>(node: (T, T) -> T, layer: seq<T>, j: nat): T
    requires 2 * j < |layer|
  {
    node(layer[2 * j], layer[RightOf(|layer|, j)])
  }

  function NextLayer<T>(node: (T, T) -> T, layer: seq<T>): (next: seq<T>)
    ensures |next| == (|layer| + 1) / 2
    ensures forall j :: 0 <= j < |next| ==> next[j] == Parent(node, layer, j)
  {
    seq((|layer| + 1) / 2, j requires 0 <= j < (|layer| + 1) / 2 => Parent(node, layer, j))
  }

  function Height(n: nat): nat {
    if n <= 1 then 0 else 1 + Height((n + 1) / 2)
  }

  function Tree<T>(node: (T, T) -> T, leaves: seq<T>): (layers: seq<seq<T>>)
    ensures |layers| == Height(|leaves|) + 1 && layers[0] == leaves
    decreases |leaves|
  {
    if |leaves| <= 1 then [leaves] else [leaves] + Tree(node, NextLayer(node, leaves))
  }

  function Root<T>(node: (T, T) -> T, leaves: seq<T>): T
    requires |leaves| > 0
    decreases |leaves|
  {
    if |leaves| == 1 then leaves[0] else Root(node, NextLayer(node, leaves))
  }

  datatype Step<T> = Step(sibling: T, isLeft: bool)

  /** The element beside element `i` of a layer, self-paired at an odd end. */
  function SiblingOf(n: nat, i: nat): (j: nat)
    requires i < n
    ensures j < n
  {
    if i % 2 != 0 then i - 1 else RightOf(n, i / 2)
  }

  /** The audit path of leaf `i`, bottom up. */
  function AuditPath<T>(node: (T, T) -> T, leaves: seq<T>, i: nat): (path: seq<Step<T>>)
    requires i < |leaves|
    ensures |path| == Height(|leaves|)
    decreases |leaves|
  {
    if |leaves| <= 1 then []
    else
      [Step(leaves[SiblingOf(|leaves|, i)], i % 2 != 0)] + AuditPath(node, NextLayer(node, leaves), i / 2)
  }

  function Combine<T>(node: (T, T) -> T, current: T, step: Step<T>): T {
    if step.isLeft then node(step.sibling, current) else node(current, step.sibling)
  }

  function Climb<T>(node: (T, T) -> T, current: T, path: seq<Step<T>>): T
    decreases |path|
  {
    if path == [] then current else Climb(node, Combine(node, current, path[0]), path[1..])
  }

  lemma {:induction false} LastLayerHoldsTheRoot<T>(node: (T, T) -> T, leaves: seq<T>)
    requires |leaves| > 0
    ensures Tree(node, leaves)[Height(|leaves|)] == [Root(node, leaves)]
    decreases |leaves|
  {
    if |leaves| > 1 {
      LastLayerHoldsTheRoot(node, NextLayer(node, leaves));
    }
  }

  /** Completeness: the audit path of every leaf, of every list, climbs to the root. */
  lemma {:induction false} AuditPathClimbsToRoot<T>(node: (T, T) -> T, leaves: seq<T>, i: nat)
    requires i < |leaves|
    ensures Climb(node, leaves[i], AuditPath(node, leaves, i)) == Root(node, leaves)
    decreases |leaves|
  {
    if |leaves| > 1 {
      var path := AuditPath(node, leaves, i);
      var next := NextLayer(node, leaves);
      assert path[1..] == AuditPath(node, next, i / 2);
      assert Combine(node, leaves[i], path[0]) == next[i / 2];
      AuditPathClimbsToRoot(node, next, i / 2);
    }
  }

  // ── Pairs combined, and collisions among them ────────────────────

  /** No two distinct pairs of `pairs` combine to one value. */
  ghost predicate PairwiseInjective<T(!new)>(node: (T, T) -> T, pairs: set<(T, T)>) {
    forall p, q :: p in pairs && q in pairs && node(p.0, p.1) == node(q.0, q.1) ==> p == q
  }

  ghost function ChildrenOf<T>(layer: seq<T>, j: nat): (T, T)
    requires 2 * j < |layer|
  {
    (layer[2 * j], layer[RightOf(|layer|, j)])
  }

  ghost function LayerPairs<T>(layer: seq<T>): set<(T, T)> {
    set j | 0 <= j < (|layer| + 1) / 2 :: ChildrenOf(layer, j)
  }

  /** Every pair combined while building the tree. */
  ghost function TreePairs<T>(node: (T, T) -> T, leaves: seq<T>): set<(T, T)>
    decreases |leaves|
  {
    if |leaves| <= 1 then {} else LayerPairs(leaves) + TreePairs(node, NextLayer(node, leaves))
  }

  ghost function StepPair<T>(current: T, step: Step<T>): (T, T) {
    if step.isLeft then (step.sibling, current) else (current, step.sibling)
  }

  /** Every pair combined while climbing a path. */
  ghost function ClimbPairs<T>(node: (T, T) -> T, current: T, path: seq<Step<T>>): set<(T, T)>
    decreases |path|
  {
    if path == [] then {}
    else {StepPair(current, path[0])} + ClimbPairs(node, Combine(node, current, path[0]), path[1..])
  }

  lemma ChildrenAreCombined<T>(node: (T, T) -> T, layer: seq<T>, j: nat)
    requires |layer| > 1 && 2 * j < |layer|
    ensures ChildrenOf(layer, j) in LayerPairs(layer) && ChildrenOf(layer, j) in TreePairs(node, layer)
  {
  }

  // ── Soundness: an accepted path names its leaf ───────────────────

  /** The leaf a full-height path of turns leads to; a right turn off an odd end stays on the last element. */
  function Slot(n: nat, rights: seq<bool>): (i: nat)
    requires n > 0
    ensures i < n
    decreases |rights|
  {
    if rights == [] then 0
    else if rights[0] then RightOf(n, Slot((n + 1) / 2, rights[1..]))
    else 2 * Slot((n + 1) / 2, rights[1..])
  }

  function Turns<T>(path: seq<Step<T>>): (rights: seq<bool>)
    ensures |rights| == |path|
  {
    if path == [] then [] else [path[0].isLeft] + Turns(path[1..])
  }

  /**
   * A path with one step per layer that climbs to the root starts at the very leaf its turns
   * spell, unless the climb or the tree holds a collision.
   */
  lemma {:induction false} ClimbStartsAtItsSlot<T(!new)>(node: (T, T) -> T, pairs: set<(T, T)>, leaves: seq<T>,
                                                  current: T, path: seq<Step<T>>)
    requires |leaves| > 0 && |path| == Height(|leaves|)
    requires TreePairs(node, leaves) <= pairs && ClimbPairs(node, current, path) <= pairs
    requires PairwiseInjective(node, pairs)
    requires Climb(node, current, path) == Root(node, leaves)
    ensures current == leaves[Slot(|leaves|, Turns(path))]
    decreases |path|
  {
    if |leaves| > 1 {
      var next := NextLayer(node, leaves);
      assert Turns(path)[1..] == Turns(path[1..]);
      ClimbStartsAtItsSlot(node, pairs, next, Combine(node, current, path[0]), path[1..]);
      var j := Slot(|next|, Turns(path[1..]));
      ChildrenAreCombined(node, leaves, j);
      assert StepPair(current, path[0]) in pairs && ChildrenOf(leaves, j) in pairs;
    }
  }

  // ── What a root commits to ───────────────────────────────────────

  /** `d` is the top of exactly `k` combining levels over members of `bottom`. */
  ghost predicate AtLevel<T(!new)>(node: (T, T) -> T, pairs: set<(T, T)>, bottom: set<T>, k: nat, d: T) {
    if k == 0 then d in bottom
    else exists p :: p in pairs && d == node(p.0, p.1) && AtLevel(node, pairs, bottom, k - 1, p.0)
  }

  /** Levels cannot be confused: no pair combines to a bottom element. */
  ghost predicate Separated<T(!new)>(node: (T, T) -> T, pairs: set<(T, T)>, bottom: set<T>) {
    && PairwiseInjective(node, pairs)
    && forall p :: p in pairs ==> node(p.0, p.1) !in bottom
  }

  ghost predicate LayerAtLevel<T(!new)>(node: (T, T) -> T, pairs: set<(T, T)>, bottom: set<T>, k: nat, layer: seq<T>) {
    forall i :: 0 <= i < |layer| ==> AtLevel(node, pairs, bottom, k, layer[i])
  }

  lemma {:induction false} LevelIsUnique<T(!new)>(node: (T, T) -> T, pairs: set<(T, T)>, bottom: set<T>, j: nat, k: nat, d: T)
    requires Separated(node, pairs, bottom)
    ensures AtLevel(node, pairs, bottom, j, d) && AtLevel(node, pairs, bottom, k, d) ==> j == k
    decreases j
  {
    if j > 0 && k > 0 && AtLevel(node, pairs, bottom, j, d) && AtLevel(node, pairs, bottom, k, d) {
      var p :| p in pairs && d == node(p.0, p.1) && AtLevel(node, pairs, bottom, j - 1, p.0);
      var q :| q in pairs && d == node(q.0, q.1) && AtLevel(node, pairs, bottom, k - 1, q.0);
      assert p == q;
      LevelIsUnique(node, pairs, bottom, j - 1, k - 1, p.0);
    }
  }

  lemma NextLayerLevel<T(!new)>(node: (T, T) -> T, pairs: set<(T, T)>, bottom: set<T>, k: nat, layer: seq<T>)
    requires LayerPairs(layer) <= pairs && LayerAtLevel(node, pairs, bottom, k, layer)
    ensures LayerAtLevel(node, pairs, bottom, k + 1, NextLayer(node, layer))
  {
    var next := NextLayer(node, layer);
    forall j | 0 <= j < |next| ensures AtLevel(node, pairs, bottom, k + 1, next[j]) {
      var p := ChildrenOf(layer, j);
      assert p in LayerPairs(layer);
      assert AtLevel(node, pairs, bottom, k, layer[2 * j]);
      assert next[j] == Parent(node, layer, j) == node(p.0, p.1);
    }
  }

  lemma {:induction false} RootLevel<T(!new)>(node: (T, T) -> T, pairs: set<(T, T)>, bottom: set<T>, k: nat, layer: seq<T>, d: T, i: nat)
    requires |layer| > 0 && TreePairs(node, layer) <= pairs && LayerAtLevel(node, pairs, bottom, k, layer)
    requires d == Root(node, layer) && i == k + Height(|layer|)
    ensures AtLevel(node, pairs, bottom, i, d)
    decreases |layer|
  {
    if |layer| > 1 {
      NextLayerLevel(node, pairs, bottom, k, layer);
      RootLevel(node, pairs, bottom, k + 1, NextLayer(node, layer), d, i);
    } else {
      assert AtLevel(node, pairs, bottom, k, layer[0]);
    }
  }

  /** Two lists that fill the same full tree: same height, same leaf at the end of every path of turns. */
  ghost predicate SameFullTree<T>(a: seq<T>, b: seq<T>)
    requires |a| > 0 && |b| > 0
  {
    && Height(|a|) == Height(|b|)
    && forall rights: seq<bool> :: |rights| == Height(|a|) ==> a[Slot(|a|, rights)] == b[Slot(|b|, rights)]
  }

  lemma SameHeight<T(!new)>(node: (T, T) -> T, pairs: set<(T, T)>, bottom: set<T>, k: nat, a: seq<T>, b: seq<T>)
    requires |a| > 0 && |b| > 0 && Separated(node, pairs, bottom)
    requires TreePairs(node, a) <= pairs && LayerAtLevel(node, pairs, bottom, k, a)
    requires TreePairs(node, b) <= pairs && LayerAtLevel(node, pairs, bottom, k, b)
    requires Root(node, a) == Root(node, b)
    ensures Height(|a|) == Height(|b|)
  {
    OneLevel(node, pairs, bottom, k, a, b, Root(node, a), k + Height(|a|), k + Height(|b|));
  }

  lemma OneLevel<T(!new)>(node: (T, T) -> T, pairs: set<(T, T)>, bottom: set<T>, k: nat, a: seq<T>, b: seq<T>, d: T, i: nat, j: nat)
    requires |a| > 0 && |b| > 0 && Separated(node, pairs, bottom)
    requires TreePairs(node, a) <= pairs && LayerAtLevel(node, pairs, bottom, k, a) && d == Root(node, a) && i == k + Height(|a|)
    requires TreePairs(node, b) <= pairs && LayerAtLevel(node, pairs, bottom, k, b) && d == Root(node, b) && j == k + Height(|b|)
    ensures i == j
  {
    RootLevel(node, pairs, bottom, k, a, d, i);
    RootLevel(node, pairs, bottom, k, b, d, j);
    LevelIsUnique(node, pairs, bottom, i, j, d);
  }

  lemma {:induction false} EqualRootsFillTheSameTree<T(!new)>(node: (T, T) -> T, pairs: set<(T, T)>, bottom: set<T>,
                                                       k: nat, a: seq<T>, b: seq<T>)
    requires |a| > 0 && |b| > 0 && Separated(node, pairs, bottom)
    requires TreePairs(node, a) <= pairs && LayerAtLevel(node, pairs, bottom, k, a)
    requires TreePairs(node, b) <= pairs && LayerAtLevel(node, pairs, bottom, k, b)
    requires Root(node, a) == Root(node, b)
    ensures SameFullTree(a, b)
    decreases |a|
  {
    SameHeight(node, pairs, bottom, k, a, b);
    if |a| > 1 {
      var na, nb := NextLayer(node, a), NextLayer(node, b);
      NextLayerLevel(node, pairs, bottom, k, a);
      NextLayerLevel(node, pairs, bottom, k, b);
      EqualRootsFillTheSameTree(node, pairs, bottom, k + 1, na, nb);
      forall rights: seq<bool> | |rights| == Height(|a|) ensures a[Slot(|a|, rights)] == b[Slot(|b|, rights)] {
        SameAtSlot(node, pairs, a, b, rights);
      }
    }
  }

  lemma SameAtSlot<T(!new)>(node: (T, T) -> T, pairs: set<(T, T)>, a: seq<T>, b: seq<T>, rights: seq<bool>)
    requires |a| > 1 && |b| > 1 && PairwiseInjective(node, pairs)
    requires TreePairs(node, a) <= pairs && TreePairs(node, b) <= pairs
    requires |rights| == Height(|a|) == Height(|b|) && SameFullTree(NextLayer(node, a), NextLayer(node, b))
    ensures a[Slot(|a|, rights)] == b[Slot(|b|, rights)]
  {
    var na, nb := NextLayer(node, a), NextLayer(node, b);
    var i, j := Slot(|na|, rights[1..]), Slot(|nb|, rights[1..]);
    assert na[i] == nb[j];
    SameParentSameChildren(node, pairs, a, i, b, j);
  }

  lemma SameParentSameChildren<T(!new)>(node: (T, T) -> T, pairs: set<(T, T)>, a: seq<T>, i: nat, b: seq<T>, j: nat)
    requires |a| > 1 && |b| > 1 && 2 * i < |a| && 2 * j < |b| && PairwiseInjective(node, pairs)
    requires TreePairs(node, a) <= pairs && TreePairs(node, b) <= pairs
    requires Parent(node, a, i) == Parent(node, b, j)
    ensures a[2 * i] == b[2 * j] && a[RightOf(|a|, i)] == b[RightOf(|b|, j)]
  {
    ChildrenAreCombined(node, a, i);
    ChildrenAreCombined(node, b, j);
    assert ChildrenOf(a, i) == ChildrenOf(b, j);
  }

  lemma {:induction false} SameFullTreeSameRoot<T>(node: (T, T) -> T, a: seq<T>, b: seq<T>)
    requires |a| > 0 && |b| > 0 && SameFullTree(a, b)
    ensures Root(node, a) == Root(node, b)
    decreases |a|
  {
    if |a| > 1 {
      var na, nb := NextLayer(node, a), NextLayer(node, b);
      forall rights: seq<bool> | |rights| == Height(|na|) ensures na[Slot(|na|, rights)] == nb[Slot(|nb|, rights)] {
        var l, r := [false] + rights, [true] + rights;
        assert l[1..] == rights && r[1..] == rights;
        assert a[Slot(|a|, l)] == b[Slot(|b|, l)];
        assert a[Slot(|a|, r)] == b[Slot(|b|, r)];
      }
      SameFullTreeSameRoot(node, na, nb);
    } else {
      assert a[Slot(|a|, [])] == b[Slot(|b|, [])];
    }
  }

  /** Exactly when two lists of bottom elements share a root. */
  lemma RootsAgreeExactlyWhen<T(!new)>(node: (T, T) -> T, pairs: set<(T, T)>, bottom: set<T>, a: seq<T>, b: seq<T>)
    requires |a| > 0 && |b| > 0 && Separated(node, pairs, bottom)
    requires TreePairs(node, a) <= pairs && TreePairs(node, b) <= pairs
    requires (forall x :: x in a ==> x in bottom) && (forall x :: x in b ==> x in bottom)
    ensures Root(node, a) == Root(node, b) <==> SameFullTree(a, b)
  {
    if SameFullTree(a, b) {
      SameFullTreeSameRoot(node, a, b);
    } else if Root(node, a) == Root(node, b) {
      EqualRootsFillTheSameTree(node, pairs, bottom, 0, a, b);
    }
  }

  // ── Lists without duplicates ─────────────────────────────────────

  ghost predicate NoDuplicates<T>(s: seq<T>) {
    forall i, j :: 0 <= i < j < |s| ==> s[i] != s[j]
  }

  /** The turns that lead to leaf `i`. */
  function TurnsTo(n: nat, i: nat): (rights: seq<bool>)
    requires i < n
    ensures |rights| == Height(n) && Slot(n, rights) == i
    decreases n
  {
    if n <= 1 then []
    else
      var rest := TurnsTo((n + 1) / 2, i / 2);
      assert ([i % 2 != 0] + rest)[1..] == rest;
      [i % 2 != 0] + rest
  }

  /** The turns are the low bits of the index, so lists of one height share them. */
  lemma {:induction false} TurnsDependOnHeight(n: nat, m: nat, i: nat)
    requires i < n && i < m && Height(n) == Height(m)
    ensures TurnsTo(n, i) == TurnsTo(m, i)
    decreases n
  {
    if n > 1 {
      TurnsDependOnHeight((n + 1) / 2, (m + 1) / 2, i / 2);
    }
  }

  lemma SameSlotSameLeaf<T>(a: seq<T>, b: seq<T>, i: nat)
    requires |a| > 0 && |b| > 0 && SameFullTree(a, b) && i < |a| && i < |b|
    ensures a[i] == b[i]
  {
    TurnsDependOnHeight(|a|, |b|, i);
    assert a[Slot(|a|, TurnsTo(|a|, i))] == b[Slot(|b|, TurnsTo(|a|, i))];
  }

  /** Of two lists filling one tree the longer repeats a leaf: its last path ends early in the shorter. */
  lemma LongerListRepeats<T>(a: seq<T>, b: seq<T>)
    requires 0 < |a| < |b| && SameFullTree(a, b)
    ensures !NoDuplicates(b)
  {
    var i := Slot(|a|, TurnsTo(|b|, |b| - 1));
    SameSlotSameLeaf(a, b, i);
    assert a[i] == b[|b| - 1];
    assert b[i] == b[|b| - 1];
  }

  /** Without duplicates the self-pairing cannot hide: the full tree determines the list. */
  lemma FullTreeDeterminesList<T>(a: seq<T>, b: seq<T>)
    requires |a| > 0 && |b| > 0 && NoDuplicates(a) && NoDuplicates(b) && SameFullTree(a, b)
    ensures a == b
  {
    forall i | 0 <= i < |a| && i < |b| ensures a[i] == b[i] {
      SameSlotSameLeaf(a, b, i);
    }
    if |a| < |b| {
      LongerListRepeats(a, b);
    } else if |b| < |a| {
      LongerListRepeats(b, a);
    }
  }

  lemma OddTailRepeatKeepsNextLayer<T>(node: (T, T) -> T, leaves: seq<T>)
    requires |leaves| > 1 && |leaves| % 2 == 1
    ensures NextLayer(node, leaves + [leaves[|leaves| - 1]]) == NextLayer(node, leaves)
  {
    var longer := leaves + [leaves[|leaves| - 1]];
    forall j | 0 <= j < (|leaves| + 1) / 2 ensures Parent(node, longer, j) == Parent(node, leaves, j) {
      assert longer[2 * j] == leaves[2 * j];
    }
  }

  /** Duplicates are where injectivity ends: repeating the last leaf of an odd list keeps its root. */
  lemma OddTailRepeatIsInvisible<T>(node: (T, T) -> T, leaves: seq<T>)
    requires |leaves| > 1 && |leaves| % 2 == 1
    ensures Root(node, leaves + [leaves[|leaves| - 1]]) == Root(node, leaves)
  {
    OddTailRepeatKeepsNextLayer(node, leaves);
  }
}
