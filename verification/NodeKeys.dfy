/** Keys of nodes in a binary Merkle tree, and their nearest common ancestor
    (parth_core/src/data/hash/merkle_node_key.rs).

    A key is a level (0 at the root) and an index on that level.  Indices are unbounded here; every key
    this model computes satisfies `InTree`, so on trees of height at most 64 none of the source's
    shifts can leave u64. */
module NodeKeys {
  import opened Powers

  datatype NodeKey = NodeKey(level: nat, index: nat)

  /** `x << n` without overflow. */
  function ShiftLeft(x: nat, n: nat): (r: nat) {
    if n == 0 then x else 2 * ShiftLeft(x, n - 1)
  }

  /** `x >> n`. */
  function ShiftRight(x: nat, n: nat): (r: nat) {
    if n == 0 then x else ShiftRight(x / 2, n - 1)
  }

  predicate InTree(k: NodeKey) {
    k.index < Pow2(k.level)
  }

  function Root(): NodeKey {
    NodeKey(0, 0)
  }

  function Parent(k: NodeKey): NodeKey {
    if k.level == 0 then k else NodeKey(k.level - 1, k.index / 2)
  }

  function LeftChild(k: NodeKey): NodeKey {
    NodeKey(k.level + 1, 2 * k.index)
  }

  function RightChild(k: NodeKey): NodeKey {
    NodeKey(k.level + 1, 2 * k.index + 1)
  }

  /** The leftmost descendant of `k` on level `height`; `k` itself when it is not above that level. */
  function FirstLeafChild(k: NodeKey, height: nat): NodeKey {
    if k.level >= height then k else NodeKey(height, ShiftLeft(k.index, height - k.level))
  }

  function NthAncestor(k: NodeKey, up: nat): NodeKey {
    if up >= k.level then Root() else NodeKey(k.level - up, ShiftRight(k.index, up))
  }

  /** `k` lies in the subtree rooted at `v` (every node lies in its own subtree). */
  predicate Under(k: NodeKey, v: NodeKey)
    decreases k.level
  {
    k == v || (k.level > v.level && Under(Parent(k), v))
  }

  /** `v` is the deepest node that has both `a` and `b` in its subtree, and every other common ancestor
      lies above it. */
  ghost predicate IsNearestCommonAncestor(v: NodeKey, a: NodeKey, b: NodeKey) {
    && Under(a, v) && Under(b, v)
    && forall w :: Under(a, w) && Under(b, w) ==> Under(v, w)
  }

  // ----- the subtree relation

  lemma {:induction false} UnderTransitive(a: NodeKey, b: NodeKey, c: NodeKey)
    requires Under(a, b) && Under(b, c)
    ensures Under(a, c)
    decreases a.level
  {
    if a != b {
      UnderTransitive(Parent(a), b, c);
      UnderLevel(b, c);
    }
  }

  lemma {:induction false} UnderLevel(a: NodeKey, b: NodeKey)
    requires Under(a, b)
    ensures a.level >= b.level
    ensures a.level == b.level ==> a == b
    ensures InTree(a) ==> InTree(b)
    decreases a.level
  {
    if a != b {
      UnderLevel(Parent(a), b);
    }
  }

  /** Two ancestors of one node lie on one path. */
  lemma {:induction false} AncestorsAreOrdered(k: NodeKey, v: NodeKey, w: NodeKey)
    requires Under(k, v) && Under(k, w) && v.level >= w.level
    ensures Under(v, w)
    decreases k.level
  {
    if k != v {
      if k == w {
        UnderLevel(k, v);
      } else {
        AncestorsAreOrdered(Parent(k), v, w);
      }
    }
  }

  lemma {:induction false} ShiftOfDouble(x: nat, n: nat)
    ensures ShiftLeft(2 * x, n) == ShiftLeft(x, n + 1)
  {
    if n > 0 {
      ShiftOfDouble(x, n - 1);
    }
  }

  /** Subtrees are contiguous ranges of indices on every level. */
  lemma {:induction false} UnderIsInterval(k: NodeKey, v: NodeKey)
    requires k.level >= v.level
    ensures var d := k.level - v.level;
            Under(k, v) <==> ShiftLeft(v.index, d) <= k.index < ShiftLeft(v.index + 1, d)
    decreases k.level
  {
    if k.level > v.level {
      UnderIsInterval(Parent(k), v);
    }
  }

  /** Below an inner node, exactly the leaves left of the right child's first leaf lie on the left. */
  lemma {:induction false} SplitBySide(k: NodeKey, v: NodeKey)
    requires Under(k, v) && k.level > v.level
    ensures var split := FirstLeafChild(RightChild(v), k.level).index;
            && (Under(k, LeftChild(v)) <==> k.index < split)
            && (Under(k, RightChild(v)) <==> split <= k.index)
  {
    UnderIsInterval(k, v);
    UnderIsInterval(k, LeftChild(v));
    UnderIsInterval(k, RightChild(v));
    ShiftOfDouble(v.index, k.level - v.level - 1);
    ShiftOfDouble(v.index + 1, k.level - v.level - 1);
  }

  lemma ChildrenUnder(v: NodeKey)
    ensures Under(LeftChild(v), v) && Under(RightChild(v), v)
    ensures Parent(LeftChild(v)) == v && Parent(RightChild(v)) == v
    ensures InTree(v) ==> InTree(LeftChild(v)) && InTree(RightChild(v))
  {
  }

  lemma {:induction false} AllUnderRoot(k: NodeKey)
    requires InTree(k)
    ensures Under(k, Root())
    decreases k.level
  {
    if k.level > 0 {
      AllUnderRoot(Parent(k));
    }
  }

  /** The two child subtrees share no node. */
  lemma SidesAreDisjoint(k: NodeKey, v: NodeKey)
    ensures !(Under(k, LeftChild(v)) && Under(k, RightChild(v)))
  {
    if Under(k, LeftChild(v)) && Under(k, RightChild(v)) {
      AncestorsAreOrdered(k, LeftChild(v), RightChild(v));
      UnderLevel(LeftChild(v), RightChild(v));
    }
  }

  // ----- climbing

  lemma {:induction false} NthAncestorIsAbove(k: NodeKey, up: nat)
    requires InTree(k)
    ensures Under(k, NthAncestor(k, up))
    ensures NthAncestor(k, up).level == if up < k.level then k.level - up else 0
    ensures InTree(NthAncestor(k, up))
    decreases up
  {
    if up >= k.level {
      AllUnderRoot(k);
    } else if up > 0 {
      assert NthAncestor(k, up) == NthAncestor(Parent(k), up - 1);
      NthAncestorIsAbove(Parent(k), up - 1);
    }
    UnderLevel(k, NthAncestor(k, up));
  }

  /** Climbs from two nodes of one level until the paths meet. */
  function Meet(a: NodeKey, b: NodeKey): (v: NodeKey)
    requires a.level == b.level && InTree(a) && InTree(b)
    decreases a.level
  {
    if a == b then a else Meet(Parent(a), Parent(b))
  }

  function Nca(a: NodeKey, b: NodeKey): (v: NodeKey)
    requires InTree(a) && InTree(b)
  {
    var start := if b.level < a.level then b.level else a.level;
    NthAncestorIsAbove(a, a.level - start);
    NthAncestorIsAbove(b, b.level - start);
    Meet(NthAncestor(a, a.level - start), NthAncestor(b, b.level - start))
  }

  lemma {:induction false} MeetIsNearest(a: NodeKey, b: NodeKey)
    requires a.level == b.level && InTree(a) && InTree(b)
    ensures IsNearestCommonAncestor(Meet(a, b), a, b)
    ensures InTree(Meet(a, b))
    decreases a.level
  {
    if a != b {
      MeetIsNearest(Parent(a), Parent(b));
      var v := Meet(a, b);
      UnderLevel(Parent(a), v);
      forall w | Under(a, w) && Under(b, w)
        ensures Under(v, w)
      {
        UnderLevel(a, w);
        UnderLevel(b, w);
      }
    }
  }

  /** The climbing search finds the nearest common ancestor of any two nodes of the tree. */
  lemma NcaIsNearest(a: NodeKey, b: NodeKey)
    requires InTree(a) && InTree(b)
    ensures IsNearestCommonAncestor(Nca(a, b), a, b)
    ensures InTree(Nca(a, b))
  {
    var start := if b.level < a.level then b.level else a.level;
    var a', b' := NthAncestor(a, a.level - start), NthAncestor(b, b.level - start);
    NthAncestorIsAbove(a, a.level - start);
    NthAncestorIsAbove(b, b.level - start);
    MeetIsNearest(a', b');
    UnderTransitive(a, a', Meet(a', b'));
    UnderTransitive(b, b', Meet(a', b'));
    forall w | Under(a, w) && Under(b, w)
      ensures Under(Nca(a, b), w)
    {
      UnderLevel(a, w);
      UnderLevel(b, w);
      AncestorsAreOrdered(a, a', w);
      AncestorsAreOrdered(b, b', w);
    }
  }

  lemma NearestIsUnique(v: NodeKey, w: NodeKey, a: NodeKey, b: NodeKey)
    requires IsNearestCommonAncestor(v, a, b) && IsNearestCommonAncestor(w, a, b)
    ensures v == w
  {
    UnderLevel(v, w);
    UnderLevel(w, v);
  }

  /** Nodes on the two sides of `v` have `v` as their nearest common ancestor. */
  lemma NcaAcrossSides(a: NodeKey, b: NodeKey, v: NodeKey)
    requires InTree(a) && InTree(b)
    requires Under(a, LeftChild(v)) && Under(b, RightChild(v))
    ensures Nca(a, b) == v
  {
    ChildrenUnder(v);
    UnderTransitive(a, LeftChild(v), v);
    UnderTransitive(b, RightChild(v), v);
    forall w | Under(a, w) && Under(b, w)
      ensures Under(v, w)
    {
      if w.level > v.level {
        AncestorsAreOrdered(a, w, LeftChild(v));
        AncestorsAreOrdered(b, w, RightChild(v));
        SidesAreDisjoint(w, v);
      } else {
        AncestorsAreOrdered(a, v, w);
      }
    }
    NcaIsNearest(a, b);
    NearestIsUnique(Nca(a, b), v, a, b);
  }

  /** The loop of `find_nearest_common_ancestor`. */
  method FindNearestCommonAncestor(self: NodeKey, other: NodeKey) returns (v: NodeKey)
    requires InTree(self) && InTree(other)
    ensures IsNearestCommonAncestor(v, self, other)
    ensures v == Nca(self, other)
  {
    var start := if self.level < other.level then self.level else other.level;
    NthAncestorIsAbove(self, self.level - start);
    NthAncestorIsAbove(other, other.level - start);
    v := NthAncestor(self, self.level - start);
    var w := NthAncestor(other, other.level - start);
    while w != v
      invariant v.level == w.level && InTree(v) && InTree(w)
      invariant Meet(v, w) == Nca(self, other)
      decreases v.level
    {
      v, w := Parent(v), Parent(w);
    }
    NcaIsNearest(self, other);
  }
}
