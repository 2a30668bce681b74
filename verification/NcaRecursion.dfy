/** What the aggregation recursion computes, stated on leaves and subtrees alone. */
module NcaRecursion {
  import opened NodeKeys
  import opened NcaPlanner

  /** Leaves are present on both sides of `v`. */
  ghost predicate Splits(nodes: seq<NodeKey>, v: NodeKey) {
    exists x, y :: x in nodes && y in nodes && Under(x, LeftChild(v)) && Under(y, RightChild(v))
  }

  ghost predicate Covers(w: NodeKey, nodes: seq<NodeKey>, c: NodeKey) {
    forall x :: x in nodes && Under(x, c) ==> Under(x, w)
  }

  /** `v` is the nearest common ancestor of the leaves of `nodes` that lie below `c`. */
  ghost predicate NearestOver(v: NodeKey, nodes: seq<NodeKey>, c: NodeKey) {
    && (exists x :: x in nodes && Under(x, c))
    && Covers(v, nodes, c)
    && forall w :: Covers(w, nodes, c) ==> Under(v, w)
  }

  /** Every aggregation comes after the aggregations it consumes. */
  ghost predicate DependenciesFirst(aggs: seq<Aggregation>, height: nat) {
    forall i :: 0 <= i < |aggs| ==>
                  && (aggs[i].left.level == height || EmittedBefore(aggs, i, aggs[i].left))
                  && (aggs[i].right.level == height || EmittedBefore(aggs, i, aggs[i].right))
  }

  ghost predicate EmittedBefore(aggs: seq<Aggregation>, i: nat, k: NodeKey)
    requires i <= |aggs|
  {
    exists j :: 0 <= j < i && aggs[j].nca == k
  }

  // ----- the key of a tree is the nearest common ancestor of its leaves

  lemma LeavesNonempty(t: NcaTree)
    ensures Leaves(t) != []
  {
  }

  lemma {:induction false} KeyIsNearest(t: NcaTree, v: NodeKey, height: nat, c: NodeKey)
    requires WellPlaced(t, v, height)
    requires forall x :: x in Leaves(t) ==> Under(x, c)
    ensures NearestOver(t.key, Leaves(t), c)
  {
    LeavesNonempty(t);
    assert Leaves(t)[0] in Leaves(t);
    AllBelowKey(t, v, height);
    forall w | Covers(w, Leaves(t), c)
      ensures Under(t.key, w)
    {
      if t.Branch? {
        var a := LeafOnLeft(t, v, height);
        var b := LeafOnRight(t, v, height);
        NcaAcrossSides(a, b, t.key);
        NcaIsNearest(a, b);
      } else {
        assert t.key in Leaves(t);
      }
    }
  }

  lemma LeafOnLeft(t: NcaTree, v: NodeKey, height: nat) returns (a: NodeKey)
    requires WellPlaced(t, v, height) && t.Branch?
    ensures a in Leaves(t.l) && a in Leaves(t) && Under(a, LeftChild(t.key)) && InTree(a)
  {
    LeavesNonempty(t.l);
    a := Leaves(t.l)[0];
    AllBelowKey(t.l, LeftChild(t.key), height);
    UnderTransitive(a, t.l.key, LeftChild(t.key));
  }

  lemma LeafOnRight(t: NcaTree, v: NodeKey, height: nat) returns (b: NodeKey)
    requires WellPlaced(t, v, height) && t.Branch?
    ensures b in Leaves(t.r) && b in Leaves(t) && Under(b, RightChild(t.key)) && InTree(b)
  {
    LeavesNonempty(t.r);
    b := Leaves(t.r)[0];
    AllBelowKey(t.r, RightChild(t.key), height);
    UnderTransitive(b, t.r.key, RightChild(t.key));
  }

  /** The leaves of a tree lie on the side of its key their subtree stands on. */
  lemma LeafSides(t: NcaTree, v: NodeKey, height: nat)
    requires WellPlaced(t, v, height) && t.Branch?
    ensures forall x :: x in Leaves(t.l) ==> InTree(x) && Under(x, LeftChild(t.key)) && !Under(x, RightChild(t.key))
    ensures forall x :: x in Leaves(t.r) ==> InTree(x) && Under(x, RightChild(t.key)) && !Under(x, LeftChild(t.key))
  {
    AllBelowKey(t.l, LeftChild(t.key), height);
    AllBelowKey(t.r, RightChild(t.key), height);
    SidesOfBranch(t, v, height);
    forall x
      ensures !(Under(x, LeftChild(t.key)) && Under(x, RightChild(t.key)))
    {
      SidesAreDisjoint(x, t.key);
    }
  }

  // ----- the aggregations are exactly the splitting nodes

  lemma {:induction false} SplitIsEmitted(t: NcaTree, v: NodeKey, height: nat, x: NodeKey, y: NodeKey, w: NodeKey)
    requires WellPlaced(t, v, height)
    requires x in Leaves(t) && y in Leaves(t)
    requires Under(x, LeftChild(w)) && Under(y, RightChild(w))
    ensures exists a :: a in PostOrder(t) && a.nca == w
  {
    if t.Leaf? {
      SidesAreDisjoint(x, w);
    } else {
      LeafSides(t, v, height);
      if x in Leaves(t.l) && y in Leaves(t.l) {
        SplitIsEmitted(t.l, LeftChild(t.key), height, x, y, w);
      } else if x in Leaves(t.r) && y in Leaves(t.r) {
        SplitIsEmitted(t.r, RightChild(t.key), height, x, y, w);
      } else {
        NcaAcrossSides(x, y, w);
        NcaIsNearest(x, y);
        if x in Leaves(t.l) {
          NcaAcrossSides(x, y, t.key);
        } else {
          NcaAcrossSides(y, x, t.key);
          NcaIsNearest(y, x);
          NearestIsUnique(w, t.key, x, y);
        }
        assert AggregationOf(t) in PostOrder(t);
      }
    }
  }

  lemma {:induction false} EmittedSplits(t: NcaTree, v: NodeKey, height: nat, a: Aggregation)
    requires WellPlaced(t, v, height) && a in PostOrder(t)
    ensures Splits(Leaves(t), a.nca)
  {
    if a in PostOrder(t.l) {
      EmittedSplits(t.l, LeftChild(t.key), height, a);
    } else if a in PostOrder(t.r) {
      EmittedSplits(t.r, RightChild(t.key), height, a);
    } else {
      var x := LeafOnLeft(t, v, height);
      var y := LeafOnRight(t, v, height);
    }
  }

  // ----- an aggregation combines the nearest common ancestors of its two sides

  lemma {:induction false} EmittedCombines(t: NcaTree, v: NodeKey, height: nat, a: Aggregation)
    requires WellPlaced(t, v, height) && a in PostOrder(t)
    ensures NearestOver(a.left, Leaves(t), LeftChild(a.nca))
    ensures NearestOver(a.right, Leaves(t), RightChild(a.nca))
  {
    LeafSides(t, v, height);
    if a in PostOrder(t.l) {
      EmittedCombines(t.l, LeftChild(t.key), height, a);
      AllBelowKey(t.l, LeftChild(t.key), height);
      SameBelow(t, v, height, t.l, t.r, a, LeftChild(t.key), RightChild(t.key));
    } else if a in PostOrder(t.r) {
      EmittedCombines(t.r, RightChild(t.key), height, a);
      AllBelowKey(t.r, RightChild(t.key), height);
      SameBelow(t, v, height, t.r, t.l, a, RightChild(t.key), LeftChild(t.key));
    } else {
      KeyIsNearest(t.l, LeftChild(t.key), height, LeftChild(t.key));
      KeyIsNearest(t.r, RightChild(t.key), height, RightChild(t.key));
      NearestRestricts(a.left, Leaves(t.l), Leaves(t), LeftChild(t.key));
      NearestRestricts(a.right, Leaves(t.r), Leaves(t), RightChild(t.key));
    }
  }

  lemma NearestRestricts(v: NodeKey, part: seq<NodeKey>, whole: seq<NodeKey>, c: NodeKey)
    requires NearestOver(v, part, c)
    requires forall x :: Under(x, c) ==> (x in part <==> x in whole)
    ensures NearestOver(v, whole, c)
  {
    var x :| x in part && Under(x, c);
    assert x in whole;
    forall w | Covers(w, whole, c)
      ensures Under(v, w)
    {
      assert Covers(w, part, c);
    }
  }

  /** Below an aggregation of one side only leaves of that side are found. */
  lemma SameBelow(t: NcaTree, v: NodeKey, height: nat, here: NcaTree, there: NcaTree, a: Aggregation, c: NodeKey, d: NodeKey)
    requires WellPlaced(t, v, height) && t.Branch?
    requires forall x :: x in Leaves(t) <==> x in Leaves(here) || x in Leaves(there)
    requires forall x :: x in Leaves(there) ==> !Under(x, c)
    requires Under(a.nca, here.key) && Under(here.key, c)
    requires NearestOver(a.left, Leaves(here), LeftChild(a.nca))
    requires NearestOver(a.right, Leaves(here), RightChild(a.nca))
    ensures NearestOver(a.left, Leaves(t), LeftChild(a.nca))
    ensures NearestOver(a.right, Leaves(t), RightChild(a.nca))
  {
    UnderTransitive(a.nca, here.key, c);
    ChildrenUnder(a.nca);
    forall x | Under(x, LeftChild(a.nca)) || Under(x, RightChild(a.nca))
      ensures Under(x, c)
    {
      if Under(x, LeftChild(a.nca)) {
        UnderTransitive(x, LeftChild(a.nca), a.nca);
      } else {
        UnderTransitive(x, RightChild(a.nca), a.nca);
      }
      UnderTransitive(x, a.nca, c);
    }
    NearestRestricts(a.left, Leaves(here), Leaves(t), LeftChild(a.nca));
    NearestRestricts(a.right, Leaves(here), Leaves(t), RightChild(a.nca));
  }

  // ----- post-order

  lemma {:induction false} LastIsRoot(t: NcaTree)
    requires t.Branch?
    ensures PostOrder(t) != [] && PostOrder(t)[|PostOrder(t)| - 1] == AggregationOf(t)
  {
  }

  lemma DependenciesAppend(lo: seq<Aggregation>, hi: seq<Aggregation>, last: Aggregation, height: nat)
    requires DependenciesFirst(lo, height) && DependenciesFirst(hi, height)
    requires last.left.level == height || EmittedBefore(lo, |lo|, last.left)
    requires last.right.level == height || EmittedBefore(hi, |hi|, last.right)
    ensures DependenciesFirst(lo + hi + [last], height)
  {
    var all := lo + hi + [last];
    forall i, k | 0 <= i <= |lo| && EmittedBefore(lo, i, k)
      ensures EmittedBefore(all, i, k)
    {
      var j :| 0 <= j < i && lo[j].nca == k;
      assert all[j] == lo[j];
    }
    forall i, k | 0 <= i <= |hi| && EmittedBefore(hi, i, k)
      ensures EmittedBefore(all, |lo| + i, k)
    {
      var j :| 0 <= j < i && hi[j].nca == k;
      assert all[|lo| + j] == hi[j];
    }
    forall i | 0 <= i < |all|
      ensures all[i].left.level == height || EmittedBefore(all, i, all[i].left)
      ensures all[i].right.level == height || EmittedBefore(all, i, all[i].right)
    {
      if i < |lo| {
        assert all[i] == lo[i];
      } else if i < |lo| + |hi| {
        assert all[i] == hi[i - |lo|];
      } else {
        assert all[i] == last;
        if last.left.level != height {
          var j :| 0 <= j < |lo| && lo[j].nca == last.left;
          assert all[j] == lo[j];
        }
      }
    }
  }

  lemma {:induction false} PostOrderIsDependencyOrder(t: NcaTree, v: NodeKey, height: nat)
    requires WellPlaced(t, v, height)
    ensures DependenciesFirst(PostOrder(t), height)
  {
    if t.Branch? {
      PostOrderIsDependencyOrder(t.l, LeftChild(t.key), height);
      PostOrderIsDependencyOrder(t.r, RightChild(t.key), height);
      if t.l.Branch? {
        LastIsRoot(t.l);
      }
      if t.r.Branch? {
        LastIsRoot(t.r);
      }
      DependenciesAppend(PostOrder(t.l), PostOrder(t.r), AggregationOf(t), height);
    }
  }

  // ----- the main result

  /** For `n >= 1` distinct sorted leaves below `root` the recursion returns their nearest common ancestor,
      and emits `n - 1` aggregations with distinct keys, dependencies first; a node is aggregated exactly
      when leaves are present on both of its sides, and it then combines the nearest common ancestors of
      those two groups of leaves. */
  lemma RecursionIsExact(nodes: seq<NodeKey>, root: NodeKey, height: nat)
    requires ValidSlice(nodes, root, height) && nodes != []
    ensures var (top, aggs) := BuildPar(nodes, root, height);
            && top.Some? && NearestOver(top.value, nodes, root)
            && |aggs| == |nodes| - 1
            && DistinctNcas(aggs)
            && DependenciesFirst(aggs, height)
            && (aggs != [] ==> aggs[|aggs| - 1].nca == top.value)
            && (forall v :: Splits(nodes, v) <==> exists a :: a in aggs && a.nca == v)
            && (forall a :: a in aggs ==>
                              && NearestOver(a.left, nodes, LeftChild(a.nca))
                              && NearestOver(a.right, nodes, RightChild(a.nca))
                              && InTree(a.nca) && a.nca.level < height)
  {
    var t := TreeOf(nodes, root, height);
    ParIsPostOrder(nodes, root, height);
    TreeIsWellPlaced(nodes, root, height);
    KeyIsNearest(t, root, height, root);
    AggregationCount(t);
    NcasAreDistinct(t, root, height);
    PostOrderIsDependencyOrder(t, root, height);
    AllBelowKey(t, root, height);
    if t.Branch? {
      LastIsRoot(t);
    }
    forall v
      ensures Splits(nodes, v) <==> exists a :: a in PostOrder(t) && a.nca == v
    {
      if Splits(nodes, v) {
        var x, y :| x in nodes && y in nodes && Under(x, LeftChild(v)) && Under(y, RightChild(v));
        SplitIsEmitted(t, root, height, x, y, v);
      }
      if a :| a in PostOrder(t) && a.nca == v {
        EmittedSplits(t, root, height, a);
      }
    }
    forall a | a in PostOrder(t)
      ensures NearestOver(a.left, nodes, LeftChild(a.nca)) && NearestOver(a.right, nodes, RightChild(a.nca))
    {
      EmittedCombines(t, root, height, a);
    }
  }
}
