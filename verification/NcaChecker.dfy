/** When the height groups (parth_core/benches/nca_group_gen.rs) pass the repository's own checker
    (parth_core/src/data/hash/merkle_node_key.rs), which wants every inner part in the group directly below. */
module NcaChecker {
  import opened Powers
  import opened NodeKeys
  import opened NcaPlanner
  import opened NcaRecursion
  import opened NcaGroups
  import opened NcaSchedules
  import opened NcaChains

  // ----- where a key stands

  lemma {:induction false} BucketMembers(t: NcaTree, h: nat, a: Aggregation)
    requires a in Bucket(t, h)
    ensures a in PostOrder(t) && 1 <= h <= Height(t)
  {
    if a in Bucket(t.l, h) {
      BucketMembers(t.l, h, a);
    } else if a in Bucket(t.r, h) {
      BucketMembers(t.r, h, a);
    }
  }

  /** A member of a bucket lies in the left subtree, in the right one, or is the root of its height. */
  lemma BucketSides(t: NcaTree, v: NodeKey, height: nat, h: nat, a: Aggregation)
    requires WellPlaced(t, v, height) && t.Branch? && a in Bucket(t, h)
    ensures a in Bucket(t.l, h) ==> Under(a.nca, t.l.key) && Under(a.left, t.l.key) && Under(a.right, t.l.key)
    ensures a in Bucket(t.r, h) ==> Under(a.nca, t.r.key) && Under(a.left, t.r.key) && Under(a.right, t.r.key)
    ensures a in Bucket(t.l, h) || a in Bucket(t.r, h) || (a == AggregationOf(t) && h == Height(t))
  {
    if a in Bucket(t.l, h) {
      BucketMembers(t.l, h, a);
      PartsBelowKey(t.l, LeftChild(t.key), height, a);
    }
    if a in Bucket(t.r, h) {
      BucketMembers(t.r, h, a);
      PartsBelowKey(t.r, RightChild(t.key), height, a);
    }
  }

  lemma LeftProduces(t: NcaTree, v: NodeKey, height: nat, h: nat, k: NodeKey)
    requires WellPlaced(t, v, height) && t.Branch? && Under(k, t.l.key)
    ensures Produces(Bucket(t, h), k) <==> Produces(Bucket(t.l, h), k)
  {
    if Produces(Bucket(t, h), k) {
      var a :| a in Bucket(t, h) && a.nca == k;
      BucketSides(t, v, height, h, a);
      SidesOfBranch(t, v, height);
      assert a in Bucket(t.l, h);
    }
  }

  lemma RightProduces(t: NcaTree, v: NodeKey, height: nat, h: nat, k: NodeKey)
    requires WellPlaced(t, v, height) && t.Branch? && Under(k, t.r.key)
    ensures Produces(Bucket(t, h), k) <==> Produces(Bucket(t.r, h), k)
  {
    if Produces(Bucket(t, h), k) {
      var a :| a in Bucket(t, h) && a.nca == k;
      BucketSides(t, v, height, h, a);
      SidesOfBranch(t, v, height);
      assert a in Bucket(t.r, h);
    }
  }

  /** The key of an inner node is produced in the bucket of its height and in no other. */
  lemma KeyBucket(t: NcaTree, v: NodeKey, height: nat, h: nat)
    requires WellPlaced(t, v, height) && t.Branch?
    ensures Produces(Bucket(t, h), t.key) <==> h == Height(t)
  {
    if Produces(Bucket(t, h), t.key) {
      var a :| a in Bucket(t, h) && a.nca == t.key;
      BucketSides(t, v, height, h, a);
      SidesOfBranch(t, v, height);
    }
    if h == Height(t) {
      assert AggregationOf(t) in Bucket(t, h);
    }
  }

  // ----- parts directly below

  /** An inner part is produced one below `h`. */
  ghost predicate OneBelow(t: NcaTree, h: nat, k: NodeKey, height: nat) {
    k.level != height ==> h >= 1 && Produces(Bucket(t, h - 1), k)
  }

  lemma LeftOneBelow(t: NcaTree, v: NodeKey, height: nat, h: nat, k: NodeKey)
    requires WellPlaced(t, v, height) && t.Branch? && Under(k, t.l.key)
    ensures OneBelow(t, h, k, height) <==> OneBelow(t.l, h, k, height)
  {
    if h >= 1 {
      LeftProduces(t, v, height, h - 1, k);
    }
  }

  lemma RightOneBelow(t: NcaTree, v: NodeKey, height: nat, h: nat, k: NodeKey)
    requires WellPlaced(t, v, height) && t.Branch? && Under(k, t.r.key)
    ensures OneBelow(t, h, k, height) <==> OneBelow(t.r, h, k, height)
  {
    if h >= 1 {
      RightProduces(t, v, height, h - 1, k);
    }
  }

  lemma KeyOneBelow(t: NcaTree, v: NodeKey, height: nat, h: nat)
    requires WellPlaced(t, v, height) && h >= 1
    ensures OneBelow(t, h, t.key, height) <==> (t.Branch? ==> Height(t) + 1 == h)
  {
    KeyLevel(t, v, height);
    if t.Branch? {
      KeyBucket(t, v, height, h - 1);
    }
  }

  lemma RootParts(t: NcaTree, v: NodeKey, height: nat)
    requires WellPlaced(t, v, height) && t.Branch?
    ensures OneBelow(t, Height(t), t.l.key, height) <==> (t.l.Branch? ==> Height(t.l) + 1 == Height(t))
    ensures OneBelow(t, Height(t), t.r.key, height) <==> (t.r.Branch? ==> Height(t.r) + 1 == Height(t))
  {
    LeftOneBelow(t, v, height, Height(t), t.l.key);
    KeyOneBelow(t.l, LeftChild(t.key), height, Height(t));
    RightOneBelow(t, v, height, Height(t), t.r.key);
    KeyOneBelow(t.r, RightChild(t.key), height, Height(t));
  }

  /** In an even tree every part is made one below. */
  lemma {:induction false} EvenIsOneBelow(t: NcaTree, v: NodeKey, height: nat, h: nat, a: Aggregation)
    requires WellPlaced(t, v, height) && EvenHeights(t) && a in Bucket(t, h)
    ensures OneBelow(t, h, a.left, height) && OneBelow(t, h, a.right, height)
    decreases t
  {
    BucketSides(t, v, height, h, a);
    if a in Bucket(t.l, h) {
      EvenIsOneBelow(t.l, LeftChild(t.key), height, h, a);
      LeftOneBelow(t, v, height, h, a.left);
      LeftOneBelow(t, v, height, h, a.right);
    } else if a in Bucket(t.r, h) {
      EvenIsOneBelow(t.r, RightChild(t.key), height, h, a);
      RightOneBelow(t, v, height, h, a.left);
      RightOneBelow(t, v, height, h, a.right);
    } else {
      RootParts(t, v, height);
    }
  }

  /** In any other tree some part is not. */
  lemma {:induction false} UnevenIsNotOneBelow(t: NcaTree, v: NodeKey, height: nat) returns (h: nat, a: Aggregation)
    requires WellPlaced(t, v, height) && !EvenHeights(t)
    ensures a in Bucket(t, h)
    ensures !(OneBelow(t, h, a.left, height) && OneBelow(t, h, a.right, height))
    decreases t
  {
    if !EvenHeights(t.l) {
      h, a := UnevenIsNotOneBelow(t.l, LeftChild(t.key), height);
      BucketSides(t, v, height, h, a);
      LeftOneBelow(t, v, height, h, a.left);
      LeftOneBelow(t, v, height, h, a.right);
    } else if !EvenHeights(t.r) {
      h, a := UnevenIsNotOneBelow(t.r, RightChild(t.key), height);
      BucketSides(t, v, height, h, a);
      RightOneBelow(t, v, height, h, a.left);
      RightOneBelow(t, v, height, h, a.right);
    } else {
      RootParts(t, v, height);
      h, a := Height(t), AggregationOf(t);
    }
  }

  // ----- the checker

  lemma EmptyAbove(t: NcaTree, h: nat)
    requires h > Height(t)
    ensures Bucket(t, h) == []
  {
    if Bucket(t, h) != [] {
      BucketMembers(t, h, Bucket(t, h)[0]);
    }
  }

  lemma {:induction false} BucketIsDistinct(t: NcaTree, v: NodeKey, height: nat, h: nat)
    requires WellPlaced(t, v, height)
    ensures DistinctParts(Bucket(t, h))
    decreases t
  {
    if t.Branch? {
      if h == Height(t) {
        EmptyAbove(t.l, h);
        EmptyAbove(t.r, h);
      } else {
        BucketIsDistinct(t.l, LeftChild(t.key), height, h);
        BucketIsDistinct(t.r, RightChild(t.key), height, h);
        forall a | a in Bucket(t.l, h) || a in Bucket(t.r, h) { BucketSides(t, v, height, h, a); }
        SidesOfBranch(t, v, height);
        DistinctConcat(Bucket(t.l, h), Bucket(t.r, h), t.l.key, t.r.key);
      }
    }
  }

  /** The parts of the lowest bucket are all leaves. */
  lemma LowestBucket(t: NcaTree, v: NodeKey, height: nat, a: Aggregation)
    requires WellPlaced(t, v, height) && a in Bucket(t, 1)
    ensures a.left.level == height && a.right.level == height
  {
    ChildInLowerBucket(t, v, height, 1, a);
  }

  lemma CheckedGroup(t: NcaTree, v: NodeKey, height: nat, i: nat, k: NodeKey)
    requires WellPlaced(t, v, height) && 1 <= i < Height(t)
    ensures MadeJustBefore(HeightGroups(t), i, k, height) <==> OneBelow(t, i + 1, k, height)
  {
    assert HeightGroups(t)[i - 1] == Bucket(t, i);
  }

  lemma CheckedAt(groups: seq<seq<Aggregation>>, height: nat, i: nat, a: Aggregation)
    requires CheckNcaTreeGroups(groups, height) && 1 <= i < |groups| && a in groups[i]
    ensures MadeJustBefore(groups, i, a.left, height) && MadeJustBefore(groups, i, a.right, height)
  {
  }

  lemma CheckedIsOneBelow(t: NcaTree, v: NodeKey, height: nat, h: nat, a: Aggregation)
    requires WellPlaced(t, v, height) && a in Bucket(t, h) && 1 <= h <= Height(t)
    requires h > 1 ==> MadeJustBefore(HeightGroups(t), h - 1, a.left, height)
                       && MadeJustBefore(HeightGroups(t), h - 1, a.right, height)
    ensures OneBelow(t, h, a.left, height) && OneBelow(t, h, a.right, height)
  {
    if h == 1 {
      LowestBucket(t, v, height, a);
    } else {
      var i := h - 1;
      CheckedGroup(t, v, height, i, a.left);
      CheckedGroup(t, v, height, i, a.right);
      assert i + 1 == h;
    }
  }

  lemma EvenIsNext(t: NcaTree, v: NodeKey, height: nat, i: nat, a: Aggregation)
    requires WellPlaced(t, v, height) && EvenHeights(t) && i < Height(t) && a in Bucket(t, i + 1)
    ensures MadeJustBefore(HeightGroups(t), i, a.left, height) && MadeJustBefore(HeightGroups(t), i, a.right, height)
  {
    if i == 0 {
      LowestBucket(t, v, height, a);
    } else {
      EvenIsOneBelow(t, v, height, i + 1, a);
      CheckedGroup(t, v, height, i, a.left);
      CheckedGroup(t, v, height, i, a.right);
    }
  }

  lemma EvenIsScheduled(t: NcaTree, v: NodeKey, height: nat)
    requires WellPlaced(t, v, height) && EvenHeights(t)
    ensures ScheduledNext(HeightGroups(t), height)
  {
    var groups := HeightGroups(t);
    forall i, a: Aggregation | 0 <= i < |groups| && a in groups[i]
      ensures MadeJustBefore(groups, i, a.left, height) && MadeJustBefore(groups, i, a.right, height)
    {
      EvenIsNext(t, v, height, i, a);
    }
  }

  lemma HeightGroupsAreDistinct(t: NcaTree, v: NodeKey, height: nat)
    requires WellPlaced(t, v, height)
    ensures forall i :: 0 <= i < |HeightGroups(t)| ==> DistinctParts(HeightGroups(t)[i])
  {
    forall i | 0 <= i < |HeightGroups(t)|
      ensures DistinctParts(HeightGroups(t)[i])
    {
      BucketIsDistinct(t, v, height, i + 1);
    }
  }

  lemma CheckerMeansEven(t: NcaTree, v: NodeKey, height: nat)
    requires WellPlaced(t, v, height)
    ensures CheckNcaTreeGroups(HeightGroups(t), height) <==> EvenHeights(t)
  {
    if EvenHeights(t) {
      EvenIsScheduled(t, v, height);
      HeightGroupsAreDistinct(t, v, height);
      CheckerIsMet(HeightGroups(t), height);
    } else {
      var h, a := UnevenIsNotOneBelow(t, v, height);
      BucketMembers(t, h, a);
      if CheckNcaTreeGroups(HeightGroups(t), height) {
        if h > 1 {
          CheckedAt(HeightGroups(t), height, h - 1, a);
        }
        CheckedIsOneBelow(t, v, height, h, a);
        assert false;
      }
    }
  }

  /** Balance can be told from the leaves in any order. */
  lemma BalanceOfLeaves(leaves: seq<NodeKey>)
    requires ValidLeaves(leaves) && |leaves| >= 2
    ensures AllBalanced(leaves, leaves[0].level) <==> EvenHeights(PlanTree(leaves))
  {
    var height, sorted := leaves[0].level, Sort(leaves);
    SortedLeavesAreValid(leaves);
    BalancedIsEven(sorted, Root(), height);
    forall v
      ensures Splits(leaves, v) <==> Splits(sorted, v)
      ensures Balanced(leaves, v, height) <==> Balanced(sorted, v, height)
      ensures Splits(leaves, v) ==> Under(v, Root())
    {
      assert SameUnder(leaves, sorted, v);
      assert Under(v, v);
      SameBalance(leaves, sorted, v, v, height);
      if x, y :| x in leaves && y in leaves && Under(x, LeftChild(v)) && Under(y, RightChild(v)) {
        ChildrenUnder(v);
        UnderTransitive(x, LeftChild(v), v);
        UnderLevel(x, v);
        AllUnderRoot(v);
      }
    }
  }

  /** The checker accepts the height groups exactly when, wherever leaves lie on both sides of a node, the longest
      chains of such nodes on its two sides are equal or one side has none. */
  lemma HeightGroupsPassChecker(leaves: seq<NodeKey>)
    requires ValidLeaves(leaves) && |leaves| >= 2
    ensures CheckNcaTreeGroups(HeightGroups(PlanTree(leaves)), leaves[0].level) <==> AllBalanced(leaves, leaves[0].level)
  {
    PlanTreeFacts(leaves);
    CheckerMeansEven(PlanTree(leaves), Root(), leaves[0].level);
    BalanceOfLeaves(leaves);
  }

  // ----- and when not

  lemma {:induction false} SortOfSorted(s: seq<NodeKey>)
    requires Increasing(s)
    ensures Sort(s) == s
  {
    if s != [] {
      SortOfSorted(s[1..]);
    }
  }

  lemma SmallTrees(t: NcaTree)
    ensures |Leaves(t)| == 2 ==> Height(t) == 1
    ensures |Leaves(t)| == 3 ==> Height(t) == 2
  {
    if t.Branch? {
      LeafCount(t.l);
      LeafCount(t.r);
    }
  }

  lemma LeafCount(t: NcaTree)
    ensures |Leaves(t)| >= 1
    ensures |Leaves(t)| == 1 <==> t.Leaf?
    ensures |Leaves(t)| == 2 ==> Height(t) == 1
  {
    if t.Branch? {
      LeafCount(t.l);
      LeafCount(t.r);
    }
  }

  /** Two leaves on the left and three on the right of a tree of height 3. */
  lemma FiveLeaves() returns (leaves: seq<NodeKey>)
    ensures ValidLeaves(leaves) && |leaves| == 5 && leaves[0].level == 3
    ensures Sort(leaves) == leaves
    ensures SplitIndex(Root(), 3) == 4 && leaves[1].index < 4 <= leaves[2].index
  {
    leaves := LeavesAt([0, 1, 4, 5, 6]);
    SortOfSorted(leaves);
    assert ShiftLeft(1, 2) == 4 by { assert ShiftLeft(1, 1) == 2; }
  }

  lemma LeavesAt(indices: seq<nat>) returns (leaves: seq<NodeKey>)
    requires forall i, j :: 0 <= i < j < |indices| ==> indices[i] < indices[j]
    requires forall i :: 0 <= i < |indices| ==> indices[i] < 8
    ensures |leaves| == |indices| && forall i :: 0 <= i < |indices| ==> leaves[i] == NodeKey(3, indices[i])
    ensures ValidLeaves(leaves) && Increasing(leaves)
  {
    leaves := seq(|indices|, i requires 0 <= i < |indices| => NodeKey(3, indices[i]));
    assert Pow2(3) == 8 by { assert Pow2(1) == 2 && Pow2(2) == 4; }
  }

  lemma UnevenTree(leaves: seq<NodeKey>)
    requires ValidLeaves(leaves) && |leaves| == 5 && leaves[0].level == 3 && Sort(leaves) == leaves
    requires SplitIndex(Root(), 3) == 4 && leaves[1].index < 4 <= leaves[2].index
    ensures !EvenHeights(PlanTree(leaves))
  {
    SortedLeavesAreValid(leaves);
    var p := PartitionPoint(leaves, SplitIndex(Root(), 3));
    assert p == 2;
    TreeOfStep(leaves, Root(), 3, p);
    var l, r := TreeOf(leaves[..2], LeftChild(Root()), 3), TreeOf(leaves[2..], RightChild(Root()), 3);
    TreeIsWellPlaced(leaves[..2], LeftChild(Root()), 3);
    TreeIsWellPlaced(leaves[2..], RightChild(Root()), 3);
    SmallTrees(l);
    SmallTrees(r);
    assert PlanTree(leaves) == Branch(Root(), l, r);
  }

  /** The checker refuses some height groups: a short side is done too early. */
  lemma ShortSideIsRefused()
    ensures exists leaves: seq<NodeKey> :: ValidLeaves(leaves) && |leaves| == 5
                             && !CheckNcaTreeGroups(HeightGroups(PlanTree(leaves)), leaves[0].level)
  {
    var leaves := FiveLeaves();
    UnevenTree(leaves);
    BalanceOfLeaves(leaves);
    HeightGroupsPassChecker(leaves);
  }
}
