/** The groups as a schedule: nothing lost or repeated, and every dependency in an earlier group. */
module NcaSchedules {
  import opened Powers
  import opened NodeKeys
  import opened NcaPlanner
  import opened NcaRecursion
  import opened NcaGroups

  /** How often `a` occurs in a sequence. */
  ghost function Count(s: seq<Aggregation>, a: Aggregation): nat {
    if s == [] then 0 else (if s[0] == a then 1 else 0) + Count(s[1..], a)
  }

  /** How often `a` occurs in all groups together. */
  ghost function TotalCount(groups: seq<seq<Aggregation>>, a: Aggregation): nat {
    if groups == [] then 0 else Count(groups[0], a) + TotalCount(groups[1..], a)
  }

  /** The groups hold the aggregations, each as often as it was emitted. */
  ghost predicate Partitions(groups: seq<seq<Aggregation>>, aggs: seq<Aggregation>) {
    forall a :: TotalCount(groups, a) == Count(aggs, a)
  }

  lemma {:induction false} CountConcat(x: seq<Aggregation>, y: seq<Aggregation>, a: Aggregation)
    ensures Count(x + y, a) == Count(x, a) + Count(y, a)
  {
    if x == [] {
      assert x + y == y;
    } else {
      CountConcat(x[1..], y, a);
      assert (x + y)[1..] == x[1..] + y;
    }
  }

  lemma {:induction false} CountMember(s: seq<Aggregation>, a: Aggregation)
    ensures Count(s, a) > 0 <==> a in s
  {
    if s != [] {
      CountMember(s[1..], a);
    }
  }

  lemma {:induction false} CountOne(b: Aggregation, a: Aggregation)
    ensures Count([b], a) == if a == b then 1 else 0
  {
    assert [b][1..] == [];
  }

  lemma CountPostOrder(t: NcaTree, a: Aggregation)
    requires t.Branch?
    ensures Count(PostOrder(t), a)
         == Count(PostOrder(t.l), a) + Count(PostOrder(t.r), a) + (if a == AggregationOf(t) then 1 else 0)
  {
    CountConcat(PostOrder(t.l) + PostOrder(t.r), [AggregationOf(t)], a);
    CountConcat(PostOrder(t.l), PostOrder(t.r), a);
    CountOne(AggregationOf(t), a);
  }

  /** Some aggregation of `group` produces `k`. */
  ghost predicate Produces(group: seq<Aggregation>, k: NodeKey) {
    exists a :: a in group && a.nca == k
  }

  /** An inner child is produced by the group directly before `i`. */
  ghost predicate MadeJustBefore(groups: seq<seq<Aggregation>>, i: nat, k: NodeKey, height: nat)
    requires i <= |groups|
  {
    k.level != height ==> i > 0 && Produces(groups[i - 1], k)
  }

  /** An inner child is produced by some group before `i`. */
  ghost predicate MadeBefore(groups: seq<seq<Aggregation>>, i: nat, k: NodeKey, height: nat)
    requires i <= |groups|
  {
    k.level != height ==> exists j :: 0 <= j < i && Produces(groups[j], k)
  }

  ghost predicate ScheduledNext(groups: seq<seq<Aggregation>>, height: nat) {
    forall i, a: Aggregation | 0 <= i < |groups| && a in groups[i] ::
      MadeJustBefore(groups, i, a.left, height) && MadeJustBefore(groups, i, a.right, height)
  }

  ghost predicate ScheduledEarlier(groups: seq<seq<Aggregation>>, height: nat) {
    forall i, a: Aggregation | 0 <= i < |groups| && a in groups[i] ::
      MadeBefore(groups, i, a.left, height) && MadeBefore(groups, i, a.right, height)
  }

  // ----- breadth-first levels

  /** No inner node other than the root of `t` stands on level `skip`. */
  ghost predicate NothingSkipped(t: NcaTree, skip: nat) {
    forall a :: a in PostOrder(t) && a.nca != t.key ==> a.nca.level != skip
  }

  /** Occurrences of `a` on the first `n` levels. */
  ghost function Sum(t: NcaTree, skip: nat, n: nat, a: Aggregation): nat {
    if n == 0 then 0 else Sum(t, skip, n - 1, a) + Count(Level(t, n - 1, skip), a)
  }

  ghost function SideSum(t: NcaTree, skip: nat, n: nat, a: Aggregation): nat {
    if t.key.level == skip then 0 else Sum(t, skip, n, a)
  }

  lemma {:induction false} SumOfBranch(t: NcaTree, skip: nat, n: nat, a: Aggregation)
    requires t.Branch?
    ensures Sum(t, skip, n + 1, a)
         == (if a == AggregationOf(t) then 1 else 0) + SideSum(t.l, skip, n, a) + SideSum(t.r, skip, n, a)
  {
    if n == 0 {
      CountOne(AggregationOf(t), a);
    } else {
      SumOfBranch(t, skip, n - 1, a);
      CountConcat(Side(t.l, n - 1, skip), Side(t.r, n - 1, skip), a);
    }
  }

  lemma {:induction false} LeafSum(t: NcaTree, skip: nat, n: nat, a: Aggregation)
    requires t.Leaf?
    ensures Sum(t, skip, n, a) == 0
  {
    if n > 0 {
      LeafSum(t, skip, n - 1, a);
    }
  }

  /** The same, level by level. */
  predicate Unskipped(t: NcaTree, skip: nat) {
    t.Branch? ==>
      && (t.l.Branch? ==> t.l.key.level != skip)
      && (t.r.Branch? ==> t.r.key.level != skip)
      && Unskipped(t.l, skip) && Unskipped(t.r, skip)
  }

  lemma {:induction false} NothingSkippedIsUnskipped(t: NcaTree, v: NodeKey, height: nat, skip: nat)
    requires WellPlaced(t, v, height)
    ensures NothingSkipped(t, skip) <==> Unskipped(t, skip)
  {
    if t.Branch? {
      NothingSkippedIsUnskipped(t.l, LeftChild(t.key), height, skip);
      NothingSkippedIsUnskipped(t.r, RightChild(t.key), height, skip);
      AllBelowKey(t.l, LeftChild(t.key), height);
      AllBelowKey(t.r, RightChild(t.key), height);
      SidesOfBranch(t, v, height);
      if t.l.Branch? {
        assert AggregationOf(t.l) in PostOrder(t);
      }
      if t.r.Branch? {
        assert AggregationOf(t.r) in PostOrder(t);
      }
    }
  }

  lemma {:induction false} LevelsHoldAll(t: NcaTree, skip: nat, n: nat, a: Aggregation)
    requires Unskipped(t, skip) && n >= Height(t)
    ensures Sum(t, skip, n, a) == Count(PostOrder(t), a)
    decreases t, 0
  {
    if t.Leaf? {
      LeafSum(t, skip, n, a);
    } else {
      var below := n - 1;
      SideHoldsAll(t.l, skip, below, a);
      SideHoldsAll(t.r, skip, below, a);
      SumOfBranch(t, skip, below, a);
      CountPostOrder(t, a);
      assert below + 1 == n;
    }
  }

  lemma {:induction false} SideHoldsAll(t: NcaTree, skip: nat, n: nat, a: Aggregation)
    requires Unskipped(t, skip) && n >= Height(t)
    requires t.Branch? ==> t.key.level != skip
    ensures SideSum(t, skip, n, a) == Count(PostOrder(t), a)
    decreases t, 1
  {
    LevelsHoldAll(t, skip, n, a);
  }

  lemma {:induction false} DepthIsHeight(t: NcaTree, skip: nat)
    requires Unskipped(t, skip)
    ensures Depth(t, skip) == Height(t)
  {
    if t.Branch? {
      DepthIsHeight(t.l, skip);
      DepthIsHeight(t.r, skip);
    }
  }

  ghost function FirstLevels(t: NcaTree, skip: nat, n: nat): seq<seq<Aggregation>> {
    seq(n, i requires 0 <= i < n => Level(t, n - 1 - i, skip))
  }

  lemma {:induction false} TotalOfFirstLevels(t: NcaTree, skip: nat, n: nat, a: Aggregation)
    ensures TotalCount(FirstLevels(t, skip, n), a) == Sum(t, skip, n, a)
  {
    if n > 0 {
      TotalOfFirstLevels(t, skip, n - 1, a);
      FirstLevelsStep(t, skip, n);
      TotalOfCons(Level(t, n - 1, skip), FirstLevels(t, skip, n - 1), a);
    }
  }

  lemma FirstLevelsStep(t: NcaTree, skip: nat, n: nat)
    requires n > 0
    ensures FirstLevels(t, skip, n) == [Level(t, n - 1, skip)] + FirstLevels(t, skip, n - 1)
  {
  }

  lemma TotalOfCons(g: seq<Aggregation>, groups: seq<seq<Aggregation>>, a: Aggregation)
    ensures TotalCount([g] + groups, a) == Count(g, a) + TotalCount(groups, a)
  {
    assert ([g] + groups)[1..] == groups;
  }

  lemma TotalOfBfs(t: NcaTree, skip: nat, a: Aggregation)
    ensures TotalCount(BfsGroups(t, skip), a) == Sum(t, skip, Depth(t, skip), a)
  {
    TotalOfFirstLevels(t, skip, Depth(t, skip), a);
    assert BfsGroups(t, skip) == FirstLevels(t, skip, Depth(t, skip));
  }

  /** Everything found below the root stands on another level than `skip`. */
  lemma {:induction false} LevelMembers(t: NcaTree, d: nat, skip: nat, a: Aggregation)
    requires a in Level(t, d, skip)
    ensures a in PostOrder(t)
    ensures a.nca == t.key || a.nca.level != skip
    decreases t
  {
    if d > 0 {
      if a in Side(t.l, d - 1, skip) {
        LevelMembers(t.l, d - 1, skip, a);
      } else {
        LevelMembers(t.r, d - 1, skip, a);
      }
    }
  }

  lemma {:induction false} SumMembers(t: NcaTree, skip: nat, n: nat, a: Aggregation)
    requires Sum(t, skip, n, a) > 0
    ensures a.nca == t.key || a.nca.level != skip
  {
    if Count(Level(t, n - 1, skip), a) > 0 {
      CountMember(Level(t, n - 1, skip), a);
      LevelMembers(t, n - 1, skip, a);
    } else {
      SumMembers(t, skip, n - 1, a);
    }
  }

  /** The search loses nothing exactly when it skips nothing. */
  lemma BfsTotal(t: NcaTree, v: NodeKey, height: nat, skip: nat)
    requires WellPlaced(t, v, height) && t.Branch?
    ensures Partitions(BfsGroups(t, skip), PostOrder(t)) <==> NothingSkipped(t, skip)
  {
    NothingSkippedIsUnskipped(t, v, height, skip);
    if NothingSkipped(t, skip) {
      DepthIsHeight(t, skip);
      forall a
        ensures TotalCount(BfsGroups(t, skip), a) == Count(PostOrder(t), a)
      {
        TotalOfBfs(t, skip, a);
        LevelsHoldAll(t, skip, Depth(t, skip), a);
      }
    } else {
      var a :| a in PostOrder(t) && a.nca != t.key && a.nca.level == skip;
      TotalOfBfs(t, skip, a);
      CountMember(PostOrder(t), a);
      if Sum(t, skip, Depth(t, skip), a) > 0 {
        SumMembers(t, skip, Depth(t, skip), a);
      }
    }
  }

  lemma {:induction false} ChildrenOnNextLevel(t: NcaTree, v: NodeKey, height: nat, d: nat, skip: nat, a: Aggregation)
    requires WellPlaced(t, v, height) && Unskipped(t, skip) && a in Level(t, d, skip)
    ensures a.left.level != height ==> Produces(Level(t, d + 1, skip), a.left)
    ensures a.right.level != height ==> Produces(Level(t, d + 1, skip), a.right)
    decreases t
  {
    if d == 0 {
      KeyLevel(t.l, LeftChild(t.key), height);
      KeyLevel(t.r, RightChild(t.key), height);
      if t.l.Branch? {
        assert AggregationOf(t.l) in Side(t.l, 0, skip);
        assert AggregationOf(t.l) in Level(t, 1, skip);
      }
      if t.r.Branch? {
        assert AggregationOf(t.r) in Side(t.r, 0, skip);
        assert AggregationOf(t.r) in Level(t, 1, skip);
      }
    } else if a in Side(t.l, d - 1, skip) {
      ChildrenOnNextLevel(t.l, LeftChild(t.key), height, d - 1, skip, a);
      ProducesMore(Side(t.l, d, skip), Level(t, d + 1, skip));
    } else {
      ChildrenOnNextLevel(t.r, RightChild(t.key), height, d - 1, skip, a);
      ProducesMore(Side(t.r, d, skip), Level(t, d + 1, skip));
    }
  }

  lemma ProducesMore(part: seq<Aggregation>, whole: seq<Aggregation>)
    requires forall a :: a in part ==> a in whole
    ensures forall k :: Produces(part, k) ==> Produces(whole, k)
  {
  }

  lemma MemberScheduledNext(t: NcaTree, v: NodeKey, height: nat, skip: nat, i: nat, a: Aggregation)
    requires WellPlaced(t, v, height) && Unskipped(t, skip)
    requires i < Depth(t, skip) && a in BfsGroups(t, skip)[i]
    ensures MadeJustBefore(BfsGroups(t, skip), i, a.left, height)
    ensures MadeJustBefore(BfsGroups(t, skip), i, a.right, height)
  {
    var n := Depth(t, skip);
    ChildrenOnNextLevel(t, v, height, n - 1 - i, skip, a);
    LevelNonempty(t, n - i, skip);
    if i > 0 {
      assert BfsGroups(t, skip)[i - 1] == Level(t, n - i, skip);
    }
  }

  lemma BfsIsScheduledNext(t: NcaTree, v: NodeKey, height: nat, skip: nat)
    requires WellPlaced(t, v, height) && Unskipped(t, skip)
    ensures ScheduledNext(BfsGroups(t, skip), height)
  {
    var groups := BfsGroups(t, skip);
    forall i, a: Aggregation | 0 <= i < |groups| && a in groups[i]
      ensures MadeJustBefore(groups, i, a.left, height) && MadeJustBefore(groups, i, a.right, height)
    {
      MemberScheduledNext(t, v, height, skip, i, a);
    }
  }

  // ----- what the caller can check: the level named must not separate two leaves below the top

  /** Any two leaves that part on level `leafLevel` part at the nearest common ancestor of all of them. */
  ghost predicate NoSplitAt(leaves: seq<NodeKey>, leafLevel: nat) {
    forall x, y, z | x in leaves && y in leaves && z in leaves && InTree(x) && InTree(y) && x != y ::
      Nca(x, y).level == leafLevel ==> Under(z, Nca(x, y))
  }

  lemma SkippedMeansSplit(leaves: seq<NodeKey>, leafLevel: nat)
    requires ValidLeaves(leaves) && |leaves| >= 2
    ensures NothingSkipped(PlanTree(leaves), leafLevel) <==> NoSplitAt(leaves, leafLevel)
  {
    var t := PlanTree(leaves);
    var h := leaves[0].level;
    PlanTreeFacts(leaves);
    AllBelowKey(t, Root(), h);
    if NothingSkipped(t, leafLevel) {
      forall x, y, z | x in leaves && y in leaves && z in leaves && InTree(x) && InTree(y) && x != y
                       && Nca(x, y).level == leafLevel
        ensures Under(z, Nca(x, y))
      {
        var a := PairIsEmitted(t, Root(), h, x, y);
        assert z in Leaves(t);
      }
    } else {
      var a :| a in PostOrder(t) && a.nca != t.key && a.nca.level == leafLevel;
      EmittedSplits(t, Root(), h, a);
      var x, y :| x in Leaves(t) && y in Leaves(t) && Under(x, LeftChild(a.nca)) && Under(y, RightChild(a.nca));
      SidesAreDisjoint(x, a.nca);
      NcaAcrossSides(x, y, a.nca);
      if NoSplitAt(leaves, leafLevel) {
        assert forall z :: z in Leaves(t) ==> Under(z, a.nca);
        KeyIsNearest(t, Root(), h, t.key);
        assert Covers(a.nca, Leaves(t), t.key);
        UnderLevel(t.key, a.nca);
        UnderLevel(a.nca, t.key);
      }
    }
  }

  lemma {:induction false} PairIsEmitted(t: NcaTree, v: NodeKey, height: nat, x: NodeKey, y: NodeKey) returns (a: Aggregation)
    requires WellPlaced(t, v, height)
    requires x in Leaves(t) && y in Leaves(t) && x != y && InTree(x) && InTree(y)
    ensures a in PostOrder(t) && a.nca == Nca(x, y)
  {
    LeafSides(t, v, height);
    if x in Leaves(t.l) && y in Leaves(t.l) {
      a := PairIsEmitted(t.l, LeftChild(t.key), height, x, y);
    } else if x in Leaves(t.r) && y in Leaves(t.r) {
      a := PairIsEmitted(t.r, RightChild(t.key), height, x, y);
    } else {
      a := AggregationOf(t);
      if x in Leaves(t.l) {
        NcaAcrossSides(x, y, t.key);
      } else {
        NcaAcrossSides(y, x, t.key);
        NcaIsNearest(y, x);
        NcaIsNearest(x, y);
        NearestIsUnique(Nca(x, y), t.key, x, y);
      }
    }
  }

  /** Naming the leaves' own level, or any deeper one, is always safe. */
  lemma LeafLevelIsSafe(leaves: seq<NodeKey>, leafLevel: nat)
    requires ValidLeaves(leaves) && |leaves| >= 2 && leafLevel >= leaves[0].level
    ensures NoSplitAt(leaves, leafLevel)
  {
    PlanTreeFacts(leaves);
    AllBelowKey(PlanTree(leaves), Root(), leaves[0].level);
    SkippedMeansSplit(leaves, leafLevel);
  }

  /** The breadth-first groups hold every aggregation exactly once if and only if no two leaves part on
      the named level below their top; then the groups are as many as the tree is high, none is empty, and
      every inner child lies in the group directly before its parent. */
  lemma BreadthFirstIsExact(leaves: seq<NodeKey>, leafLevel: nat)
    requires ValidLeaves(leaves) && |leaves| >= 2
    ensures var t := PlanTree(leaves);
            var groups := BfsGroups(t, leafLevel);
            && (Partitions(groups, PostOrder(t)) <==> NoSplitAt(leaves, leafLevel))
            && (NoSplitAt(leaves, leafLevel) ==>
                  && |groups| == Height(t)
                  && ScheduledNext(groups, leaves[0].level))
            && (forall i :: 0 <= i < |groups| ==> groups[i] != [])
  {
    var t := PlanTree(leaves);
    var h := leaves[0].level;
    PlanTreeFacts(leaves);
    SkippedMeansSplit(leaves, leafLevel);
    BfsTotal(t, Root(), h, leafLevel);
    BfsShape(t, Root(), h, leafLevel);
  }

  lemma BfsShape(t: NcaTree, v: NodeKey, height: nat, skip: nat)
    requires WellPlaced(t, v, height)
    ensures var groups := BfsGroups(t, skip);
            && (forall i :: 0 <= i < |groups| ==> groups[i] != [])
            && (NothingSkipped(t, skip) ==> |groups| == Height(t) && ScheduledNext(groups, height))
  {
    NothingSkippedIsUnskipped(t, v, height, skip);
    if NothingSkipped(t, skip) {
      DepthIsHeight(t, skip);
      BfsIsScheduledNext(t, v, height, skip);
    }
    forall i | 0 <= i < Depth(t, skip)
      ensures BfsGroups(t, skip)[i] != []
    {
      LevelNonempty(t, Depth(t, skip) - 1 - i, skip);
    }
  }

  // ----- height buckets

  /** Occurrences of `a` in the buckets of height 1 to `n`. */
  ghost function BucketSum(t: NcaTree, n: nat, a: Aggregation): nat {
    if n == 0 then 0 else BucketSum(t, n - 1, a) + Count(Bucket(t, n), a)
  }

  lemma {:induction false} BucketSumOfBranch(t: NcaTree, n: nat, a: Aggregation)
    requires t.Branch?
    ensures BucketSum(t, n, a) == BucketSum(t.l, n, a) + BucketSum(t.r, n, a)
                                  + (if a == AggregationOf(t) && Height(t) <= n then 1 else 0)
  {
    if n > 0 {
      BucketSumOfBranch(t, n - 1, a);
      var top := if Height(t) == n then [AggregationOf(t)] else [];
      CountConcat(Bucket(t.l, n) + Bucket(t.r, n), top, a);
      CountConcat(Bucket(t.l, n), Bucket(t.r, n), a);
      CountOne(AggregationOf(t), a);
    }
  }

  lemma {:induction false} BucketsHoldAll(t: NcaTree, n: nat, a: Aggregation)
    requires n >= Height(t)
    ensures BucketSum(t, n, a) == Count(PostOrder(t), a)
  {
    if t.Branch? {
      BucketsHoldAll(t.l, n, a);
      BucketsHoldAll(t.r, n, a);
      BucketSumOfBranch(t, n, a);
      CountPostOrder(t, a);
    } else {
      LeafBuckets(t, n, a);
    }
  }

  lemma {:induction false} LeafBuckets(t: NcaTree, n: nat, a: Aggregation)
    requires t.Leaf?
    ensures BucketSum(t, n, a) == 0
  {
    if n > 0 {
      LeafBuckets(t, n - 1, a);
    }
  }

  ghost function FirstBuckets(t: NcaTree, n: nat): seq<seq<Aggregation>> {
    seq(n, i requires 0 <= i < n => Bucket(t, i + 1))
  }

  lemma {:induction false} TotalSnoc(groups: seq<seq<Aggregation>>, g: seq<Aggregation>, a: Aggregation)
    ensures TotalCount(groups + [g], a) == TotalCount(groups, a) + Count(g, a)
  {
    if groups == [] {
      assert (groups + [g])[1..] == [];
    } else {
      TotalSnoc(groups[1..], g, a);
      assert (groups + [g])[1..] == groups[1..] + [g];
    }
  }

  lemma {:induction false} TotalOfFirstBuckets(t: NcaTree, n: nat, a: Aggregation)
    ensures TotalCount(FirstBuckets(t, n), a) == BucketSum(t, n, a)
  {
    if n > 0 {
      TotalOfFirstBuckets(t, n - 1, a);
      TotalSnoc(FirstBuckets(t, n - 1), Bucket(t, n), a);
      assert FirstBuckets(t, n) == FirstBuckets(t, n - 1) + [Bucket(t, n)];
    }
  }

  /** An inner child of an aggregation of height `h` has a smaller positive height. */
  lemma {:induction false} ChildInLowerBucket(t: NcaTree, v: NodeKey, height: nat, h: nat, a: Aggregation)
    requires WellPlaced(t, v, height) && a in Bucket(t, h)
    ensures 1 <= h <= Height(t)
    ensures a.left.level != height ==> exists g :: 1 <= g < h && Produces(Bucket(t, g), a.left)
    ensures a.right.level != height ==> exists g :: 1 <= g < h && Produces(Bucket(t, g), a.right)
  {
    if a in Bucket(t.l, h) {
      ChildInLowerBucket(t.l, LeftChild(t.key), height, h, a);
      forall g { ProducesMore(Bucket(t.l, g), Bucket(t, g)); }
    } else if a in Bucket(t.r, h) {
      ChildInLowerBucket(t.r, RightChild(t.key), height, h, a);
      forall g { ProducesMore(Bucket(t.r, g), Bucket(t, g)); }
    } else {
      KeyLevel(t.l, LeftChild(t.key), height);
      KeyLevel(t.r, RightChild(t.key), height);
      if t.l.Branch? {
        assert AggregationOf(t.l) in Bucket(t.l, Height(t.l));
        assert Produces(Bucket(t, Height(t.l)), a.left);
      }
      if t.r.Branch? {
        assert AggregationOf(t.r) in Bucket(t.r, Height(t.r));
        assert Produces(Bucket(t, Height(t.r)), a.right);
      }
    }
  }

  lemma BucketsAreScheduledEarlier(t: NcaTree, v: NodeKey, height: nat)
    requires WellPlaced(t, v, height)
    ensures ScheduledEarlier(HeightGroups(t), height)
  {
    var groups := HeightGroups(t);
    forall i, a: Aggregation | 0 <= i < |groups| && a in groups[i]
      ensures MadeBefore(groups, i, a.left, height) && MadeBefore(groups, i, a.right, height)
    {
      ChildInLowerBucket(t, v, height, i + 1, a);
      if a.left.level != height {
        var g :| 1 <= g < i + 1 && Produces(Bucket(t, g), a.left);
        assert groups[g - 1] == Bucket(t, g);
      }
      if a.right.level != height {
        var g :| 1 <= g < i + 1 && Produces(Bucket(t, g), a.right);
        assert groups[g - 1] == Bucket(t, g);
      }
    }
  }

  lemma BucketTotal(t: NcaTree)
    ensures Partitions(HeightGroups(t), PostOrder(t))
  {
    assert HeightGroups(t) == FirstBuckets(t, Height(t));
    forall a
      ensures TotalCount(HeightGroups(t), a) == Count(PostOrder(t), a)
    {
      BucketsHoldAll(t, Height(t), a);
      TotalOfFirstBuckets(t, Height(t), a);
    }
  }

  /** The height groups hold every aggregation exactly once, none is empty, every inner child lies in an
      earlier group, and they are as many as the breadth-first groups. */
  lemma HeightBucketsAreExact(leaves: seq<NodeKey>)
    requires ValidLeaves(leaves) && |leaves| >= 2
    ensures var t := PlanTree(leaves);
            var groups := HeightGroups(t);
            && Partitions(groups, PostOrder(t))
            && (forall i :: 0 <= i < |groups| ==> groups[i] != [])
            && ScheduledEarlier(groups, leaves[0].level)
            && |groups| == |BfsGroups(t, leaves[0].level)|
  {
    var t := PlanTree(leaves);
    PlanTreeFacts(leaves);
    BucketShape(t, Root(), leaves[0].level);
    LeafLevelIsSafe(leaves, leaves[0].level);
    BreadthFirstIsExact(leaves, leaves[0].level);
  }

  lemma BucketShape(t: NcaTree, v: NodeKey, height: nat)
    requires WellPlaced(t, v, height)
    ensures var groups := HeightGroups(t);
            && Partitions(groups, PostOrder(t))
            && (forall i :: 0 <= i < |groups| ==> groups[i] != [])
            && ScheduledEarlier(groups, height)
  {
    BucketTotal(t);
    BucketsAreScheduledEarlier(t, v, height);
    forall i | 0 <= i < Height(t)
      ensures HeightGroups(t)[i] != []
    {
      BucketNonempty(t, i + 1);
    }
  }

  // ----- the repository's own checker

  ghost predicate DistinctParts(group: seq<Aggregation>) {
    forall i, j :: 0 <= i < j < |group| ==>
                     && group[i].nca != group[j].nca
                     && group[i].left != group[j].left
                     && group[i].right != group[j].right
  }

  /** `check_nca_tree_groups`: from the second group on, no key, left or right part occurs twice in a
      group, and inner parts come from the group directly below. */
  ghost predicate CheckNcaTreeGroups(groups: seq<seq<Aggregation>>, leafLevel: nat) {
    forall i :: 1 <= i < |groups| ==>
                  && DistinctParts(groups[i])
                  && forall a: Aggregation :: a in groups[i] ==>
                                                && MadeJustBefore(groups, i, a.left, leafLevel)
                                                && MadeJustBefore(groups, i, a.right, leafLevel)
  }

  lemma PartsBelowKey(t: NcaTree, v: NodeKey, height: nat, a: Aggregation)
    requires WellPlaced(t, v, height) && a in PostOrder(t)
    ensures Under(a.nca, t.key) && Under(a.left, t.key) && Under(a.right, t.key)
  {
    AllBelowKey(t, v, height);
    ChildrenUnder(a.nca);
    UnderTransitive(a.left, LeftChild(a.nca), a.nca);
    UnderTransitive(a.right, RightChild(a.nca), a.nca);
    UnderTransitive(a.left, a.nca, t.key);
    UnderTransitive(a.right, a.nca, t.key);
  }

  lemma DistinctConcat(x: seq<Aggregation>, y: seq<Aggregation>, v: NodeKey, w: NodeKey)
    requires DistinctParts(x) && DistinctParts(y)
    requires forall a :: a in x ==> Under(a.nca, v) && Under(a.left, v) && Under(a.right, v)
    requires forall a :: a in y ==> Under(a.nca, w) && Under(a.left, w) && Under(a.right, w)
    requires forall k :: !(Under(k, v) && Under(k, w))
    ensures DistinctParts(x + y)
  {
    forall i, j | 0 <= i < j < |x + y|
      ensures (x + y)[i].nca != (x + y)[j].nca && (x + y)[i].left != (x + y)[j].left && (x + y)[i].right != (x + y)[j].right
    {
      if i < |x| <= j {
        assert x[i] in x && y[j - |x|] in y;
      }
    }
  }

  lemma {:induction false} LevelIsDistinct(t: NcaTree, v: NodeKey, height: nat, d: nat, skip: nat)
    requires WellPlaced(t, v, height)
    ensures DistinctParts(Level(t, d, skip))
    decreases t
  {
    if t.Branch? && d > 0 {
      LevelIsDistinct(t.l, LeftChild(t.key), height, d - 1, skip);
      LevelIsDistinct(t.r, RightChild(t.key), height, d - 1, skip);
      forall a | a in Side(t.l, d - 1, skip)
        ensures Under(a.nca, t.l.key) && Under(a.left, t.l.key) && Under(a.right, t.l.key)
      {
        LevelMembers(t.l, d - 1, skip, a);
        PartsBelowKey(t.l, LeftChild(t.key), height, a);
      }
      forall a | a in Side(t.r, d - 1, skip)
        ensures Under(a.nca, t.r.key) && Under(a.left, t.r.key) && Under(a.right, t.r.key)
      {
        LevelMembers(t.r, d - 1, skip, a);
        PartsBelowKey(t.r, RightChild(t.key), height, a);
      }
      SidesOfBranch(t, v, height);
      DistinctConcat(Side(t.l, d - 1, skip), Side(t.r, d - 1, skip), t.l.key, t.r.key);
    }
  }

  lemma GroupsAreDistinct(t: NcaTree, v: NodeKey, height: nat, skip: nat)
    requires WellPlaced(t, v, height)
    ensures forall i :: 0 <= i < |BfsGroups(t, skip)| ==> DistinctParts(BfsGroups(t, skip)[i])
  {
    forall i | 0 <= i < |BfsGroups(t, skip)|
      ensures DistinctParts(BfsGroups(t, skip)[i])
    {
      LevelIsDistinct(t, v, height, Depth(t, skip) - 1 - i, skip);
    }
  }

  lemma CheckerIsMet(groups: seq<seq<Aggregation>>, height: nat)
    requires ScheduledNext(groups, height)
    requires forall i :: 0 <= i < |groups| ==> DistinctParts(groups[i])
    ensures CheckNcaTreeGroups(groups, height)
  {
  }

  /** The checker accepts every grouping the sequential breadth-first form returns. */
  lemma CheckerAccepts(leaves: seq<NodeKey>)
    requires ValidLeaves(leaves) && |leaves| >= 2
    ensures CheckNcaTreeGroups(BfsGroups(PlanTree(leaves), leaves[0].level), leaves[0].level)
  {
    PlanTreeFacts(leaves);
    LeafLevelIsSafe(leaves, leaves[0].level);
    BreadthFirstIsExact(leaves, leaves[0].level);
    GroupsAreDistinct(PlanTree(leaves), Root(), leaves[0].level, leaves[0].level);
    CheckerIsMet(BfsGroups(PlanTree(leaves), leaves[0].level), leaves[0].level);
  }

  /** Three leaves of a tree of height 2 of which two part on level 1, below the top. */
  lemma ThreeLeaves() returns (leaves: seq<NodeKey>)
    ensures ValidLeaves(leaves) && |leaves| == 3 && !NoSplitAt(leaves, 1)
  {
    leaves := [NodeKey(2, 0), NodeKey(2, 1), NodeKey(2, 2)];
    assert Pow2(2) == 4 by { assert Pow2(1) == 2; }
    var x, y, z := leaves[0], leaves[1], leaves[2];
    NcaAcrossSides(x, y, NodeKey(1, 0));
    assert Parent(z) == NodeKey(1, 1) && !Under(z, NodeKey(1, 0));
    assert x in leaves && y in leaves && z in leaves;
  }

  /** Naming an inner level can lose work. */
  lemma InnerLevelLosesWork()
    ensures exists leaves :: ValidLeaves(leaves) && |leaves| == 3
                             && !Partitions(BfsGroups(PlanTree(leaves), 1), PostOrder(PlanTree(leaves)))
  {
    var leaves := ThreeLeaves();
    BreadthFirstIsExact(leaves, 1);
  }
}
