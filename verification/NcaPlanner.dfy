/** The divide-and-conquer recursion that turns sorted leaves into aggregations, one per nearest common
    ancestor (parth_core/benches/nca_3.rs, parth_core/benches/nca_group_gen.rs). */
module NcaPlanner {
  import opened Wrappers
  import opened NodeKeys

  datatype Aggregation = Aggregation(nca: NodeKey, left: NodeKey, right: NodeKey)

  /** What the recursion is called on: distinct leaves of one level in increasing order, all of them
      in the subtree of `root`. */
  ghost predicate ValidSlice(nodes: seq<NodeKey>, root: NodeKey, height: nat) {
    && InTree(root) && root.level <= height
    && (forall i :: 0 <= i < |nodes| ==> nodes[i].level == height && InTree(nodes[i]) && Under(nodes[i], root))
    && (forall i, j :: 0 <= i < j < |nodes| ==> nodes[i].index < nodes[j].index)
  }

  /** `slice::partition_point` for the predicate "index below `split`". */
  function PartitionPoint(nodes: seq<NodeKey>, split: nat): (p: nat)
    requires forall i, j :: 0 <= i < j < |nodes| ==> nodes[i].index < nodes[j].index
    ensures p <= |nodes|
    ensures forall i :: 0 <= i < p ==> nodes[i].index < split
    ensures forall i :: p <= i < |nodes| ==> split <= nodes[i].index
  {
    if nodes == [] || split <= nodes[0].index then 0 else 1 + PartitionPoint(nodes[1..], split)
  }

  function SplitIndex(root: NodeKey, height: nat): nat {
    FirstLeafChild(RightChild(root), height).index
  }

  lemma SplitKeepsValid(nodes: seq<NodeKey>, root: NodeKey, height: nat)
    requires ValidSlice(nodes, root, height) && |nodes| >= 2
    ensures root.level < height
    ensures var p := PartitionPoint(nodes, SplitIndex(root, height));
            && ValidSlice(nodes[..p], LeftChild(root), height)
            && ValidSlice(nodes[p..], RightChild(root), height)
  {
    UnderLevel(nodes[0], root);
    UnderLevel(nodes[1], root);
    ChildrenUnder(root);
    forall i | 0 <= i < |nodes|
      ensures Under(nodes[i], LeftChild(root)) <==> nodes[i].index < SplitIndex(root, height)
      ensures Under(nodes[i], RightChild(root)) <==> SplitIndex(root, height) <= nodes[i].index
    {
      SplitBySide(nodes[i], root);
    }
  }

  /** The combine phase: the key passed up and the aggregation emitted, if any. */
  function Combine(left: Option<NodeKey>, right: Option<NodeKey>): (r: (Option<NodeKey>, seq<Aggregation>))
    requires left.Some? ==> InTree(left.value)
    requires right.Some? ==> InTree(right.value)
    ensures r.0.Some? <==> left.Some? || right.Some?
    ensures r.0.Some? ==> InTree(r.0.value)
  {
    match (left, right)
    case (Some(l), Some(r)) =>
      NcaIsNearest(l, r);
      (Some(Nca(l, r)), [Aggregation(Nca(l, r), l, r)])
    case (Some(l), None) => (Some(l), [])
    case (None, Some(r)) => (Some(r), [])
    case (None, None) => (None, [])
  }

  /** `build_recursive_par`; `rayon::join` is the pair of its two independent results. */
  function BuildPar(nodes: seq<NodeKey>, root: NodeKey, height: nat): (r: (Option<NodeKey>, seq<Aggregation>))
    requires ValidSlice(nodes, root, height)
    ensures r.0.Some? <==> nodes != []
    ensures r.0.Some? ==> InTree(r.0.value)
    decreases height - root.level
  {
    if nodes == [] then (None, [])
    else if |nodes| == 1 then (Some(nodes[0]), [])
    else
      SplitKeepsValid(nodes, root, height);
      var p := PartitionPoint(nodes, SplitIndex(root, height));
      var (leftNca, leftAggs) := BuildPar(nodes[..p], LeftChild(root), height);
      var (rightNca, rightAggs) := BuildPar(nodes[p..], RightChild(root), height);
      var (nca, emitted) := Combine(leftNca, rightNca);
      (nca, leftAggs + rightAggs + emitted)
  }

  /** The recursive case in one piece. */
  lemma BuildParStep(nodes: seq<NodeKey>, root: NodeKey, height: nat, p: nat)
    requires ValidSlice(nodes, root, height) && |nodes| >= 2
    requires p == PartitionPoint(nodes, SplitIndex(root, height))
    ensures root.level < height
    ensures ValidSlice(nodes[..p], LeftChild(root), height) && ValidSlice(nodes[p..], RightChild(root), height)
    ensures var (leftNca, leftAggs) := BuildPar(nodes[..p], LeftChild(root), height);
            var (rightNca, rightAggs) := BuildPar(nodes[p..], RightChild(root), height);
            var (nca, emitted) := Combine(leftNca, rightNca);
            BuildPar(nodes, root, height) == (nca, leftAggs + rightAggs + emitted)
  {
    SplitKeepsValid(nodes, root, height);
  }

  /** The vector the sequential recursions append to. */
  class Log<T> {
    var items: seq<T>

    constructor ()
      ensures items == []
    {
      items := [];
    }

    method Push(x: T)
      modifies this
      ensures items == old(items) + [x]
    {
      items := items + [x];
    }
  }

  /** `build_recursive_truly_v1`: the same recursion, pushing into one shared vector.  It returns the same
      key and appends exactly the sequence the parallel form returns. */
  method BuildV1(nodes: seq<NodeKey>, root: NodeKey, height: nat, log: Log<Aggregation>)
    returns (r: Option<NodeKey>)
    requires ValidSlice(nodes, root, height)
    modifies log
    ensures r == BuildPar(nodes, root, height).0
    ensures log.items == old(log.items) + BuildPar(nodes, root, height).1
    decreases height - root.level
  {
    if nodes == [] {
      return None;
    }
    if |nodes| == 1 {
      return Some(nodes[0]);
    }
    var p := PartitionPoint(nodes, SplitIndex(root, height));
    BuildParStep(nodes, root, height, p);
    var left := BuildV1(nodes[..p], LeftChild(root), height, log);
    var right := BuildV1(nodes[p..], RightChild(root), height, log);
    r := CombineInto(left, right, log);
    AppendAssociates(old(log.items), BuildPar(nodes[..p], LeftChild(root), height).1,
                     BuildPar(nodes[p..], RightChild(root), height).1, Combine(left, right).1);
  }

  lemma AppendAssociates<T>(a: seq<T>, b: seq<T>, c: seq<T>, d: seq<T>)
    ensures a + b + c + d == a + (b + c + d)
  {
  }

  /** The combine phase of the sequential recursion. */
  method CombineInto(left: Option<NodeKey>, right: Option<NodeKey>, log: Log<Aggregation>)
    returns (r: Option<NodeKey>)
    requires left.Some? ==> InTree(left.value)
    requires right.Some? ==> InTree(right.value)
    modifies log
    ensures r == Combine(left, right).0
    ensures log.items == old(log.items) + Combine(left, right).1
  {
    match (left, right)
    case (Some(l), Some(k)) =>
      var nca := FindNearestCommonAncestor(l, k);
      log.Push(Aggregation(nca, l, k));
      r := Some(nca);
    case (Some(l), None) => r := Some(l);
    case (None, Some(k)) => r := Some(k);
    case (None, None) => r := None;
  }

  // ----- the tree of aggregations

  /** The aggregations seen as a tree: an inner node carries the key it aggregates into. */
  datatype NcaTree = Leaf(key: NodeKey) | Branch(key: NodeKey, l: NcaTree, r: NcaTree)

  function AggregationOf(t: NcaTree): Aggregation
    requires t.Branch?
  {
    Aggregation(t.key, t.l.key, t.r.key)
  }

  function Leaves(t: NcaTree): seq<NodeKey> {
    match t
    case Leaf(k) => [k]
    case Branch(_, l, r) => Leaves(l) + Leaves(r)
  }

  function PostOrder(t: NcaTree): seq<Aggregation> {
    match t
    case Leaf(_) => []
    case Branch(_, l, r) => PostOrder(l) + PostOrder(r) + [AggregationOf(t)]
  }

  function Max(a: nat, b: nat): nat {
    if a < b then b else a
  }

  function Height(t: NcaTree): nat {
    match t
    case Leaf(_) => 0
    case Branch(_, l, r) => 1 + Max(Height(l), Height(r))
  }

  /** The reference: compress the Merkle tree to the leaves present.  A subtree root becomes an inner node
      exactly when both of its sides hold a leaf; its key is that subtree root, not a computed ancestor. */
  ghost function TreeOf(nodes: seq<NodeKey>, root: NodeKey, height: nat): (t: NcaTree)
    requires ValidSlice(nodes, root, height) && nodes != []
    decreases height - root.level
  {
    if |nodes| == 1 then Leaf(nodes[0])
    else
      SplitKeepsValid(nodes, root, height);
      var p := PartitionPoint(nodes, SplitIndex(root, height));
      if p == 0 then TreeOf(nodes[p..], RightChild(root), height)
      else if p == |nodes| then TreeOf(nodes[..p], LeftChild(root), height)
      else Branch(root, TreeOf(nodes[..p], LeftChild(root), height), TreeOf(nodes[p..], RightChild(root), height))
  }

  /** The recursive case in one piece. */
  lemma TreeOfStep(nodes: seq<NodeKey>, root: NodeKey, height: nat, p: nat)
    requires ValidSlice(nodes, root, height) && |nodes| >= 2
    requires p == PartitionPoint(nodes, SplitIndex(root, height))
    ensures root.level < height && nodes == nodes[..p] + nodes[p..]
    ensures ValidSlice(nodes[..p], LeftChild(root), height) && ValidSlice(nodes[p..], RightChild(root), height)
    ensures TreeOf(nodes, root, height) ==
            if p == 0 then TreeOf(nodes[p..], RightChild(root), height)
            else if p == |nodes| then TreeOf(nodes[..p], LeftChild(root), height)
            else Branch(root, TreeOf(nodes[..p], LeftChild(root), height), TreeOf(nodes[p..], RightChild(root), height))
    ensures p == 0 ==> nodes[p..] == nodes
    ensures p == |nodes| ==> nodes[..p] == nodes
  {
    SplitKeepsValid(nodes, root, height);
  }

  /** The shape invariant: leaves on level `height`, and the two sides of an inner node in the two child
      subtrees of its key. */
  predicate WellPlaced(t: NcaTree, v: NodeKey, height: nat) {
    && InTree(t.key) && Under(t.key, v)
    && match t
       case Leaf(k) => k.level == height
       case Branch(k, l, r) =>
         && k.level < height
         && WellPlaced(l, LeftChild(k), height)
         && WellPlaced(r, RightChild(k), height)
  }

  lemma {:induction false} TreeIsWellPlaced(nodes: seq<NodeKey>, root: NodeKey, height: nat)
    requires ValidSlice(nodes, root, height) && nodes != []
    ensures WellPlaced(TreeOf(nodes, root, height), root, height)
    ensures Leaves(TreeOf(nodes, root, height)) == nodes
    decreases height - root.level
  {
    if |nodes| >= 2 {
      var p := PartitionPoint(nodes, SplitIndex(root, height));
      TreeOfStep(nodes, root, height, p);
      ChildrenUnder(root);
      if p > 0 {
        TreeIsWellPlaced(nodes[..p], LeftChild(root), height);
        UnderTransitive(TreeOf(nodes[..p], LeftChild(root), height).key, LeftChild(root), root);
      }
      if p < |nodes| {
        TreeIsWellPlaced(nodes[p..], RightChild(root), height);
        UnderTransitive(TreeOf(nodes[p..], RightChild(root), height).key, RightChild(root), root);
      }
    }
  }

  /** The recursion returns the key of the reference tree and emits its inner nodes in post-order. */
  lemma {:induction false} ParIsPostOrder(nodes: seq<NodeKey>, root: NodeKey, height: nat)
    requires ValidSlice(nodes, root, height) && nodes != []
    ensures var t := TreeOf(nodes, root, height);
            BuildPar(nodes, root, height) == (Some(t.key), PostOrder(t))
    decreases height - root.level
  {
    if |nodes| >= 2 {
      var p := PartitionPoint(nodes, SplitIndex(root, height));
      BuildParStep(nodes, root, height, p);
      TreeOfStep(nodes, root, height, p);
      if p == 0 {
        ParIsPostOrder(nodes, RightChild(root), height);
        AppendNothing(BuildPar(nodes, RightChild(root), height).1);
      } else if p == |nodes| {
        ParIsPostOrder(nodes, LeftChild(root), height);
        AppendNothing(BuildPar(nodes, LeftChild(root), height).1);
      } else {
        ParIsPostOrder(nodes[..p], LeftChild(root), height);
        ParIsPostOrder(nodes[p..], RightChild(root), height);
        BranchKey(nodes[..p], nodes[p..], root, height);
      }
    }
  }

  lemma AppendNothing<T>(s: seq<T>)
    ensures s + [] + [] == s && [] + s + [] == s
  {
  }

  lemma BranchKey(lo: seq<NodeKey>, hi: seq<NodeKey>, root: NodeKey, height: nat)
    requires ValidSlice(lo, LeftChild(root), height) && ValidSlice(hi, RightChild(root), height)
    requires lo != [] && hi != []
    ensures var l, r := TreeOf(lo, LeftChild(root), height).key, TreeOf(hi, RightChild(root), height).key;
            InTree(l) && InTree(r) && Combine(Some(l), Some(r)) == (Some(root), [Aggregation(root, l, r)])
  {
    TreeIsWellPlaced(lo, LeftChild(root), height);
    TreeIsWellPlaced(hi, RightChild(root), height);
    NcaAcrossSides(TreeOf(lo, LeftChild(root), height).key, TreeOf(hi, RightChild(root), height).key, root);
  }

  // ----- properties of well-placed trees

  lemma {:induction false} AggregationCount(t: NcaTree)
    ensures |PostOrder(t)| + 1 == |Leaves(t)|
  {
    if t.Branch? {
      AggregationCount(t.l);
      AggregationCount(t.r);
    }
  }

  lemma {:induction false} AllBelowKey(t: NcaTree, v: NodeKey, height: nat)
    requires WellPlaced(t, v, height)
    ensures forall k <- Leaves(t) :: Under(k, t.key) && InTree(k) && k.level == height
    ensures forall a <- PostOrder(t) :: Under(a.nca, t.key) && InTree(a.nca) && a.nca.level < height
    ensures forall a <- PostOrder(t) ::
      && Under(a.left, LeftChild(a.nca)) && Under(a.right, RightChild(a.nca))
      && InTree(a.left) && InTree(a.right) && a.left.level <= height && a.right.level <= height
  {
    if t.Branch? {
      AllBelowKey(t.l, LeftChild(t.key), height);
      AllBelowKey(t.r, RightChild(t.key), height);
      ChildrenUnder(t.key);
      KeyLevel(t.l, LeftChild(t.key), height);
      KeyLevel(t.r, RightChild(t.key), height);
      forall k | Under(k, t.l.key)
        ensures Under(k, t.key)
      {
        UnderTransitive(k, t.l.key, LeftChild(t.key));
        UnderTransitive(k, LeftChild(t.key), t.key);
      }
      forall k | Under(k, t.r.key)
        ensures Under(k, t.key)
      {
        UnderTransitive(k, t.r.key, RightChild(t.key));
        UnderTransitive(k, RightChild(t.key), t.key);
      }
    }
  }

  lemma KeyLevel(t: NcaTree, v: NodeKey, height: nat)
    requires WellPlaced(t, v, height)
    ensures t.key.level <= height
    ensures t.Leaf? <==> t.key.level == height
  {
  }

  /** Which side of an inner node a descendant lies on. */
  lemma {:induction false} SidesOfBranch(t: NcaTree, v: NodeKey, height: nat)
    requires WellPlaced(t, v, height) && t.Branch?
    ensures forall k :: Under(k, t.l.key) ==> Under(k, LeftChild(t.key)) && k != t.key
    ensures forall k :: Under(k, t.r.key) ==> Under(k, RightChild(t.key)) && k != t.key
    ensures forall k :: !(Under(k, t.l.key) && Under(k, t.r.key))
  {
    forall k | Under(k, t.l.key)
      ensures Under(k, LeftChild(t.key)) && k != t.key
    {
      UnderTransitive(k, t.l.key, LeftChild(t.key));
      UnderLevel(k, LeftChild(t.key));
    }
    forall k | Under(k, t.r.key)
      ensures Under(k, RightChild(t.key)) && k != t.key
    {
      UnderTransitive(k, t.r.key, RightChild(t.key));
      UnderLevel(k, RightChild(t.key));
    }
    forall k
      ensures !(Under(k, t.l.key) && Under(k, t.r.key))
    {
      SidesAreDisjoint(k, t.key);
    }
  }

  ghost predicate DistinctNcas(aggs: seq<Aggregation>) {
    forall i, j :: 0 <= i < j < |aggs| ==> aggs[i].nca != aggs[j].nca
  }

  lemma DistinctAppend(lo: seq<Aggregation>, hi: seq<Aggregation>, last: Aggregation)
    requires DistinctNcas(lo) && DistinctNcas(hi)
    requires forall i, j :: 0 <= i < |lo| && 0 <= j < |hi| ==> lo[i].nca != hi[j].nca
    requires forall i :: 0 <= i < |lo| ==> lo[i].nca != last.nca
    requires forall i :: 0 <= i < |hi| ==> hi[i].nca != last.nca
    ensures DistinctNcas(lo + hi + [last])
  {
  }

  lemma {:induction false} NcasAreDistinct(t: NcaTree, v: NodeKey, height: nat)
    requires WellPlaced(t, v, height)
    ensures DistinctNcas(PostOrder(t))
  {
    if t.Branch? {
      NcasAreDistinct(t.l, LeftChild(t.key), height);
      NcasAreDistinct(t.r, RightChild(t.key), height);
      var lo, hi := PostOrder(t.l), PostOrder(t.r);
      assert forall i :: 0 <= i < |lo| ==> Under(lo[i].nca, t.l.key) by {
        AllBelowKey(t.l, LeftChild(t.key), height);
      }
      assert forall j :: 0 <= j < |hi| ==> Under(hi[j].nca, t.r.key) by {
        AllBelowKey(t.r, RightChild(t.key), height);
      }
      SidesOfBranch(t, v, height);
      DistinctAppend(lo, hi, AggregationOf(t));
    }
  }
}
