/** Grouping aggregations into dependency levels: breadth first from the root
    (parth_core/benches/nca_3.rs) and by height (parth_core/benches/nca_group_gen.rs). */
module NcaGroups {
  import opened Wrappers
  import opened NodeKeys
  import opened NcaPlanner
  import opened NcaRecursion

  // ----- sorting the leaves

  /** The derived order of node keys: by level, then by index. */
  predicate Before(a: NodeKey, b: NodeKey) {
    if a.level != b.level then a.level < b.level else a.index < b.index
  }

  /** Leaves as every caller supplies them: distinct keys of one level. */
  ghost predicate ValidLeaves(leaves: seq<NodeKey>) {
    && (forall i :: 0 <= i < |leaves| ==> leaves[i].level == leaves[0].level && InTree(leaves[i]))
    && (forall i, j :: 0 <= i < j < |leaves| ==> leaves[i] != leaves[j])
  }

  function Insert(x: NodeKey, sorted: seq<NodeKey>): seq<NodeKey> {
    if sorted == [] || Before(x, sorted[0]) then [x] + sorted else [sorted[0]] + Insert(x, sorted[1..])
  }

  function Sort(keys: seq<NodeKey>): seq<NodeKey> {
    if keys == [] then [] else Insert(keys[0], Sort(keys[1..]))
  }

  lemma {:induction false} InsertKeepsElements(x: NodeKey, s: seq<NodeKey>)
    ensures multiset(Insert(x, s)) == multiset(s) + multiset{x}
  {
    if s != [] && !Before(x, s[0]) {
      InsertKeepsElements(x, s[1..]);
      assert s == [s[0]] + s[1..];
    }
  }

  lemma {:induction false} SortKeepsElements(s: seq<NodeKey>)
    ensures multiset(Sort(s)) == multiset(s)
  {
    if s != [] {
      SortKeepsElements(s[1..]);
      InsertKeepsElements(s[0], Sort(s[1..]));
      assert s == [s[0]] + s[1..];
    }
  }

  ghost predicate Increasing(s: seq<NodeKey>) {
    forall i, j :: 0 <= i < j < |s| ==> Before(s[i], s[j])
  }

  lemma {:induction false} InsertKeepsOrder(x: NodeKey, s: seq<NodeKey>)
    requires Increasing(s) && x !in s
    ensures Increasing(Insert(x, s))
  {
    if s != [] && !Before(x, s[0]) {
      InsertKeepsOrder(x, s[1..]);
      InsertKeepsElements(x, s[1..]);
      var tail := Insert(x, s[1..]);
      forall k | 0 <= k < |tail|
        ensures Before(s[0], tail[k])
      {
        assert tail[k] in multiset(tail);
        assert tail[k] in s[1..] || tail[k] == x;
      }
    }
  }

  lemma {:induction false} SortIsIncreasing(s: seq<NodeKey>)
    requires forall i, j :: 0 <= i < j < |s| ==> s[i] != s[j]
    ensures Increasing(Sort(s))
  {
    if s != [] {
      SortIsIncreasing(s[1..]);
      SortKeepsElements(s[1..]);
      assert forall k :: k in Sort(s[1..]) ==> k in multiset(s[1..]);
      InsertKeepsOrder(s[0], Sort(s[1..]));
    }
  }

  lemma SortedLeavesAreValid(leaves: seq<NodeKey>)
    requires ValidLeaves(leaves) && leaves != []
    ensures ValidSlice(Sort(leaves), Root(), leaves[0].level)
    ensures |Sort(leaves)| == |leaves|
    ensures forall k :: k in Sort(leaves) <==> k in leaves
  {
    var s := Sort(leaves);
    SortKeepsElements(leaves);
    SortIsIncreasing(leaves);
    assert |multiset(s)| == |multiset(leaves)|;
    forall k
      ensures k in s <==> k in leaves
    {
      assert k in s <==> k in multiset(s);
      assert k in leaves <==> k in multiset(leaves);
    }
    forall i | 0 <= i < |s|
      ensures s[i].level == leaves[0].level && InTree(s[i]) && Under(s[i], Root())
    {
      assert s[i] in leaves;
      AllUnderRoot(s[i]);
    }
  }

  /** The aggregation tree of a set of leaves. */
  ghost function PlanTree(leaves: seq<NodeKey>): NcaTree
    requires ValidLeaves(leaves) && leaves != []
  {
    SortedLeavesAreValid(leaves);
    TreeOf(Sort(leaves), Root(), leaves[0].level)
  }

  lemma PlanTreeFacts(leaves: seq<NodeKey>)
    requires ValidLeaves(leaves) && |leaves| >= 2
    ensures var t := PlanTree(leaves);
            var h := leaves[0].level;
            && ValidSlice(Sort(leaves), Root(), h)
            && WellPlaced(t, Root(), h) && t.Branch?
            && BuildPar(Sort(leaves), Root(), h) == (Some(t.key), PostOrder(t))
            && PostOrder(t) != [] && PostOrder(t)[|PostOrder(t)| - 1] == AggregationOf(t)
            && |PostOrder(t)| == |leaves| - 1
            && DistinctNcas(PostOrder(t))
            && (forall k :: k in Leaves(t) <==> k in leaves)
  {
    SortedLeavesAreValid(leaves);
    var s := Sort(leaves);
    var h := leaves[0].level;
    ParIsPostOrder(s, Root(), h);
    TreeIsWellPlaced(s, Root(), h);
    var t := PlanTree(leaves);
    AggregationCount(t);
    NcasAreDistinct(t, Root(), h);
    LastIsRoot(t);
  }

  // ----- the map from keys to aggregations

  function MapOf(aggs: seq<Aggregation>): map<NodeKey, Aggregation> {
    if aggs == [] then map[]
    else MapOf(aggs[..|aggs| - 1])[aggs[|aggs| - 1].nca := aggs[|aggs| - 1]]
  }

  lemma {:induction false} MapOfDistinct(aggs: seq<Aggregation>)
    requires DistinctNcas(aggs)
    ensures forall a :: a in aggs ==> a.nca in MapOf(aggs) && MapOf(aggs)[a.nca] == a
    ensures forall k :: k in MapOf(aggs) ==> exists a :: a in aggs && a.nca == k
  {
    if aggs != [] {
      MapOfDistinct(aggs[..|aggs| - 1]);
      assert aggs[|aggs| - 1] in aggs;
    }
  }

  /** The map holds every inner node of `t` and none of its leaves. */
  ghost predicate MapsTree(m: map<NodeKey, Aggregation>, t: NcaTree) {
    && (forall a :: a in PostOrder(t) ==> a.nca in m && m[a.nca] == a)
    && (forall k :: k in Leaves(t) ==> k !in m)
  }

  lemma MapOfTree(t: NcaTree, v: NodeKey, height: nat)
    requires WellPlaced(t, v, height)
    ensures MapsTree(MapOf(PostOrder(t)), t)
  {
    NcasAreDistinct(t, v, height);
    MapOfDistinct(PostOrder(t));
    AllBelowKey(t, v, height);
  }

  // ----- breadth-first levels

  /** Level `d` below the root of `t`, left to right, with the subtrees whose root stands on level `skip`
      left out. */
  ghost function Level(t: NcaTree, d: nat, skip: nat): seq<Aggregation>
    decreases t, 0
  {
    if t.Leaf? then []
    else if d == 0 then [AggregationOf(t)]
    else Side(t.l, d - 1, skip) + Side(t.r, d - 1, skip)
  }

  ghost function Side(t: NcaTree, d: nat, skip: nat): seq<Aggregation>
    decreases t, 1
  {
    if t.key.level == skip then [] else Level(t, d, skip)
  }

  /** The number of nonempty levels. */
  ghost function Depth(t: NcaTree, skip: nat): nat
    decreases t
  {
    if t.Leaf? then 0
    else 1 + Max(if t.l.key.level == skip then 0 else Depth(t.l, skip),
                 if t.r.key.level == skip then 0 else Depth(t.r, skip))
  }

  lemma {:induction false} LevelNonempty(t: NcaTree, d: nat, skip: nat)
    ensures Level(t, d, skip) != [] <==> d < Depth(t, skip)
    decreases t
  {
    if t.Branch? && d > 0 {
      LevelNonempty(t.l, d - 1, skip);
      LevelNonempty(t.r, d - 1, skip);
    }
  }

  function Lookup(m: map<NodeKey, Aggregation>, k: NodeKey, leafLevel: nat): seq<Aggregation> {
    if k.level != leafLevel && k in m then [m[k]] else []
  }

  function NextLevel(m: map<NodeKey, Aggregation>, current: seq<Aggregation>, leafLevel: nat): seq<Aggregation> {
    if current == [] then []
    else Lookup(m, current[0].left, leafLevel) + Lookup(m, current[0].right, leafLevel) + NextLevel(m, current[1..], leafLevel)
  }

  lemma NextLevelCons(m: map<NodeKey, Aggregation>, a: Aggregation, rest: seq<Aggregation>, leafLevel: nat)
    ensures NextLevel(m, [a] + rest, leafLevel)
         == Lookup(m, a.left, leafLevel) + Lookup(m, a.right, leafLevel) + NextLevel(m, rest, leafLevel)
  {
    assert ([a] + rest)[1..] == rest;
  }

  lemma {:induction false} NextLevelConcat(m: map<NodeKey, Aggregation>, a: seq<Aggregation>, b: seq<Aggregation>, leafLevel: nat)
    ensures NextLevel(m, a + b, leafLevel) == NextLevel(m, a, leafLevel) + NextLevel(m, b, leafLevel)
  {
    if a == [] {
      assert a + b == b;
    } else {
      NextLevelConcat(m, a[1..], b, leafLevel);
      assert a + b == [a[0]] + (a[1..] + b);
      NextLevelCons(m, a[0], a[1..] + b, leafLevel);
      ConcatAssociates(Lookup(m, a[0].left, leafLevel) + Lookup(m, a[0].right, leafLevel), NextLevel(m, a[1..], leafLevel),
                       NextLevel(m, b, leafLevel));
    }
  }

  lemma ConcatAssociates<T>(x: seq<T>, y: seq<T>, z: seq<T>)
    ensures x + y + z == x + (y + z)
  {
  }

  lemma LookupChild(m: map<NodeKey, Aggregation>, t: NcaTree, skip: nat)
    requires MapsTree(m, t)
    ensures Lookup(m, t.key, skip) == Side(t, 0, skip)
  {
    if t.Branch? {
      assert AggregationOf(t) in PostOrder(t);
    } else {
      assert t.key in Leaves(t);
    }
  }

  lemma NextOfOne(m: map<NodeKey, Aggregation>, a: Aggregation, leafLevel: nat)
    ensures NextLevel(m, [a], leafLevel) == Lookup(m, a.left, leafLevel) + Lookup(m, a.right, leafLevel)
  {
    assert [a][1..] == [];
    assert NextLevel(m, [], leafLevel) == [];
  }

  lemma MapsSubtrees(m: map<NodeKey, Aggregation>, t: NcaTree)
    requires MapsTree(m, t) && t.Branch?
    ensures MapsTree(m, t.l) && MapsTree(m, t.r)
  {
  }

  /** One round of the search goes from one level to the next. */
  lemma {:induction false} NextOfLevel(m: map<NodeKey, Aggregation>, t: NcaTree, d: nat, skip: nat)
    requires MapsTree(m, t)
    ensures NextLevel(m, Level(t, d, skip), skip) == Level(t, d + 1, skip)
    decreases t, 0
  {
    if t.Branch? {
      MapsSubtrees(m, t);
      if d == 0 {
        LookupChild(m, t.l, skip);
        LookupChild(m, t.r, skip);
        NextOfOne(m, AggregationOf(t), skip);
      } else {
        NextOfSide(m, t.l, d - 1, skip);
        NextOfSide(m, t.r, d - 1, skip);
        NextLevelConcat(m, Side(t.l, d - 1, skip), Side(t.r, d - 1, skip), skip);
      }
    }
  }

  lemma {:induction false} NextOfSide(m: map<NodeKey, Aggregation>, t: NcaTree, d: nat, skip: nat)
    requires MapsTree(m, t)
    ensures NextLevel(m, Side(t, d, skip), skip) == Side(t, d + 1, skip)
    decreases t, 1
  {
    NextOfLevel(m, t, d, skip);
  }

  /** The levels in the order they are returned, deepest first. */
  ghost function BfsGroups(t: NcaTree, skip: nat): seq<seq<Aggregation>> {
    seq(Depth(t, skip), i requires 0 <= i < Depth(t, skip) => Level(t, Depth(t, skip) - 1 - i, skip))
  }

  lemma NextLevelSnoc(m: map<NodeKey, Aggregation>, s: seq<Aggregation>, i: nat, leafLevel: nat)
    requires i < |s|
    ensures NextLevel(m, s[..i + 1], leafLevel)
         == NextLevel(m, s[..i], leafLevel) + Lookup(m, s[i].left, leafLevel) + Lookup(m, s[i].right, leafLevel)
  {
    assert s[..i + 1] == s[..i] + [s[i]];
    NextLevelConcat(m, s[..i], [s[i]], leafLevel);
    NextOfOne(m, s[i], leafLevel);
  }

  /** One level of the search as the sequential form computes it. */
  method CollectChildren(m: map<NodeKey, Aggregation>, current: seq<Aggregation>, leafLevel: nat)
    returns (next: seq<Aggregation>, found: bool)
    ensures next == NextLevel(m, current, leafLevel)
    ensures found <==> next != []
  {
    next, found := [], false;
    for i := 0 to |current|
      invariant next == NextLevel(m, current[..i], leafLevel)
      invariant found <==> next != []
    {
      var agg := current[i];
      ghost var before := next;
      if agg.left.level != leafLevel {
        if agg.left in m {
          next, found := next + [m[agg.left]], true;
        }
      }
      assert next == before + Lookup(m, agg.left, leafLevel);
      if agg.right.level != leafLevel {
        if agg.right in m {
          next, found := next + [m[agg.right]], true;
        }
      }
      assert next == before + Lookup(m, agg.left, leafLevel) + Lookup(m, agg.right, leafLevel);
      NextLevelSnoc(m, current, i, leafLevel);
    }
    assert current[..|current|] == current;
  }

  method Reverse<T>(s: seq<T>) returns (r: seq<T>)
    ensures |r| == |s| && forall i :: 0 <= i < |s| ==> r[i] == s[|s| - 1 - i]
  {
    r := [];
    for k := 0 to |s|
      invariant |r| == k && forall i :: 0 <= i < k ==> r[i] == s[k - 1 - i]
    {
      r := [s[k]] + r;
    }
  }

  /** The loop both breadth-first forms share: levels from the root down until one has no inner child. */
  method LevelsBelow(m: map<NodeKey, Aggregation>, root: Aggregation, leafLevel: nat, ghost t: NcaTree)
    returns (levels: seq<seq<Aggregation>>)
    requires MapsTree(m, t) && t.Branch? && root == AggregationOf(t)
    ensures |levels| == Depth(t, leafLevel)
    ensures forall i :: 0 <= i < |levels| ==> levels[i] == Level(t, i, leafLevel)
  {
    levels := [];
    var more := true;
    var current := [root];
    while more
      invariant current == Level(t, |levels|, leafLevel)
      invariant more <==> current != []
      invariant forall i :: 0 <= i < |levels| ==> levels[i] == Level(t, i, leafLevel)
      invariant |levels| <= Depth(t, leafLevel)
      decreases Depth(t, leafLevel) - |levels|
    {
      LevelNonempty(t, |levels|, leafLevel);
      NextOfLevel(m, t, |levels|, leafLevel);
      levels := levels + [current];
      current, more := CollectChildren(m, current, leafLevel);
    }
    LevelNonempty(t, |levels|, leafLevel);
    if current != [] {
      levels := levels + [current];
    }
  }

  /** From the emitted aggregations to the groups: the last one is the root of the search. */
  method SearchLevels(aggs: seq<Aggregation>, leafLevel: nat, ghost t: NcaTree, ghost v: NodeKey, ghost height: nat)
    returns (groups: seq<seq<Aggregation>>)
    requires WellPlaced(t, v, height) && t.Branch? && aggs == PostOrder(t)
    ensures groups == BfsGroups(t, leafLevel)
  {
    MapOfTree(t, v, height);
    LastIsRoot(t);
    var root := aggs[|aggs| - 1];
    if root.left.level == leafLevel && root.right.level == leafLevel {
      assert Depth(t, leafLevel) == 1 && Level(t, 0, leafLevel) == [root];
      return [[root]];
    }
    var levels := LevelsBelow(MapOf(aggs), root, leafLevel, t);
    groups := Reverse(levels);
  }

  /** `generate_nca_tree_groups_v1` of the sequential file: the levels below the height of the leaves. */
  method GroupsV1(leaves: seq<NodeKey>) returns (groups: seq<seq<Aggregation>>)
    requires ValidLeaves(leaves)
    ensures |leaves| < 2 ==> groups == []
    ensures |leaves| >= 2 ==> groups == BfsGroups(PlanTree(leaves), leaves[0].level)
  {
    if |leaves| < 2 {
      return [];
    }
    PlanTreeFacts(leaves);
    var height := leaves[0].level;
    var log := new Log<Aggregation>();
    var _ := BuildV1(Sort(leaves), Root(), height, log);
    groups := SearchLevels(log.items, height, PlanTree(leaves), Root(), height);
  }

  /** `generate_nca_tree_groups_v0_rayon`: the caller names the level at which the search stops. */
  method GroupsRayon(leaves: seq<NodeKey>, leafLevel: nat) returns (groups: seq<seq<Aggregation>>)
    requires ValidLeaves(leaves)
    ensures |leaves| < 2 ==> groups == []
    ensures |leaves| >= 2 ==> groups == BfsGroups(PlanTree(leaves), leafLevel)
  {
    if |leaves| < 2 {
      return [];
    }
    PlanTreeFacts(leaves);
    var aggs := BuildPar(Sort(leaves), Root(), leaves[0].level).1;
    groups := SearchLevels(aggs, leafLevel, PlanTree(leaves), Root(), leaves[0].level);
  }

  // ----- height buckets

  ghost function PostOrderWithHeights(t: NcaTree): seq<(Aggregation, nat)> {
    match t
    case Leaf(_) => []
    case Branch(_, l, r) => PostOrderWithHeights(l) + PostOrderWithHeights(r) + [(AggregationOf(t), Height(t))]
  }

  /** The aggregations of height exactly `h`, in post-order. */
  ghost function Bucket(t: NcaTree, h: nat): seq<Aggregation> {
    match t
    case Leaf(_) => []
    case Branch(_, l, r) => Bucket(l, h) + Bucket(r, h) + (if Height(t) == h then [AggregationOf(t)] else [])
  }

  ghost function HeightGroups(t: NcaTree): seq<seq<Aggregation>> {
    seq(Height(t), i requires 0 <= i < Height(t) => Bucket(t, i + 1))
  }

  /** What the recursion hands up and emits for a slice. */
  ghost function Found(nodes: seq<NodeKey>, root: NodeKey, height: nat): (Option<(NodeKey, nat)>, seq<(Aggregation, nat)>)
    requires ValidSlice(nodes, root, height)
  {
    if nodes == [] then (None, []) else FoundIn(TreeOf(nodes, root, height))
  }

  ghost function FoundIn(t: NcaTree): (Option<(NodeKey, nat)>, seq<(Aggregation, nat)>) {
    (Some((t.key, Height(t))), PostOrderWithHeights(t))
  }

  /** An aggregation stands one above the higher of its two parts. */
  ghost function Joined(left: Option<(NodeKey, nat)>, right: Option<(NodeKey, nat)>)
    : (Option<(NodeKey, nat)>, seq<(Aggregation, nat)>)
    requires left.Some? ==> InTree(left.value.0)
    requires right.Some? ==> InTree(right.value.0)
  {
    match (left, right)
    case (Some((l, lh)), Some((k, kh))) =>
      (Some((Nca(l, k), 1 + Max(lh, kh))), [(Aggregation(Nca(l, k), l, k), 1 + Max(lh, kh))])
    case (Some(_), None) => (left, [])
    case (None, _) => (right, [])
  }

  lemma FoundInTree(nodes: seq<NodeKey>, root: NodeKey, height: nat)
    requires ValidSlice(nodes, root, height)
    ensures var found := Found(nodes, root, height).0; found.Some? ==> InTree(found.value.0)
  {
    if nodes != [] {
      TreeIsWellPlaced(nodes, root, height);
    }
  }

  lemma FoundStep(nodes: seq<NodeKey>, root: NodeKey, height: nat, p: nat)
    requires ValidSlice(nodes, root, height) && |nodes| >= 2
    requires p == PartitionPoint(nodes, SplitIndex(root, height))
    ensures root.level < height
    ensures ValidSlice(nodes[..p], LeftChild(root), height) && ValidSlice(nodes[p..], RightChild(root), height)
    ensures var (l, ls) := Found(nodes[..p], LeftChild(root), height);
            var (k, ks) := Found(nodes[p..], RightChild(root), height);
            && (l.Some? ==> InTree(l.value.0))
            && (k.Some? ==> InTree(k.value.0))
            && Found(nodes, root, height) == (Joined(l, k).0, ls + ks + Joined(l, k).1)
  {
    TreeOfStep(nodes, root, height, p);
    FoundInTree(nodes[..p], LeftChild(root), height);
    FoundInTree(nodes[p..], RightChild(root), height);
    var lo, hi := Found(nodes[..p], LeftChild(root), height), Found(nodes[p..], RightChild(root), height);
    if p == 0 {
      AppendNothing(hi.1);
    } else if p == |nodes| {
      AppendNothing(lo.1);
    } else {
      BranchKey(nodes[..p], nodes[p..], root, height);
      FoundInBranch(root, TreeOf(nodes[..p], LeftChild(root), height), TreeOf(nodes[p..], RightChild(root), height));
    }
  }

  lemma FoundInBranch(root: NodeKey, l: NcaTree, k: NcaTree)
    requires InTree(l.key) && InTree(k.key) && Nca(l.key, k.key) == root
    ensures var joined := Joined(FoundIn(l).0, FoundIn(k).0);
            FoundIn(Branch(root, l, k)) == (joined.0, FoundIn(l).1 + FoundIn(k).1 + joined.1)
  {
  }

  /** `build_recursive_truly_efficient_2`: the recursion that also passes heights up. */
  method BuildWithHeights(nodes: seq<NodeKey>, root: NodeKey, height: nat, log: Log<(Aggregation, nat)>)
    returns (r: Option<(NodeKey, nat)>)
    requires ValidSlice(nodes, root, height)
    modifies log
    ensures r == Found(nodes, root, height).0
    ensures log.items == old(log.items) + Found(nodes, root, height).1
    decreases height - root.level
  {
    if nodes == [] {
      return None;
    }
    if |nodes| == 1 {
      return Some((nodes[0], 0));
    }
    var p := PartitionPoint(nodes, SplitIndex(root, height));
    FoundStep(nodes, root, height, p);
    var left := BuildWithHeights(nodes[..p], LeftChild(root), height, log);
    var right := BuildWithHeights(nodes[p..], RightChild(root), height, log);
    r := CombineHeights(left, right, log);
    AppendAssociates(old(log.items), Found(nodes[..p], LeftChild(root), height).1,
                     Found(nodes[p..], RightChild(root), height).1, Joined(left, right).1);
  }

  /** The combine phase. */
  method CombineHeights(left: Option<(NodeKey, nat)>, right: Option<(NodeKey, nat)>, log: Log<(Aggregation, nat)>)
    returns (r: Option<(NodeKey, nat)>)
    requires left.Some? ==> InTree(left.value.0)
    requires right.Some? ==> InTree(right.value.0)
    modifies log
    ensures r == Joined(left, right).0
    ensures log.items == old(log.items) + Joined(left, right).1
  {
    match (left, right)
    case (Some((l, lh)), Some((k, kh))) =>
      var nca := FindNearestCommonAncestor(l, k);
      var level := 1 + Max(lh, kh);
      log.Push((Aggregation(nca, l, k), level));
      r := Some((nca, level));
    case (Some(l), None) => r := Some(l);
    case (None, Some(k)) => r := Some(k);
    case (None, None) => r := None;
  }

  function Select(entries: seq<(Aggregation, nat)>, h: nat): seq<Aggregation> {
    if entries == [] then []
    else
      var rest := Select(entries[..|entries| - 1], h);
      if entries[|entries| - 1].1 == h then rest + [entries[|entries| - 1].0] else rest
  }

  lemma {:induction false} SelectConcat(a: seq<(Aggregation, nat)>, b: seq<(Aggregation, nat)>, h: nat)
    ensures Select(a + b, h) == Select(a, h) + Select(b, h)
  {
    if b == [] {
      assert a + b == a;
    } else {
      SelectConcat(a, b[..|b| - 1], h);
      assert (a + b)[..|a + b| - 1] == a + b[..|b| - 1];
    }
  }

  lemma {:induction false} SelectIsBucket(t: NcaTree, h: nat)
    ensures Select(PostOrderWithHeights(t), h) == Bucket(t, h)
  {
    if t.Branch? {
      SelectIsBucket(t.l, h);
      SelectIsBucket(t.r, h);
      var lo, hi, top := PostOrderWithHeights(t.l), PostOrderWithHeights(t.r), [(AggregationOf(t), Height(t))];
      SelectConcat(lo + hi, top, h);
      SelectConcat(lo, hi, h);
      assert top[..0] == [];
      assert Select(top, h) == if Height(t) == h then [AggregationOf(t)] else [];
    }
  }

  lemma {:induction false} HeightsInRange(t: NcaTree)
    ensures forall e :: e in PostOrderWithHeights(t) ==> 1 <= e.1 <= Height(t)
    ensures t.Branch? ==> (AggregationOf(t), Height(t)) in PostOrderWithHeights(t)
  {
    if t.Branch? {
      HeightsInRange(t.l);
      HeightsInRange(t.r);
    }
  }

  lemma {:induction false} BucketNonempty(t: NcaTree, h: nat)
    requires 1 <= h <= Height(t)
    ensures Bucket(t, h) != []
  {
    if h < Height(t) {
      if h <= Height(t.l) {
        BucketNonempty(t.l, h);
      } else {
        BucketNonempty(t.r, h);
      }
    }
  }

  /** Drops empty groups. */
  method DropEmpty(groups: seq<seq<Aggregation>>) returns (kept: seq<seq<Aggregation>>)
    ensures (forall i :: 0 <= i < |groups| ==> groups[i] != []) ==> kept == groups
    ensures forall g :: g in kept <==> g in groups && g != []
  {
    kept := [];
    for i := 0 to |groups|
      invariant (forall j :: 0 <= j < i ==> groups[j] != []) ==> kept == groups[..i]
      invariant forall g :: g in kept <==> g in groups[..i] && g != []
    {
      assert groups[..i + 1] == groups[..i] + [groups[i]];
      if groups[i] != [] {
        kept := kept + [groups[i]];
      }
    }
    assert groups[..|groups|] == groups;
  }

  method HighestLevel(entries: seq<(Aggregation, nat)>) returns (top: nat)
    requires entries != []
    ensures exists i :: 0 <= i < |entries| && entries[i].1 == top
    ensures forall i :: 0 <= i < |entries| ==> entries[i].1 <= top
  {
    top := entries[0].1;
    for i := 1 to |entries|
      invariant exists j :: 0 <= j < i && entries[j].1 == top
      invariant forall j :: 0 <= j < i ==> entries[j].1 <= top
    {
      if top < entries[i].1 {
        top := entries[i].1;
      }
    }
  }

  /** The bucketing loop: entry levels are one-based, bucket positions zero-based. */
  method FillBuckets(entries: seq<(Aggregation, nat)>, top: nat) returns (groups: seq<seq<Aggregation>>)
    requires forall i :: 0 <= i < |entries| ==> entries[i].1 <= top
    ensures |groups| == top
    ensures forall b :: 0 <= b < top ==> groups[b] == Select(entries, b + 1)
  {
    var buckets := new seq<Aggregation>[top](_ => []);
    for i := 0 to |entries|
      invariant forall b :: 0 <= b < top ==> buckets[b] == Select(entries[..i], b + 1)
    {
      var (agg, level) := entries[i];
      assert entries[..i + 1][..i] == entries[..i];
      if level > 0 {
        buckets[level - 1] := buckets[level - 1] + [agg];
      }
    }
    assert entries[..|entries|] == entries;
    groups := buckets[..];
  }

  lemma TopIsHeight(t: NcaTree, top: nat)
    requires t.Branch?
    requires exists i :: 0 <= i < |PostOrderWithHeights(t)| && PostOrderWithHeights(t)[i].1 == top
    requires forall i :: 0 <= i < |PostOrderWithHeights(t)| ==> PostOrderWithHeights(t)[i].1 <= top
    ensures top == Height(t)
  {
    HeightsInRange(t);
    var entries := PostOrderWithHeights(t);
    assert (AggregationOf(t), Height(t)) in entries;
    var i :| 0 <= i < |entries| && entries[i].1 == top;
    assert entries[i] in PostOrderWithHeights(t);
  }

  lemma BucketsOf(t: NcaTree, groups: seq<seq<Aggregation>>)
    requires |groups| == Height(t)
    requires forall b :: 0 <= b < Height(t) ==> groups[b] == Select(PostOrderWithHeights(t), b + 1)
    ensures groups == HeightGroups(t)
    ensures forall b :: 0 <= b < |groups| ==> groups[b] != []
  {
    forall b | 0 <= b < |groups|
      ensures groups[b] == Bucket(t, b + 1) && groups[b] != []
    {
      SelectIsBucket(t, b + 1);
      BucketNonempty(t, b + 1);
    }
  }

  /** From the emitted entries to the groups. */
  method BucketEntries(entries: seq<(Aggregation, nat)>, ghost t: NcaTree) returns (groups: seq<seq<Aggregation>>)
    requires t.Branch? && entries == PostOrderWithHeights(t)
    ensures groups == HeightGroups(t)
  {
    HeightsInRange(t);
    var top := HighestLevel(entries);
    TopIsHeight(t, top);
    var buckets := FillBuckets(entries, top);
    BucketsOf(t, buckets);
    groups := DropEmpty(buckets);
  }

  /** `generate_nca_tree_groups_v1` of the height-bucketing file. */
  method GroupsByHeight(leaves: seq<NodeKey>) returns (groups: seq<seq<Aggregation>>)
    requires ValidLeaves(leaves)
    ensures |leaves| < 2 ==> groups == []
    ensures |leaves| >= 2 ==> groups == HeightGroups(PlanTree(leaves))
  {
    if |leaves| < 2 {
      return [];
    }
    PlanTreeFacts(leaves);
    var log := new Log<(Aggregation, nat)>();
    var _ := BuildWithHeights(Sort(leaves), Root(), leaves[0].level, log);
    groups := BucketEntries(log.items, PlanTree(leaves));
  }
}
