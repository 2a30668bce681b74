/** The height of an aggregation tree told from the leaves alone: the longest chain of nodes with leaves on both
    sides. */
module NcaChains {
  import opened NodeKeys
  import opened NcaPlanner
  import opened NcaRecursion

  /** The longest chain of splitting nodes in the subtree of `v`. */
  ghost function Chain(leaves: seq<NodeKey>, v: NodeKey, height: nat): nat
    decreases height - v.level
  {
    if v.level >= height then 0
    else
      var below := Max(Chain(leaves, LeftChild(v), height), Chain(leaves, RightChild(v), height));
      if Splits(leaves, v) then 1 + below else below
  }

  /** The chains on the two sides of `v` are equally long, unless one side has none. */
  ghost predicate Balanced(leaves: seq<NodeKey>, v: NodeKey, height: nat) {
    var l, r := Chain(leaves, LeftChild(v), height), Chain(leaves, RightChild(v), height);
    l == 0 || r == 0 || l == r
  }

  /** Wherever leaves lie on both sides of a node, its chains are balanced. */
  ghost predicate AllBalanced(leaves: seq<NodeKey>, height: nat) {
    forall v :: Splits(leaves, v) ==> Balanced(leaves, v, height)
  }

  // ----- only the leaves below a node matter

  ghost predicate SameUnder(a: seq<NodeKey>, b: seq<NodeKey>, v: NodeKey) {
    forall x :: Under(x, v) ==> (x in a <==> x in b)
  }

  lemma SameUnderChildren(a: seq<NodeKey>, b: seq<NodeKey>, v: NodeKey)
    requires SameUnder(a, b, v)
    ensures SameUnder(a, b, LeftChild(v)) && SameUnder(a, b, RightChild(v))
    ensures Splits(a, v) <==> Splits(b, v)
  {
    ChildrenUnder(v);
    forall x | Under(x, LeftChild(v)) || Under(x, RightChild(v))
      ensures x in a <==> x in b
    {
      if Under(x, LeftChild(v)) {
        UnderTransitive(x, LeftChild(v), v);
      } else {
        UnderTransitive(x, RightChild(v), v);
      }
    }
  }

  lemma {:induction false} SameChain(a: seq<NodeKey>, b: seq<NodeKey>, v: NodeKey, height: nat)
    requires SameUnder(a, b, v)
    ensures Chain(a, v, height) == Chain(b, v, height)
    decreases height - v.level
  {
    if v.level < height {
      SameUnderChildren(a, b, v);
      SameChain(a, b, LeftChild(v), height);
      SameChain(a, b, RightChild(v), height);
    }
  }

  lemma SameBelow(a: seq<NodeKey>, b: seq<NodeKey>, c: NodeKey, v: NodeKey)
    requires SameUnder(a, b, c) && Under(v, c)
    ensures SameUnder(a, b, v)
  {
    forall x | Under(x, v)
      ensures x in a <==> x in b
    {
      UnderTransitive(x, v, c);
    }
  }

  lemma SameBalance(a: seq<NodeKey>, b: seq<NodeKey>, c: NodeKey, v: NodeKey, height: nat)
    requires SameUnder(a, b, c) && Under(v, c)
    ensures Splits(a, v) <==> Splits(b, v)
    ensures Balanced(a, v, height) <==> Balanced(b, v, height)
  {
    SameBelow(a, b, c, v);
    SameUnderChildren(a, b, v);
    SameChain(a, b, LeftChild(v), height);
    SameChain(a, b, RightChild(v), height);
  }

  lemma OneLeafSplitsNothing(leaves: seq<NodeKey>, v: NodeKey)
    requires |leaves| <= 1
    ensures !Splits(leaves, v)
  {
    if x, y :| x in leaves && y in leaves && Under(x, LeftChild(v)) && Under(y, RightChild(v)) {
      assert x == y;
      SidesAreDisjoint(x, v);
    }
  }

  lemma {:induction false} NoChain(leaves: seq<NodeKey>, v: NodeKey, height: nat)
    requires |leaves| <= 1
    ensures Chain(leaves, v, height) == 0
    decreases height - v.level
  {
    if v.level < height {
      OneLeafSplitsNothing(leaves, v);
      NoChain(leaves, LeftChild(v), height);
      NoChain(leaves, RightChild(v), height);
    }
  }

  // ----- the two parts of a slice

  /** Below the left child lie the leaves of the first part, below the right child those of the second. */
  lemma PartsOfSlice(nodes: seq<NodeKey>, root: NodeKey, height: nat, p: nat)
    requires p <= |nodes| && ValidSlice(nodes[..p], LeftChild(root), height) && ValidSlice(nodes[p..], RightChild(root), height)
    ensures SameUnder(nodes, nodes[..p], LeftChild(root)) && SameUnder(nodes, nodes[p..], RightChild(root))
    ensures Splits(nodes, root) <==> 0 < p < |nodes|
  {
    assert nodes == nodes[..p] + nodes[p..];
    forall x
      ensures !(Under(x, LeftChild(root)) && Under(x, RightChild(root)))
    {
      SidesAreDisjoint(x, root);
    }
    forall x | x in nodes[..p] ensures Under(x, LeftChild(root)) {}
    forall x | x in nodes[p..] ensures Under(x, RightChild(root)) {}
    if 0 < p < |nodes| {
      assert nodes[0] in nodes[..p] && nodes[p] in nodes[p..];
    }
  }

  lemma ChainOfParts(nodes: seq<NodeKey>, root: NodeKey, height: nat, p: nat)
    requires p <= |nodes| && root.level < height
    requires ValidSlice(nodes[..p], LeftChild(root), height) && ValidSlice(nodes[p..], RightChild(root), height)
    ensures Chain(nodes, LeftChild(root), height) == Chain(nodes[..p], LeftChild(root), height)
    ensures Chain(nodes, RightChild(root), height) == Chain(nodes[p..], RightChild(root), height)
    ensures p == 0 ==> Chain(nodes, LeftChild(root), height) == 0
    ensures p == |nodes| ==> Chain(nodes, RightChild(root), height) == 0
  {
    PartsOfSlice(nodes, root, height, p);
    SameChain(nodes, nodes[..p], LeftChild(root), height);
    SameChain(nodes, nodes[p..], RightChild(root), height);
    if p == 0 {
      NoChain(nodes[..p], LeftChild(root), height);
    }
    if p == |nodes| {
      NoChain(nodes[p..], RightChild(root), height);
    }
  }

  /** The height of the tree is the longest chain. */
  lemma {:induction false} ChainIsHeight(nodes: seq<NodeKey>, root: NodeKey, height: nat)
    requires ValidSlice(nodes, root, height) && nodes != []
    ensures Chain(nodes, root, height) == Height(TreeOf(nodes, root, height))
    decreases height - root.level
  {
    if |nodes| == 1 {
      NoChain(nodes, root, height);
    } else {
      var p := PartitionPoint(nodes, SplitIndex(root, height));
      TreeOfStep(nodes, root, height, p);
      ChainOfParts(nodes, root, height, p);
      PartsOfSlice(nodes, root, height, p);
      if p > 0 {
        ChainIsHeight(nodes[..p], LeftChild(root), height);
      }
      if p < |nodes| {
        ChainIsHeight(nodes[p..], RightChild(root), height);
      }
    }
  }

  // ----- balance

  /** Every inner child stands exactly one below its parent. */
  predicate EvenHeights(t: NcaTree) {
    t.Branch? ==>
      && (t.l.Branch? ==> Height(t.l) + 1 == Height(t))
      && (t.r.Branch? ==> Height(t.r) + 1 == Height(t))
      && EvenHeights(t.l) && EvenHeights(t.r)
  }

  ghost predicate BalancedUnder(leaves: seq<NodeKey>, root: NodeKey, height: nat) {
    forall v :: Under(v, root) && Splits(leaves, v) ==> Balanced(leaves, v, height)
  }

  lemma UnderChild(v: NodeKey, root: NodeKey)
    requires Under(v, root) && v != root
    ensures Under(v, LeftChild(root)) || Under(v, RightChild(root))
    decreases v.level
  {
    if Parent(v) != root {
      UnderChild(Parent(v), root);
    }
  }

  /** Balance below a node is balance at the node and below its two children. */
  lemma BalanceStep(nodes: seq<NodeKey>, root: NodeKey, height: nat, p: nat)
    requires p <= |nodes| && root.level < height
    requires ValidSlice(nodes[..p], LeftChild(root), height) && ValidSlice(nodes[p..], RightChild(root), height)
    ensures BalancedUnder(nodes, root, height) <==>
            && (0 < p < |nodes| ==> Balanced(nodes, root, height))
            && BalancedUnder(nodes[..p], LeftChild(root), height)
            && BalancedUnder(nodes[p..], RightChild(root), height)
  {
    PartsOfSlice(nodes, root, height, p);
    ChildrenUnder(root);
    forall v
      ensures Under(v, LeftChild(root)) ==> Under(v, root)
                                            && (Splits(nodes, v) <==> Splits(nodes[..p], v))
                                            && (Balanced(nodes, v, height) <==> Balanced(nodes[..p], v, height))
      ensures Under(v, RightChild(root)) ==> Under(v, root)
                                             && (Splits(nodes, v) <==> Splits(nodes[p..], v))
                                             && (Balanced(nodes, v, height) <==> Balanced(nodes[p..], v, height))
      ensures Under(v, root) ==> v == root || Under(v, LeftChild(root)) || Under(v, RightChild(root))
    {
      if Under(v, LeftChild(root)) {
        UnderTransitive(v, LeftChild(root), root);
        SameBalance(nodes, nodes[..p], LeftChild(root), v, height);
      }
      if Under(v, RightChild(root)) {
        UnderTransitive(v, RightChild(root), root);
        SameBalance(nodes, nodes[p..], RightChild(root), v, height);
      }
      if Under(v, root) && v != root {
        UnderChild(v, root);
      }
    }
    assert Under(root, root);
  }

  lemma NoLeavesBalanced(leaves: seq<NodeKey>, root: NodeKey, height: nat)
    requires |leaves| <= 1
    ensures BalancedUnder(leaves, root, height)
  {
    forall v ensures !Splits(leaves, v) { OneLeafSplitsNothing(leaves, v); }
  }

  lemma {:induction false} BalancedIsEven(nodes: seq<NodeKey>, root: NodeKey, height: nat)
    requires ValidSlice(nodes, root, height) && nodes != []
    ensures BalancedUnder(nodes, root, height) <==> EvenHeights(TreeOf(nodes, root, height))
    decreases height - root.level
  {
    if |nodes| == 1 {
      NoLeavesBalanced(nodes, root, height);
    } else {
      var p := PartitionPoint(nodes, SplitIndex(root, height));
      TreeOfStep(nodes, root, height, p);
      BalanceStep(nodes, root, height, p);
      if p == 0 {
        NoLeavesBalanced(nodes[..p], LeftChild(root), height);
        BalancedIsEven(nodes[p..], RightChild(root), height);
      } else if p == |nodes| {
        NoLeavesBalanced(nodes[p..], RightChild(root), height);
        BalancedIsEven(nodes[..p], LeftChild(root), height);
      } else {
        BalancedIsEven(nodes[..p], LeftChild(root), height);
        BalancedIsEven(nodes[p..], RightChild(root), height);
        RootIsEven(nodes, root, height, p);
      }
    }
  }

  lemma RootIsEven(nodes: seq<NodeKey>, root: NodeKey, height: nat, p: nat)
    requires 0 < p < |nodes| && root.level < height
    requires ValidSlice(nodes[..p], LeftChild(root), height) && ValidSlice(nodes[p..], RightChild(root), height)
    ensures var l, r := TreeOf(nodes[..p], LeftChild(root), height), TreeOf(nodes[p..], RightChild(root), height);
            Balanced(nodes, root, height) <==>
            && (l.Branch? ==> Height(l) + 1 == 1 + Max(Height(l), Height(r)))
            && (r.Branch? ==> Height(r) + 1 == 1 + Max(Height(l), Height(r)))
  {
    ChainOfParts(nodes, root, height, p);
    ChainIsHeight(nodes[..p], LeftChild(root), height);
    ChainIsHeight(nodes[p..], RightChild(root), height);
  }
}
