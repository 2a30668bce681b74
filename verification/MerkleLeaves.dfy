/** Merkle roots from any number of leaves: the padded reference and the in-place forms that hash the last
    odd node of a level with that level's zero hash (parth_common/examples/hash_merkle_tree_from_leaves.rs,
    parth_crypto/benches/leaves_v2.rs).  The hash function is arbitrary. */
module MerkleLeaves {
  import opened Wrappers
  import opened Powers

  // ----- the reference

  /** The root of a full binary tree over `Pow2(k)` leaves, by halves. */
  ghost function TreeRoot<T>(h: (T, T) -> T, s: seq<T>, k: nat): T
    requires |s| == Pow2(k)
    decreases k
  {
    if k == 0 then s[0]
    else
      var half := Pow2(k - 1);
      h(TreeRoot(h, s[..half], k - 1), TreeRoot(h, s[half..], k - 1))
  }

  function BitLength(n: nat): nat {
    if n == 0 then 0 else 1 + BitLength(n / 2)
  }

  /** `log2_ceil`: the number of bits of `n - 1`. */
  function Log2Ceil(n: nat): nat {
    BitLength(if n == 0 then 0 else n - 1)
  }

  lemma {:induction false} BitLengthBounds(n: nat)
    ensures n < Pow2(BitLength(n))
    ensures n > 0 ==> Pow2(BitLength(n) - 1) <= n
  {
    if n > 0 {
      BitLengthBounds(n / 2);
    }
  }

  /** The smallest power of two with room for `n` leaves. */
  lemma Log2CeilBounds(n: nat)
    ensures n <= Pow2(Log2Ceil(n))
    ensures Log2Ceil(n) > 0 <==> n > 1
    ensures n > 1 ==> Pow2(Log2Ceil(n) - 1) < n
  {
    BitLengthBounds(if n == 0 then 0 else n - 1);
  }

  function Pad<T>(s: seq<T>, z: T, n: nat): seq<T>
    requires |s| <= n
  {
    s + seq(n - |s|, _ => z)
  }

  /** The root of the leaves padded with the zero value to the next power of two. */
  ghost function PaddedRoot<T>(h: (T, T) -> T, zero: T, leaves: seq<T>): T {
    Log2CeilBounds(|leaves|);
    TreeRoot(h, Pad(leaves, zero, Pow2(Log2Ceil(|leaves|))), Log2Ceil(|leaves|))
  }

  // ----- level by level

  function Collapse<T>(h: (T, T) -> T, s: seq<T>): seq<T>
    requires |s| % 2 == 0
  {
    seq(|s| / 2, i requires 0 <= i < |s| / 2 => h(s[2 * i], s[2 * i + 1]))
  }

  lemma TreeRootOfTwo<T>(h: (T, T) -> T, s: seq<T>)
    requires |s| == 2
    ensures Pow2(1) == 2 && Pow2(0) == 1 && TreeRoot(h, s, 1) == TreeRoot(h, Collapse(h, s), 0)
  {
    assert Pow2(0) == 1;
    assert TreeRoot(h, s[..1], 0) == s[0] && TreeRoot(h, s[1..], 0) == s[1];
  }

  lemma TreeRootSplits<T>(h: (T, T) -> T, s: seq<T>, k: nat, lo: seq<T>, hi: seq<T>)
    requires |s| == Pow2(k + 1) && |lo| == |hi| == Pow2(k) && s == lo + hi
    ensures TreeRoot(h, s, k + 1) == h(TreeRoot(h, lo, k), TreeRoot(h, hi, k))
  {
    assert s[..Pow2(k)] == lo && s[Pow2(k)..] == hi;
  }

  lemma CollapseConcat<T>(h: (T, T) -> T, lo: seq<T>, hi: seq<T>)
    requires |lo| % 2 == 0 && |hi| % 2 == 0
    ensures Collapse(h, lo + hi) == Collapse(h, lo) + Collapse(h, hi)
  {
  }

  lemma SameRoots<T>(h: (T, T) -> T, lo: seq<T>, hi: seq<T>, lo': seq<T>, hi': seq<T>, k: nat)
    requires |lo| == |hi| == Pow2(k + 1) && |lo'| == |hi'| == Pow2(k)
    requires TreeRoot(h, lo, k + 1) == TreeRoot(h, lo', k) && TreeRoot(h, hi, k + 1) == TreeRoot(h, hi', k)
    ensures |lo + hi| == Pow2(k + 2) && |lo' + hi'| == Pow2(k + 1)
    ensures TreeRoot(h, lo + hi, k + 2) == TreeRoot(h, lo' + hi', k + 1)
  {
    TreeRootSplits(h, lo + hi, k + 1, lo, hi);
    TreeRootSplits(h, lo' + hi', k, lo', hi');
  }

  lemma Halves<T>(s: seq<T>, k: nat) returns (lo: seq<T>, hi: seq<T>)
    requires |s| == Pow2(k + 1)
    ensures s == lo + hi && |lo| == |hi| == Pow2(k)
  {
    lo, hi := s[..Pow2(k)], s[Pow2(k)..];
  }

  /** Hashing one full level up leaves the root alone. */
  ghost predicate RootKept<T>(h: (T, T) -> T, s: seq<T>, k: nat) {
    && |s| == Pow2(k + 1)
    && |s| % 2 == 0
    && |Collapse(h, s)| == Pow2(k)
    && TreeRoot(h, s, k + 1) == TreeRoot(h, Collapse(h, s), k)
  }

  lemma CollapseStep<T>(h: (T, T) -> T, lo: seq<T>, hi: seq<T>, k: nat)
    requires RootKept(h, lo, k) && RootKept(h, hi, k)
    ensures RootKept(h, lo + hi, k + 1)
  {
    CollapseConcat(h, lo, hi);
    SameRoots(h, lo, hi, Collapse(h, lo), Collapse(h, hi), k);
  }

  lemma {:induction false} CollapseKeepsRoot<T>(h: (T, T) -> T, s: seq<T>, k: nat)
    requires |s| == Pow2(k + 1)
    ensures RootKept(h, s, k)
    decreases k
  {
    if k == 0 {
      TreeRootOfTwo(h, s);
    } else {
      var lo, hi := Halves(s, k);
      CollapseKeepsRoot(h, lo, k - 1);
      CollapseKeepsRoot(h, hi, k - 1);
      CollapseStep(h, lo, hi, k - 1);
    }
  }

  /** The hash of an empty subtree of height `k`. */
  function ZeroHash<T>(h: (T, T) -> T, zero: T, k: nat): T {
    if k == 0 then zero else h(ZeroHash(h, zero, k - 1), ZeroHash(h, zero, k - 1))
  }

  /** The parent of nodes `2i` and `2i + 1`, where a missing right one is `z`. */
  function ParentAt<T>(h: (T, T) -> T, s: seq<T>, z: T, i: nat): T
    requires 2 * i < |s|
  {
    h(s[2 * i], if 2 * i + 1 < |s| then s[2 * i + 1] else z)
  }

  /** One level up, with the last odd node paired with `z`. */
  function Next<T>(h: (T, T) -> T, s: seq<T>, z: T): seq<T> {
    seq((|s| + 1) / 2, i requires 0 <= i < (|s| + 1) / 2 => ParentAt(h, s, z, i))
  }

  /** Padding one node with the level's zero hash is enough: the rest of the padding stays implicit. */
  lemma NextIsCollapse<T>(h: (T, T) -> T, s: seq<T>, zero: T, level: nat, m: nat)
    requires |s| <= 2 * m
    ensures |Next(h, s, ZeroHash(h, zero, level))| <= m
    ensures Collapse(h, Pad(s, ZeroHash(h, zero, level), 2 * m))
         == Pad(Next(h, s, ZeroHash(h, zero, level)), ZeroHash(h, zero, level + 1), m)
  {
    var z := ZeroHash(h, zero, level);
    var padded := Pad(s, z, 2 * m);
    var up := Pad(Next(h, s, z), ZeroHash(h, zero, level + 1), m);
    forall i | 0 <= i < m
      ensures Collapse(h, padded)[i] == up[i]
    {
      assert padded[2 * i] == if 2 * i < |s| then s[2 * i] else z;
      assert padded[2 * i + 1] == if 2 * i + 1 < |s| then s[2 * i + 1] else z;
    }
  }

  /** What every form keeps: the current nodes, padded with the level's zero hash, have the wanted root. */
  ghost predicate SameRoot<T>(h: (T, T) -> T, zero: T, leaves: seq<T>, nodes: seq<T>, level: nat) {
    var k := Log2Ceil(|nodes|);
    && nodes != []
    && |nodes| <= Pow2(k)
    && TreeRoot(h, Pad(nodes, ZeroHash(h, zero, level), Pow2(k)), k) == PaddedRoot(h, zero, leaves)
  }

  lemma Log2CeilHalves(n: nat)
    requires n > 1
    ensures Log2Ceil((n + 1) / 2) == Log2Ceil(n) - 1
  {
    assert (n + 1) / 2 - 1 == (n - 1) / 2;
  }

  lemma NextKeepsRoot<T>(h: (T, T) -> T, zero: T, leaves: seq<T>, nodes: seq<T>, level: nat)
    requires SameRoot(h, zero, leaves, nodes, level) && |nodes| > 1
    ensures SameRoot(h, zero, leaves, Next(h, nodes, ZeroHash(h, zero, level)), level + 1)
  {
    var k := Log2Ceil(|nodes|);
    Log2CeilBounds(|nodes|);
    Log2CeilHalves(|nodes|);
    NextIsCollapse(h, nodes, zero, level, Pow2(k - 1));
    CollapseKeepsRoot(h, Pad(nodes, ZeroHash(h, zero, level), Pow2(k)), k - 1);
  }

  lemma LeavesHaveRoot<T>(h: (T, T) -> T, zero: T, leaves: seq<T>)
    requires leaves != []
    ensures SameRoot(h, zero, leaves, leaves, 0)
  {
    Log2CeilBounds(|leaves|);
  }

  lemma OneNodeIsRoot<T>(h: (T, T) -> T, zero: T, leaves: seq<T>, nodes: seq<T>, level: nat)
    requires SameRoot(h, zero, leaves, nodes, level) && |nodes| == 1
    ensures nodes[0] == PaddedRoot(h, zero, leaves)
  {
  }

  // ----- zero hashes

  const ZERO_HASH_CACHE_SIZE: nat := 128

  /** `generate_zero_hashes`. */
  method GenerateZeroHashes<T>(h: (T, T) -> T, zero: T) returns (cache: seq<T>)
    ensures |cache| == ZERO_HASH_CACHE_SIZE
    ensures forall k :: 0 <= k < |cache| ==> cache[k] == ZeroHash(h, zero, k)
  {
    cache := [zero];
    for i := 1 to ZERO_HASH_CACHE_SIZE
      invariant |cache| == i && forall k :: 0 <= k < i ==> cache[k] == ZeroHash(h, zero, k)
    {
      cache := cache + [h(cache[i - 1], cache[i - 1])];
    }
  }

  /** `get_zero_hash`: from the table, or from its last entry by further hashing. */
  method GetZeroHash<T>(h: (T, T) -> T, ghost zero: T, cache: seq<T>, level: nat) returns (z: T)
    requires |cache| == ZERO_HASH_CACHE_SIZE
    requires forall k :: 0 <= k < |cache| ==> cache[k] == ZeroHash(h, zero, k)
    ensures z == ZeroHash(h, zero, level)
  {
    if level < ZERO_HASH_CACHE_SIZE {
      return cache[level];
    }
    z := cache[ZERO_HASH_CACHE_SIZE - 1];
    for i := 0 to level - ZERO_HASH_CACHE_SIZE + 1
      invariant z == ZeroHash(h, zero, ZERO_HASH_CACHE_SIZE - 1 + i)
    {
      z := h(z, z);
    }
  }

  // ----- the padded forms

  /** One level of new nodes from an even number of old ones. */
  method PairUp<T>(h: (T, T) -> T, s: seq<T>) returns (up: seq<T>)
    requires |s| % 2 == 0
    ensures up == Collapse(h, s)
  {
    up := [];
    for i := 0 to |s| / 2
      invariant |up| == i && forall j :: 0 <= j < i ==> up[j] == h(s[2 * j], s[2 * j + 1])
    {
      up := up + [h(s[2 * i], s[2 * i + 1])];
    }
  }

  /** Hashes a full level up until one node is left. */
  method HalveToRoot<T>(h: (T, T) -> T, leaves: seq<T>, ghost k: nat) returns (root: T)
    requires |leaves| == Pow2(k)
    ensures root == TreeRoot(h, leaves, k)
  {
    var nodes := leaves;
    ghost var m := k;
    while |nodes| > 1
      invariant |nodes| == Pow2(m)
      invariant TreeRoot(h, nodes, m) == TreeRoot(h, leaves, k)
      decreases m
    {
      CollapseKeepsRoot(h, nodes, m - 1);
      nodes := PairUp(h, nodes);
      m := m - 1;
    }
    root := nodes[0];
  }

  /** `compute_root_from_leaves`: refuses everything but a power of two. */
  method ComputeRootFromLeaves<T>(h: (T, T) -> T, leaves: seq<T>) returns (r: Result<T>)
    ensures leaves == [] ==> r == Err
    ensures leaves != [] && |leaves| != Pow2(Log2Ceil(|leaves|)) ==> r == Err
    ensures leaves != [] && |leaves| == Pow2(Log2Ceil(|leaves|)) ==> r == Ok(TreeRoot(h, leaves, Log2Ceil(|leaves|)))
  {
    if leaves == [] {
      return Err;
    }
    ghost var k := Log2Ceil(|leaves|);
    Log2CeilBounds(|leaves|);
    if |leaves| == 1 {
      return Ok(leaves[0]);
    }
    if |leaves| == 2 {
      TreeRootOfTwo(h, leaves);
      return Ok(h(leaves[0], leaves[1]));
    }
    if |leaves| != Pow2(Log2Ceil(|leaves|)) {
      return Err;
    }
    CollapseKeepsRoot(h, leaves, k - 1);
    var nodes := PairUp(h, leaves);
    var root := HalveToRoot(h, nodes, k - 1);
    r := Ok(root);
  }

  /** The padding loop. */
  method PadLeaves<T>(leaves: seq<T>, zero: T, target: nat) returns (nodes: seq<T>)
    requires |leaves| <= target
    ensures nodes == Pad(leaves, zero, target)
  {
    nodes := leaves;
    while |nodes| < target
      invariant |leaves| <= |nodes| <= target
      invariant nodes == Pad(leaves, zero, |nodes|)
    {
      nodes := nodes + [zero];
    }
  }

  /** One level of the naive form: a stride of two, the zero value for a missing right node. */
  method PairUpByStride<T>(h: (T, T) -> T, s: seq<T>, zero: T) returns (up: seq<T>)
    ensures up == Next(h, s, zero)
  {
    up := [];
    var i := 0;
    while i < |s|
      invariant i == 2 * |up| && i <= |s| + 1
      invariant forall j :: 0 <= j < |up| ==> up[j] == ParentAt(h, s, zero, j)
    {
      var right := if i + 1 < |s| then s[i + 1] else zero;
      up := up + [h(s[i], right)];
      i := i + 2;
    }
  }

  lemma NextOfEven<T>(h: (T, T) -> T, s: seq<T>, z: T)
    requires |s| % 2 == 0
    ensures Next(h, s, z) == Collapse(h, s)
  {
  }

  /** The level loop of the naive form. */
  method StrideToRoot<T>(h: (T, T) -> T, zero: T, leaves: seq<T>, ghost k: nat) returns (root: T)
    requires |leaves| == Pow2(k)
    ensures root == TreeRoot(h, leaves, k)
  {
    var nodes := leaves;
    ghost var m := k;
    while |nodes| > 1
      invariant |nodes| == Pow2(m)
      invariant TreeRoot(h, nodes, m) == TreeRoot(h, leaves, k)
      decreases m
    {
      CollapseKeepsRoot(h, nodes, m - 1);
      NextOfEven(h, nodes, zero);
      nodes := PairUpByStride(h, nodes, zero);
      m := m - 1;
    }
    root := nodes[0];
  }

  /** `hash_merkle_leaves_to_root_naive_pad`: pad, then hash level by level.  The comparison it makes with
      the library root never fails.  No leaves at all give the zero value. */
  method NaivePaddedRoot<T(==)>(h: (T, T) -> T, zero: T, leaves: seq<T>) returns (root: T, rootsMatch: bool)
    ensures root == PaddedRoot(h, zero, leaves)
    ensures rootsMatch
  {
    ghost var k := Log2Ceil(|leaves|);
    Log2CeilBounds(|leaves|);
    PowerOfTwoLog(k);
    var nodes := PadLeaves(leaves, zero, Pow2(Log2Ceil(|leaves|)));
    var libRoot := ComputeRootFromLeaves(h, nodes);
    root := StrideToRoot(h, zero, nodes, k);
    rootsMatch := libRoot == Ok(root);
  }

  lemma {:induction false} BitLengthOfOnes(k: nat)
    ensures BitLength(Pow2(k) - 1) == k
  {
    if k > 0 {
      BitLengthOfOnes(k - 1);
      assert (Pow2(k) - 1) / 2 == Pow2(k - 1) - 1;
    }
  }

  lemma PowerOfTwoLog(k: nat)
    ensures Log2Ceil(Pow2(k)) == k
  {
    BitLengthOfOnes(k);
  }

  // ----- the in-place forms

  /** The pair loop of the first two forms: node `i` is overwritten with the hash of nodes `2i` and `2i+1`. */
  method HashPairs<T>(h: (T, T) -> T, a: array<T>, n: nat)
    requires n <= a.Length
    modifies a
    ensures forall j :: 0 <= j < n / 2 ==> a[j] == h(old(a[2 * j]), old(a[2 * j + 1]))
    ensures forall j :: n / 2 <= j < a.Length ==> a[j] == old(a[j])
  {
    for i := 0 to n / 2
      invariant forall j :: 0 <= j < i ==> a[j] == h(old(a[2 * j]), old(a[2 * j + 1]))
      invariant forall j :: i <= j < a.Length ==> a[j] == old(a[j])
    {
      a[i] := h(a[2 * i], a[2 * i + 1]);
    }
  }

  /** One level in place: pairs first, then the odd node; returns the number of nodes left. */
  method CollapseLevel<T>(h: (T, T) -> T, a: array<T>, n: nat, z: T) returns (next: nat)
    requires 1 < n <= a.Length
    modifies a
    ensures next == (n + 1) / 2 && next <= a.Length
    ensures a[..next] == Next(h, old(a[..n]), z)
  {
    HashPairs(h, a, n);
    next := n / 2;
    if n % 2 == 1 {
      var last := a[n - 1];
      a[next] := h(last, z);
      next := next + 1;
    }
  }

  /** One level in place with a stride of two and a separate write cursor. */
  method CollapseLevelByStride<T>(h: (T, T) -> T, a: array<T>, n: nat, z: T) returns (cursor: nat)
    requires 1 < n <= a.Length
    modifies a
    ensures cursor == (n + 1) / 2 && cursor <= a.Length
    ensures a[..cursor] == Next(h, old(a[..n]), z)
  {
    cursor := 0;
    var i := 0;
    ghost var s := a[..n];
    while i < n
      invariant i == 2 * cursor && i <= n + 1
      invariant forall j :: 0 <= j < cursor ==> a[j] == ParentAt(h, s, z, j)
      invariant forall j :: cursor <= j < n ==> a[j] == s[j]
    {
      if i + 1 < n {
        a[cursor] := h(a[i], a[i + 1]);
      } else {
        a[cursor] := h(a[i], z);
      }
      cursor := cursor + 1;
      i := i + 2;
    }
  }

  /** `hash_merkle_from_leaves_2`. */
  method FromLeaves2<T>(h: (T, T) -> T, zero: T, leaves: seq<T>) returns (r: Result<T>)
    ensures r == if leaves == [] then Err else Ok(PaddedRoot(h, zero, leaves))
  {
    if leaves == [] {
      return Err;
    }
    var nodes := new T[|leaves|](i requires 0 <= i < |leaves| => leaves[i]);
    var n, level := |leaves|, 0;
    assert nodes[..n] == leaves;
    LeavesHaveRoot(h, zero, leaves);
    while n > 1
      invariant 1 <= n <= nodes.Length
      invariant SameRoot(h, zero, leaves, nodes[..n], level)
      decreases n
    {
      NextKeepsRoot(h, zero, leaves, nodes[..n], level);
      n := CollapseLevel(h, nodes, n, ZeroHash(h, zero, level));
      level := level + 1;
    }
    OneNodeIsRoot(h, zero, leaves, nodes[..n], level);
    r := Ok(nodes[0]);
  }

  /** `hash_merkle_from_leaves_3`. */
  method FromLeaves3<T>(h: (T, T) -> T, zero: T, leaves: seq<T>) returns (r: Result<T>)
    ensures r == if leaves == [] then Err else Ok(PaddedRoot(h, zero, leaves))
  {
    if leaves == [] {
      return Err;
    }
    LeavesHaveRoot(h, zero, leaves);
    if |leaves| == 1 {
      OneNodeIsRoot(h, zero, leaves, leaves, 0);
      return Ok(leaves[0]);
    }
    var nodes := new T[|leaves|](i requires 0 <= i < |leaves| => leaves[i]);
    var n, level := |leaves|, 0;
    assert nodes[..n] == leaves;
    while n > 1
      invariant 1 <= n <= nodes.Length
      invariant SameRoot(h, zero, leaves, nodes[..n], level)
      decreases n
    {
      NextKeepsRoot(h, zero, leaves, nodes[..n], level);
      n := CollapseLevelByStride(h, nodes, n, ZeroHash(h, zero, level));
      level := level + 1;
    }
    OneNodeIsRoot(h, zero, leaves, nodes[..n], level);
    r := Ok(nodes[0]);
  }

  lemma TwoLeaves<T>(h: (T, T) -> T, zero: T, leaves: seq<T>)
    requires |leaves| == 2
    ensures h(leaves[0], leaves[1]) == PaddedRoot(h, zero, leaves)
  {
    LeavesHaveRoot(h, zero, leaves);
    NextKeepsRoot(h, zero, leaves, leaves, 0);
    OneNodeIsRoot(h, zero, leaves, Next(h, leaves, zero), 1);
  }

  /** The first level of the first form, built into a new vector of half the size. */
  method FirstLevel<T>(h: (T, T) -> T, zero: T, leaves: seq<T>) returns (nodes: array<T>)
    requires |leaves| > 2
    ensures fresh(nodes) && nodes[..] == Next(h, leaves, zero)
  {
    var up: seq<T> := [];
    for i := 0 to |leaves| / 2
      invariant |up| == i && forall j :: 0 <= j < i ==> up[j] == h(leaves[2 * j], leaves[2 * j + 1])
    {
      up := up + [h(leaves[2 * i], leaves[2 * i + 1])];
    }
    if |leaves| % 2 == 1 {
      up := up + [h(leaves[|leaves| - 1], zero)];
    }
    nodes := new T[|up|](i requires 0 <= i < |up| => up[i]);
    assert nodes[..] == up;
  }

  /** `hash_merkle_from_leaves_1`, which is also `hash_merkle_leaves_v2`. */
  method FromLeaves1<T>(h: (T, T) -> T, zero: T, leaves: seq<T>) returns (r: Result<T>)
    ensures r == if leaves == [] then Err else Ok(PaddedRoot(h, zero, leaves))
  {
    if leaves == [] {
      return Err;
    }
    LeavesHaveRoot(h, zero, leaves);
    if |leaves| == 1 {
      OneNodeIsRoot(h, zero, leaves, leaves, 0);
      return Ok(leaves[0]);
    }
    if |leaves| == 2 {
      TwoLeaves(h, zero, leaves);
      return Ok(h(leaves[0], leaves[1]));
    }
    NextKeepsRoot(h, zero, leaves, leaves, 0);
    var nodes := FirstLevel(h, zero, leaves);
    var n, level := nodes.Length, 1;
    assert nodes[..n] == nodes[..];
    while n > 1
      invariant 1 <= n <= nodes.Length && fresh(nodes)
      invariant SameRoot(h, zero, leaves, nodes[..n], level)
      decreases n
    {
      NextKeepsRoot(h, zero, leaves, nodes[..n], level);
      n := CollapseLevel(h, nodes, n, ZeroHash(h, zero, level));
      level := level + 1;
    }
    OneNodeIsRoot(h, zero, leaves, nodes[..n], level);
    r := Ok(nodes[0]);
  }
}
