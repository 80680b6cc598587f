/** The stable tree of shared pages: a search tree of hashes whose entries hold, in a
    search tree of their own, the nodes with that hash, told apart by their
    full-strength hashes. Rebuilding it moves every hash to a new strength. */
module StableTree {
  import opened Words
  import opened PageHash
  import opened Lists
  import opened RbTree
  import opened Benefit
  import opened Collision

  /** `struct stable_node`. The page is write-protected, so its words stay as they
      are; `sharers` counts the rmap_items of each node_vma on the hlist. */
  class StableNode {
    const page: Page
    const kpfn: nat
    const sharers: seq<nat>
    var treeNode: TreeNode?
    var hashMax: u32

    constructor (page: Page, kpfn: nat, sharers: seq<nat>)
      ensures this.page == page && this.kpfn == kpfn && this.sharers == sharers
      ensures treeNode == null && hashMax == 0
    {
      this.page, this.kpfn, this.sharers := page, kpfn, sharers;
      treeNode, hashMax := null, 0;
    }
  }

  /** `struct tree_node`; its hash is set once, before it is linked. */
  class TreeNode {
    const hash: u32
    var subRoot: Tree<StableNode>
    var count: nat

    constructor (hash: u32)
      ensures this.hash == hash && subRoot == Leaf && count == 0
    {
      this.hash := hash;
      subRoot, count := Leaf, 0;
    }
  }

  // ---------------------------------------------------------------------------
  // Pages shared and sharing
  // ---------------------------------------------------------------------------

  ghost function Sum(counts: seq<nat>): nat {
    if counts == [] then 0 else Sum(counts[..|counts| - 1]) + counts[|counts| - 1]
  }

  /** The rmap_items attached to the nodes of a list. */
  ghost function Items(ns: seq<StableNode>): nat {
    if ns == [] then 0 else Sum(ns[0].sharers) + Items(ns[1..])
  }

  /** The nodes that have any. */
  ghost function SharedNodes(ns: seq<StableNode>): nat {
    if ns == [] then 0 else (if ns[0].sharers == [] then 0 else 1) + SharedNodes(ns[1..])
  }

  /** A node_vma is there because an rmap_item is. */
  ghost predicate EachShares(ns: seq<StableNode>) {
    forall i, j :: 0 <= i < |ns| && 0 <= j < |ns[i].sharers| ==> ns[i].sharers[j] > 0
  }

  lemma {:induction false} WithoutCounts(ns: seq<StableNode>, n: StableNode)
    requires n in ns
    ensures Items(Without(ns, n)) + Sum(n.sharers) == Items(ns)
    ensures SharedNodes(Without(ns, n)) + (if n.sharers == [] then 0 else 1) == SharedNodes(ns)
    decreases |ns|
  {
    if ns[0] != n {
      var w := Without(ns[1..], n);
      assert ([ns[0]] + w)[1..] == w;
      WithoutCounts(ns[1..], n);
    }
  }

  lemma {:induction false} SharedAtMostItems(ns: seq<StableNode>)
    requires EachShares(ns)
    ensures SharedNodes(ns) <= Items(ns)
    decreases |ns|
  {
    if ns != [] {
      SharedAtMostItems(ns[1..]);
      if ns[0].sharers != [] {
        assert Sum(ns[0].sharers) >= ns[0].sharers[|ns[0].sharers| - 1];
      }
    }
  }

  function Linked(ns: seq<StableNode>): seq<bool>
    reads ns
  {
    seq(|ns|, k requires 0 <= k < |ns| reads ns => ns[k].treeNode != null)
  }

  ghost function Caches(ns: seq<StableNode>): (cs: seq<u32>)
    reads ns
    ensures |cs| == |ns|
  {
    seq(|ns|, k requires 0 <= k < |ns| reads ns => ns[k].hashMax)
  }

  // ---------------------------------------------------------------------------
  // What filling the caches costs
  // ---------------------------------------------------------------------------

  /** The nodes whose full-strength hash has not been computed yet. */
  ghost function Uncached(ns: set<StableNode>): set<StableNode>
    reads ns
  {
    set n | n in ns && n.hashMax == 0
  }

  /** A counter charged `cost` units for each node that left the set, and no more. */
  ghost predicate Paid(before: set<StableNode>, after: set<StableNode>, cost: nat, was: u64, now: u64) {
    after <= before && now == (was + cost * (|before| - |after|)) % U64_SIZE
  }

  lemma PaidNothing(s: set<StableNode>, cost: nat, was: u64)
    ensures Paid(s, s, cost, was, was)
  {
  }

  lemma PaidOne(s: set<StableNode>, n: StableNode, cost: nat, was: u64)
    requires n in s
    ensures Paid(s, s - {n}, cost, was, (was + cost) % U64_SIZE)
  {
    assert s == s - {n} + {n};
    assert |s| - |s - {n}| == 1;
  }

  lemma PaidBoth(a: set<StableNode>, b: set<StableNode>, c: set<StableNode>, cost: nat, x: u64, y: u64, z: u64)
    requires Paid(a, b, cost, x, y) && Paid(b, c, cost, y, z)
    ensures Paid(a, c, cost, x, z)
  {
    var m, n: int := |a| - |b|, |b| - |c|;
    Distribute(m, n, cost);
    TakeAway(x + cost * m, -(cost * n));
  }

  /** From zero, and with the whole bill below 2^64, the charge is exact: a rebuild
      stays within any room for `cost` units a node. */
  lemma PaidFits(before: set<StableNode>, after: set<StableNode>, cost: nat, now: u64)
    requires Paid(before, after, cost, 0, now) && cost * |before| < U64_SIZE
    ensures now == cost * (|before| - |after|) <= cost * |before|
  {
    assert before == after + (before - after);
    var filled := |before - after|;
    assert |before| - |after| == filled;
    ScaleMonotone(filled, |before|, cost);
    DivModUnique(cost * filled, U64_SIZE, 0, cost * filled);
  }

  // ---------------------------------------------------------------------------
  // Order and shape
  // ---------------------------------------------------------------------------

  predicate Rising(ts: seq<TreeNode>) {
    forall i, j :: 0 <= i < j < |ts| ==> ts[i].hash < ts[j].hash
  }

  ghost predicate Ascending(ns: seq<StableNode>)
    reads ns
  {
    forall i, j :: 0 <= i < j < |ns| ==> ns[i].hashMax < ns[j].hashMax
  }

  /** A tree node counts its nodes, at least one; with two or more, every
      full-strength hash is filled in and they ascend strictly. */
  ghost predicate SubTreeOk(t: TreeNode, done: set<StableNode>)
    reads t, done
  {
    t.count == |InOrder(t.subRoot)| >= 1 && NodesOk(t, InOrder(t.subRoot), done)
  }

  ghost predicate NodesOk(t: TreeNode, ns: seq<StableNode>, done: set<StableNode>)
    reads done
  {
    && (forall i :: 0 <= i < |ns| ==> ns[i] in done && ns[i].treeNode == t)
    && (|ns| >= 2 ==>
          && (forall i :: 0 <= i < |ns| ==> ns[i] in done && ns[i].hashMax != 0)
          && (forall i, j :: 0 <= i < j < |ns| ==> ns[i] in done && ns[j] in done && ns[i].hashMax < ns[j].hashMax))
  }

  /** The first level ascends strictly and holds the tree nodes of the list. */
  ghost predicate FirstLevelOk(root: Tree<TreeNode>, list: seq<TreeNode>) {
    && Rising(InOrder(root))
    && (forall t :: t in InOrder(root) ==> t in list)
    && (forall t :: t in list ==> t in InOrder(root))
    && Distinct(list)
  }

  lemma SplitAt<T>(b: seq<T>, l: seq<T>, x: T, r: seq<T>, a: seq<T>)
    ensures var s := b + (l + [x] + r) + a;
      && (forall i :: 0 <= i < |b| ==> s[i] == b[i])
      && (forall i :: 0 <= i < |l| ==> s[|b| + i] == l[i])
      && s[|b| + |l|] == x
      && (forall i :: 0 <= i < |r| ==> s[|b| + |l| + 1 + i] == r[i])
  {
  }

  lemma RisingAround(b: seq<TreeNode>, l: seq<TreeNode>, x: TreeNode, r: seq<TreeNode>, a: seq<TreeNode>,
                     s: seq<TreeNode>)
    requires s == b + (l + [x] + r) + a && Rising(s)
    ensures forall i :: 0 <= i < |l| ==> l[i].hash < x.hash
    ensures forall i :: 0 <= i < |r| ==> x.hash < r[i].hash
  {
    SplitAt(b, l, x, r, a);
  }

  lemma AscendingAround(b: seq<StableNode>, l: seq<StableNode>, x: StableNode, r: seq<StableNode>, a: seq<StableNode>,
                        s: seq<StableNode>)
    requires s == b + (l + [x] + r) + a && Ascending(s)
    ensures forall i :: 0 <= i < |l| ==> l[i].hashMax < x.hashMax
    ensures forall i :: 0 <= i < |r| ==> x.hashMax < r[i].hashMax
  {
    SplitAt(b, l, x, r, a);
    forall i | 0 <= i < |l| ensures l[i].hashMax < x.hashMax {
      assert s[|b| + i] == l[i] && s[|b| + |l|] == x;
    }
    forall i | 0 <= i < |r| ensures x.hashMax < r[i].hashMax {
      assert s[|b| + |l| + 1 + i] == r[i] && s[|b| + |l|] == x;
    }
  }

  /** The order of a tree after a node is hung on an empty link. */
  function Spliced<T>(root: Tree<T>, path: seq<Side>, x: T): seq<T> {
    Before(root, path) + [x] + After(root, path)
  }

  lemma SplicedPlaces<T>(root: Tree<T>, path: seq<Side>, x: T)
    requires At(root, path).Leaf?
    ensures var s, n := Spliced(root, path, x), |Before(root, path)|;
      && |s| == |InOrder(root)| + 1 == n + 1 + |After(root, path)| && s[n] == x
      && (forall i :: 0 <= i < n ==> s[i] == InOrder(root)[i] == Before(root, path)[i])
      && (forall i :: n < i < |s| ==> s[i] == InOrder(root)[i - 1] == After(root, path)[i - n - 1])
  {
    hide At, Before, After;
    InOrderAround(root, path);
    assert InOrder(root) == Before(root, path) + After(root, path);
  }

  lemma SplicedMembers<T>(root: Tree<T>, path: seq<Side>, x: T)
    requires At(root, path).Leaf?
    ensures var s := Spliced(root, path, x);
      && |s| == |InOrder(root)| + 1
      && (forall i :: 0 <= i < |s| ==> s[i] == x || s[i] in InOrder(root))
      && (forall y :: y in InOrder(root) ==> y in s)
      && x in s
  {
    hide At, Before, After, Spliced, InOrder;
    SplicedPlaces(root, path, x);
    var s, n := Spliced(root, path, x), |Before(root, path)|;
    forall y | y in InOrder(root) ensures y in s {
      var k :| 0 <= k < |InOrder(root)| && InOrder(root)[k] == y;
      assert s[if k < n then k else k + 1] == y;
    }
  }

  lemma SplicedAscending(root: Tree<StableNode>, path: seq<Side>, x: StableNode)
    requires At(root, path).Leaf? && Ascending(InOrder(root))
    requires forall i :: 0 <= i < |Before(root, path)| ==> Before(root, path)[i].hashMax < x.hashMax
    requires forall i :: 0 <= i < |After(root, path)| ==> After(root, path)[i].hashMax > x.hashMax
    ensures Ascending(Spliced(root, path, x))
  {
    hide At, Before, After, Spliced, InOrder;
    SplicedPlaces(root, path, x);
    var s, n := Spliced(root, path, x), |Before(root, path)|;
    forall i, j | 0 <= i < j < |s| ensures s[i].hashMax < s[j].hashMax {
      if j == n {
        assert s[i] == Before(root, path)[i];
      } else if i == n {
        assert s[j] == After(root, path)[j - n - 1];
      } else {
        assert s[i] == InOrder(root)[if i < n then i else i - 1];
        assert s[j] == InOrder(root)[if j < n then j else j - 1];
      }
    }
  }

  /** Before it is linked, the new node fits among those of the sub-tree. */
  lemma SplicedFits(t: TreeNode, path: seq<Side>, x: StableNode, done: set<StableNode>)
    requires SubTreeOk(t, done) && x.hashMax != 0 && At(t.subRoot, path).Leaf?
    requires forall i :: 0 <= i < |InOrder(t.subRoot)| ==> InOrder(t.subRoot)[i].hashMax != 0
    requires forall i :: 0 <= i < |Before(t.subRoot, path)| ==> Before(t.subRoot, path)[i].hashMax < x.hashMax
    requires forall i :: 0 <= i < |After(t.subRoot, path)| ==> After(t.subRoot, path)[i].hashMax > x.hashMax
    ensures Ascending(Spliced(t.subRoot, path, x))
    ensures forall i :: 0 <= i < |Spliced(t.subRoot, path, x)| ==>
      var n := Spliced(t.subRoot, path, x)[i];
      n in done + {x} && n.hashMax != 0 && (n == x || n.treeNode == t)
  {
    hide At, Before, After, Spliced;
    SplicedMembers(t.subRoot, path, x);
    SplicedAscending(t.subRoot, path, x);
  }

  /** `stable_node_reinsert`'s first walk: down to the hash, or to the link where it
      would hang. */
  method FindTreeNode(root: Tree<TreeNode>, hash: u32) returns (path: seq<Side>)
    requires Rising(InOrder(root))
    ensures At(root, path).Node? ==> At(root, path).item.hash == hash
    ensures At(root, path).Leaf? ==>
      && (forall i :: 0 <= i < |Before(root, path)| ==> Before(root, path)[i].hash < hash)
      && (forall i :: 0 <= i < |After(root, path)| ==> After(root, path)[i].hash > hash)
  {
    hide At, Before, After;
    TopOfTree(root);
    path := [];
    var cur := root;
    while cur.Node?
      invariant cur == At(root, path)
      invariant forall i :: 0 <= i < |Before(root, path)| ==> Before(root, path)[i].hash < hash
      invariant forall i :: 0 <= i < |After(root, path)| ==> After(root, path)[i].hash > hash
      decreases cur
    {
      InOrderAround(root, path);
      RisingAround(Before(root, path), InOrder(cur.left), cur.item, InOrder(cur.right), After(root, path), InOrder(root));
      if hash < cur.item.hash {
        Descend(root, path, Side.Left);
        path := path + [Side.Left];
        cur := cur.left;
      } else if hash > cur.item.hash {
        Descend(root, path, Side.Right);
        path := path + [Side.Right];
        cur := cur.right;
      } else {
        return;
      }
    }
  }

  /** Its second walk, by full-strength hash. */
  method FindSlot(root: Tree<StableNode>, key: u32) returns (path: seq<Side>)
    requires Ascending(InOrder(root))
    ensures At(root, path).Node? ==> At(root, path).item in InOrder(root) && At(root, path).item.hashMax == key
    ensures At(root, path).Leaf? ==>
      && (forall i :: 0 <= i < |Before(root, path)| ==> Before(root, path)[i].hashMax < key)
      && (forall i :: 0 <= i < |After(root, path)| ==> After(root, path)[i].hashMax > key)
  {
    hide At, Before, After;
    TopOfTree(root);
    path := [];
    var cur := root;
    while cur.Node?
      invariant cur == At(root, path) && Ascending(InOrder(root))
      invariant forall i :: 0 <= i < |Before(root, path)| ==> Before(root, path)[i].hashMax < key
      invariant forall i :: 0 <= i < |After(root, path)| ==> After(root, path)[i].hashMax > key
      decreases cur
    {
      InOrderAround(root, path);
      AscendingAround(Before(root, path), InOrder(cur.left), cur.item, InOrder(cur.right), After(root, path), InOrder(root));
      if key < cur.item.hashMax {
        Descend(root, path, Side.Left);
        path := path + [Side.Left];
        cur := cur.left;
      } else if key > cur.item.hashMax {
        Descend(root, path, Side.Right);
        path := path + [Side.Right];
        cur := cur.right;
      } else {
        return;
      }
    }
  }

  // ---------------------------------------------------------------------------
  // The stable tree in place
  // ---------------------------------------------------------------------------

  /** The globals of the stable tree. `live(i, f)` says whether frame `f` still belongs
      to its node when it is looked at for the i-th time, `memory(i)` whether the i-th
      allocation succeeds; both are arbitrary. */
  class StableForest {
    const nums: seq<nat>
    const live: (nat, nat) -> bool
    const memory: nat -> bool
    var looks: nat
    var allocs: nat
    var nodes: seq<StableNode>
    var treeIndex: nat
    var current: nat
    var roots: seq<Tree<TreeNode>>
    var lists: seq<seq<TreeNode>>
    var pagesShared: u64
    var pagesSharing: u64

    constructor (nums: seq<nat>, live: (nat, nat) -> bool, memory: nat -> bool)
      ensures this.nums == nums && this.live == live && this.memory == memory
      ensures Pairs() && current == treeIndex && nodes == [] && roots == [Leaf, Leaf] && lists == [[], []]
      ensures pagesShared == pagesSharing == 0
    {
      this.nums, this.live, this.memory := nums, live, memory;
      looks, allocs, nodes, treeIndex, current := 0, 0, [], 0, 0;
      roots, lists := [Leaf, Leaf], [[], []];
      pagesShared, pagesSharing := 0, 0;
    }

    /** The two trees, one in use and one to build into. */
    predicate Pairs()
      reads this
    {
      |roots| == |lists| == 2 && treeIndex < 2 && current < 2
    }

    function HashAt(n: StableNode, strength: nat): u32
      requires Fits(n.page, nums) && strength <= StrengthMax(nums)
    {
      SampleHash(n.page, nums, strength)
    }

    function FullKey(n: StableNode): (key: u32)
      requires Fits(n.page, nums)
      ensures key != 0
    {
      Sentinel(SampleHash(n.page, nums, StrengthMax(nums)))
    }

    /** The counters tell the shared nodes, and with them all attached items. */
    ghost predicate Balanced()
      reads this
    {
      && pagesShared == SharedNodes(nodes)
      && pagesShared + pagesSharing == Items(nodes)
    }

    /** One decrement for each rmap_item of a node_vma. */
    method UncountSharers(count: nat)
      modifies this`pagesSharing
      ensures pagesSharing == (old(pagesSharing) - count) % U64_SIZE
    {
      for j := 0 to count
        invariant pagesSharing == (old(pagesSharing) - j) % U64_SIZE
      {
        TakeAway(old(pagesSharing) - j, 1);
        pagesSharing := (pagesSharing - 1) % U64_SIZE;
      }
    }

    /** The counters of `remove_node_from_stable_tree`: one item less sharing for each
        that leaves, and one page less shared, its own item never having counted. The
        decrements may pass through zero on the way. */
    method UncountItems(node: StableNode)
      modifies this`pagesShared, this`pagesSharing
      ensures node.sharers == [] ==> pagesShared == old(pagesShared) && pagesSharing == old(pagesSharing)
      ensures node.sharers != [] ==>
        && pagesShared == (old(pagesShared) - 1) % U64_SIZE
        && pagesSharing == (old(pagesSharing) - Sum(node.sharers) + 1) % U64_SIZE
    {
      if node.sharers != [] {
        for i := 0 to |node.sharers|
          invariant pagesShared == old(pagesShared)
          invariant pagesSharing == (old(pagesSharing) - Sum(node.sharers[..i])) % U64_SIZE
        {
          ghost var left := old(pagesSharing) - Sum(node.sharers[..i]);
          TakeAway(left, node.sharers[i]);
          UncountSharers(node.sharers[i]);
          assert node.sharers[..i + 1][..i] == node.sharers[..i];
        }
        assert node.sharers[..|node.sharers|] == node.sharers;
        TakeAway(old(pagesSharing) - Sum(node.sharers), -1);
        pagesShared := (pagesShared - 1) % U64_SIZE;
        pagesSharing := (pagesSharing + 1) % U64_SIZE;
      }
    }

    /** Its tree part: out of the sub-tree, and out with the tree node too when that
        was the last one and it is not to be kept. */
    method UnlinkNode(node: StableNode, t: TreeNode, removeTreeNode: bool)
      requires Pairs() && t.count >= 1
      modifies this`roots, this`lists, t
      ensures Pairs() && InOrder(t.subRoot) == Without(old(InOrder(t.subRoot)), node)
      ensures
        if t.subRoot == Leaf && removeTreeNode then
          && roots == old(roots)[current := Erase(old(roots[current]), t)]
          && lists == old(lists)[current := Without(old(lists[current]), t)]
        else
          t.count == old(t.count) - 1 && roots == old(roots) && lists == old(lists)
    {
      EraseInOrder(t.subRoot, node);
      hide Erase, Without;
      t.subRoot := Erase(t.subRoot, node);
      if t.subRoot == Leaf && removeTreeNode {
        roots := roots[current := Erase(roots[current], t)];
        lists := lists[current := Without(lists[current], t)];
      } else {
        t.count := t.count - 1;
      }
    }

    /** `remove_node_from_stable_tree` */
    method RemoveNodeFromStableTree(node: StableNode, unlinkRb: bool, removeTreeNode: bool)
      requires Pairs() && node in nodes && EachShares(nodes)
      requires unlinkRb && node.treeNode != null ==> node.treeNode.count >= 1
      modifies this`nodes, this`roots, this`lists, this`pagesShared, this`pagesSharing
      modifies if unlinkRb then {node.treeNode} else {}
      ensures Pairs() && nodes == Without(old(nodes), node) && EachShares(nodes)
      ensures old(Balanced()) ==> Balanced()
      ensures !unlinkRb || node.treeNode == null ==> roots == old(roots) && lists == old(lists)
      ensures unlinkRb && node.treeNode != null ==>
        var t: TreeNode := node.treeNode;
        && InOrder(t.subRoot) == Without(old(InOrder(t.subRoot)), node)
        && if t.subRoot == Leaf && removeTreeNode then
             && roots == old(roots)[current := Erase(old(roots[current]), t)]
             && lists == old(lists)[current := Without(old(lists[current]), t)]
           else
             t.count == old(t.count) - 1 && roots == old(roots) && lists == old(lists)
    {
      hide Erase, Without, InOrder, SharedNodes, Items, Sum, EachShares;
      WithoutShares(nodes, node);
      if Balanced() {
        Rebalance(nodes, node, pagesShared, pagesSharing);
      }
      UncountItems(node);
      if node.treeNode != null && unlinkRb {
        UnlinkNode(node, node.treeNode, removeTreeNode);
      }
      nodes := Without(nodes, node);
    }

    // -------------------------------------------------------------------------
    // What a rebuild builds
    // -------------------------------------------------------------------------

    /** A node's cache is empty or right, and if it is linked, it is found under the
        tree node of its hash at the strength. */
    ghost predicate NodeOk(n: StableNode, list: seq<TreeNode>, strength: nat)
      requires strength <= StrengthMax(nums)
      reads n, list
    {
      && Fits(n.page, nums)
      && (n.hashMax == 0 || n.hashMax == FullKey(n))
      && (n.treeNode != null ==>
            && n.treeNode in list
            && n in InOrder(n.treeNode.subRoot)
            && n.treeNode.hash == HashAt(n, strength))
    }

    /** The two levels over the nodes done so far. */
    ghost predicate Built(root: Tree<TreeNode>, list: seq<TreeNode>, done: set<StableNode>, strength: nat)
      reads list, done
    {
      && strength <= StrengthMax(nums)
      && FirstLevelOk(root, list)
      && (forall t :: t in list ==> SubTreeOk(t, done))
      && (forall n :: n in done ==> NodeOk(n, list, strength))
    }

    /** The same with one tree node that waits for its first node. */
    ghost predicate BuiltBut(root: Tree<TreeNode>, list: seq<TreeNode>, done: set<StableNode>, strength: nat, t: TreeNode)
      reads list, done, t
    {
      && strength <= StrengthMax(nums)
      && FirstLevelOk(root, list)
      && t in list && t.subRoot == Leaf && t.count == 0
      && (forall u :: u in list && u != t ==> SubTreeOk(u, done))
      && (forall n :: n in done ==> NodeOk(n, list, strength) && n.treeNode != t)
    }

    method LinkStableNode(t: TreeNode, path: seq<Side>, node: StableNode)
      requires At(t.subRoot, path).Leaf?
      modifies t, node`treeNode
      ensures InOrder(t.subRoot) == old(Spliced(t.subRoot, path, node))
      ensures node.treeNode == t && t.count == old(t.count) + 1
    {
      LinkInOrder(t.subRoot, path, node);
      t.subRoot := Link(t.subRoot, path, node);
      node.treeNode := t;
      t.count := t.count + 1;
    }

    method AddToEmpty(t: TreeNode, node: StableNode, ghost root: Tree<TreeNode>, ghost list: seq<TreeNode>,
                      ghost done: set<StableNode>, ghost strength: nat)
      requires BuiltBut(root, list, done, strength, t) && node !in done
      requires Fits(node.page, nums) && t.hash == HashAt(node, strength)
      requires node.hashMax == 0 || node.hashMax == FullKey(node)
      modifies t, node`treeNode
      ensures Built(root, list, done + {node}, strength) && node.treeNode == t
    {
      hide HashAt, FullKey, Fits, FirstLevelOk;
      TopOfTree(t.subRoot);
      assert Spliced(t.subRoot, [], node) == [node];
      LinkStableNode(t, [], node);
      assert InOrder(t.subRoot) == [node];
      forall u | u in list && u != t ensures SubTreeOk(u, done + {node}) {
      }
    }

    /** One more node in a sub-tree whose full-strength hashes are filled in. */
    method LinkResolved(t: TreeNode, path: seq<Side>, node: StableNode, ghost done: set<StableNode>)
      requires SubTreeOk(t, done) && node !in done && node.hashMax != 0
      requires forall i :: 0 <= i < |InOrder(t.subRoot)| ==> InOrder(t.subRoot)[i].hashMax != 0
      requires At(t.subRoot, path).Leaf?
      requires forall i :: 0 <= i < |Before(t.subRoot, path)| ==> Before(t.subRoot, path)[i].hashMax < node.hashMax
      requires forall i :: 0 <= i < |After(t.subRoot, path)| ==> After(t.subRoot, path)[i].hashMax > node.hashMax
      modifies t, node`treeNode
      ensures SubTreeOk(t, done + {node}) && node.treeNode == t
      ensures node in InOrder(t.subRoot)
      ensures forall n :: n in old(InOrder(t.subRoot)) ==> n in InOrder(t.subRoot)
    {
      hide At, Before, After, Link, Spliced, InOrder;
      ghost var ms := Spliced(t.subRoot, path, node);
      SplicedMembers(t.subRoot, path, node);
      SplicedFits(t, path, node, done);
      LinkStableNode(t, path, node);
      assert forall i, j :: 0 <= i < j < |ms| ==> ms[i].hashMax < ms[j].hashMax;
      assert NodesOk(t, ms, done + {node});
    }

    method AddToSubTree(t: TreeNode, path: seq<Side>, node: StableNode, ghost root: Tree<TreeNode>,
                        ghost list: seq<TreeNode>, ghost done: set<StableNode>, ghost strength: nat)
      requires Built(root, list, done, strength) && node !in done && t in list
      requires Fits(node.page, nums) && t.hash == HashAt(node, strength) && node.hashMax == FullKey(node)
      requires forall i :: 0 <= i < |InOrder(t.subRoot)| ==> InOrder(t.subRoot)[i].hashMax != 0
      requires At(t.subRoot, path).Leaf?
      requires forall i :: 0 <= i < |Before(t.subRoot, path)| ==> Before(t.subRoot, path)[i].hashMax < node.hashMax
      requires forall i :: 0 <= i < |After(t.subRoot, path)| ==> After(t.subRoot, path)[i].hashMax > node.hashMax
      modifies t, node`treeNode
      ensures Built(root, list, done + {node}, strength) && node.treeNode == t
    {
      hide HashAt, FullKey, Fits, FirstLevelOk, At, Before, After, InOrder;
      LinkResolved(t, path, node, done);
      assert forall u :: u in list && u != t ==> SubTreeOk(u, done + {node});
    }

    // -------------------------------------------------------------------------
    // Reinserting one node
    // -------------------------------------------------------------------------

    /** No page is pending in the counters, so a charge encodes nothing. */
    ghost predicate Quiet(meter: BenefitMeter)
      reads meter
    {
      PagesPending(meter.View()) == 0
    }

    /** Of the counters only the negative charges grew, by the price of the caches
        filled among the nodes. */
    twostate predicate OnlyPays(meter: BenefitMeter, ns: set<StableNode>, strength: nat)
      requires strength <= StrengthMax(nums)
      reads meter, ns
    {
      && Quiet(meter) && meter.View() == old(meter.View()).(rshashNeg := meter.rshashNeg)
      && Paid(old(Uncached(ns)), Uncached(ns), StrengthMax(nums) - strength, old(meter.rshashNeg), meter.rshashNeg)
    }

    /** `get_uksm_page`: a page that no longer belongs to its node takes the node off. */
    method GetUksmPage(node: StableNode, unlinkRb: bool, removeTreeNode: bool) returns (found: bool)
      requires Pairs() && node in nodes && EachShares(nodes)
      requires unlinkRb && node.treeNode != null ==> node.treeNode.count >= 1
      modifies this`looks, this`nodes, this`roots, this`lists, this`pagesShared, this`pagesSharing
      modifies if unlinkRb then {node.treeNode} else {}
      ensures found == live(old(looks), node.kpfn) && looks == old(looks) + 1
      ensures Pairs() && (old(Balanced()) ==> Balanced()) && EachShares(nodes)
      ensures found ==> nodes == old(nodes) && roots == old(roots) && lists == old(lists)
      ensures found && unlinkRb && node.treeNode != null ==>
        node.treeNode.subRoot == old(node.treeNode.subRoot) && node.treeNode.count == old(node.treeNode.count)
      ensures !found ==> nodes == Without(old(nodes), node)
      ensures !found && (!unlinkRb || node.treeNode == null) ==> roots == old(roots) && lists == old(lists)
      ensures !found && unlinkRb && node.treeNode != null ==>
        var t: TreeNode := node.treeNode;
        && InOrder(t.subRoot) == Without(old(InOrder(t.subRoot)), node)
        && (!removeTreeNode ==> t.count == old(t.count) - 1 && roots == old(roots) && lists == old(lists))
    {
      hide SharedNodes, Items, EachShares, InOrder, Without;
      found := live(looks, node.kpfn);
      looks := looks + 1;
      if !found {
        RemoveNodeFromStableTree(node, unlinkRb, removeTreeNode);
      }
    }

    method StableNodeHashMax(node: StableNode, strength: nat, hash: u32, meter: BenefitMeter) returns (r: Result<()>)
      requires Fits(node.page, nums) && strength <= StrengthMax(nums) && |nums| < U32_SIZE
      modifies node`hashMax, meter
      ensures old(node.hashMax) != 0 ==> r.Ok? && node.hashMax == old(node.hashMax) && meter.View() == old(meter.View())
      ensures old(node.hashMax) == 0 ==> r.Bug? == ChargeNeg(old(meter.View()), StrengthMax(nums) - strength).Bug?
      ensures old(node.hashMax) == 0 && r.Ok? ==>
        && ChargeNeg(old(meter.View()), StrengthMax(nums) - strength) == Ok(meter.View())
        && node.hashMax == ExtendedMax(node.page, nums, strength, hash)
    {
      hide Rehash, ChargeNeg;
      if node.hashMax == 0 {
        var hashMax :- HashPageMax(node.page, nums, strength, hash, meter);
        node.hashMax := hashMax;
      }
      return Ok(());
    }

    /** Filling the cache of one more node. */
    lemma NodePaid(node: StableNode, before: set<StableNode>, after: set<StableNode>, strength: nat, was: u64, now: u64)
      requires strength <= StrengthMax(nums) && after == before - {node}
      requires now == if node in before then Plus(was, StrengthMax(nums) - strength) else was
      ensures Paid(before, after, StrengthMax(nums) - strength, was, now)
    {
      hide Paid;
      if node in before {
        PaidOne(before, node, StrengthMax(nums) - strength, was);
      } else {
        assert after == before;
        PaidNothing(before, StrengthMax(nums) - strength, was);
      }
    }

    /** The same with no page pending, on the hash of the node. */
    method FillCache(node: StableNode, strength: nat, hash: u32, meter: BenefitMeter, ghost all: set<StableNode>)
      requires Fits(node.page, nums) && strength <= StrengthMax(nums) && |nums| < U32_SIZE
      requires hash == HashAt(node, strength) && (node.hashMax == 0 || node.hashMax == FullKey(node))
      requires Quiet(meter) && node in all
      modifies node`hashMax, meter
      ensures node.hashMax == FullKey(node) && OnlyPays(meter, all, strength)
    {
      hide SampleHash, Rehash, Paid;
      ExtendedMaxIsFull(node.page, nums, strength);
      ghost var before, was := Uncached(all), meter.rshashNeg;
      var _ := StableNodeHashMax(node, strength, hash, meter);
      assert Uncached(all) == before - {node};
      NodePaid(node, before, Uncached(all), strength, was, meter.rshashNeg);
    }

    /** The stale sole node gone, its tree node waits for another. */
    method DropSole(t: TreeNode, sole: StableNode, ghost root: Tree<TreeNode>, ghost list: seq<TreeNode>,
                    ghost done: set<StableNode>, ghost strength: nat) returns (found: bool)
      requires Pairs() && Built(root, list, done, strength) && t in list && InOrder(t.subRoot) == [sole]
      requires sole in nodes && EachShares(nodes)
      modifies this`looks, this`nodes, this`roots, this`lists, this`pagesShared, this`pagesSharing, t
      ensures found == live(old(looks), sole.kpfn) && looks == old(looks) + 1
      ensures Pairs() && (old(Balanced()) ==> Balanced()) && EachShares(nodes)
      ensures roots == old(roots) && lists == old(lists)
      ensures found ==> nodes == old(nodes) && t.subRoot == old(t.subRoot) && Built(root, list, done, strength)
      ensures !found ==> nodes == Without(old(nodes), sole) && BuiltBut(root, list, done - {sole}, strength, t)
    {
      hide Balanced, EachShares, FirstLevelOk, HashAt, FullKey, Fits, InOrder, NodesOk;
      SoleApart(t, sole, root, list, done, strength);
      found := GetUksmPage(sole, true, false);
      if !found {
        assert Without([sole], sole) == [];
        EmptyInOrder(t.subRoot);
        assert forall u :: u in list && u != t ==> SubTreeOk(u, done - {sole});
      } else {
        assert forall u :: u in list ==> SubTreeOk(u, done);
      }
    }

    /** What stands without the sole node of a tree node. */
    lemma SoleApart(t: TreeNode, sole: StableNode, root: Tree<TreeNode>, list: seq<TreeNode>,
                    done: set<StableNode>, strength: nat)
      requires Built(root, list, done, strength) && t in list && InOrder(t.subRoot) == [sole]
      ensures t.count == 1 && sole in done && sole.treeNode == t
      ensures SubTreeOk(t, done)
      ensures forall u :: u in list && u != t ==> SubTreeOk(u, done - {sole})
      ensures forall n :: n in done && n != sole ==> NodeOk(n, list, strength) && n.treeNode != t
    {
      hide FirstLevelOk, HashAt, FullKey, Fits, InOrder;
      assert SubTreeOk(t, done);
      assert InOrder(t.subRoot)[0] == sole;
      forall u | u in list && u != t ensures SubTreeOk(u, done - {sole}) {
        assert forall i :: 0 <= i < |InOrder(u.subRoot)| ==> InOrder(u.subRoot)[i] != sole;
      }
    }

    /** One of the looks taken in between found the frame of the node gone. */
    ghost predicate Stale(n: StableNode, from: nat, to: nat) {
      exists i :: from <= i < to && !live(i, n.kpfn)
    }

    /** These nodes and no others were taken off the list, each found stale just now. */
    twostate predicate TookOff(gone: set<StableNode>)
      reads this
    {
      && old(looks) <= looks
      && (old(Balanced()) ==> Balanced()) && EachShares(nodes) && Distinct(nodes)
      && TakenOff(nodes, old(nodes), gone)
      && forall m :: m in gone ==> Stale(m, old(looks), looks)
    }

    /** The list lost no node that was not found stale, and the page counters kept
        their balance. */
    twostate predicate LostOnlyStale()
      reads this
    {
      (old(Balanced()) ==> Balanced()) && Lost(old(nodes), nodes, old(looks), looks)
    }

    ghost predicate Lost(before: seq<StableNode>, after: seq<StableNode>, from: nat, to: nat) {
      && from <= to
      && (forall n :: n in after ==> n in before)
      && (forall n :: n in before && n !in after ==> Stale(n, from, to))
    }

    lemma LostNothing(ns: seq<StableNode>, at: nat)
      ensures Lost(ns, ns, at, at)
    {
    }

    lemma LostBoth(a: seq<StableNode>, b: seq<StableNode>, c: seq<StableNode>, i: nat, j: nat, k: nat)
      requires Lost(a, b, i, j) && Lost(b, c, j, k)
      ensures Lost(a, c, i, k)
    {
      forall n | n in a && n !in c ensures Stale(n, i, k) {
        assert Stale(n, i, j) || Stale(n, j, k);
      }
    }

    /** Of these nodes only ones under the tree node had their caches filled. */
    twostate predicate FilledUnder(done: set<StableNode>, t: TreeNode)
      reads done
    {
      forall m :: m in done ==>
        m.hashMax == old(m.hashMax) || (old(m.hashMax) == 0 && m.hashMax != 0 && m.treeNode == t)
    }

    ghost predicate CachedUnder(done: set<StableNode>, t: TreeNode)
      reads done
    {
      forall m :: m in done && m.treeNode == t ==> m.hashMax != 0
    }

    /** The nodes under the tree node that are gone at this look. */
    ghost function GoneAt(done: set<StableNode>, t: TreeNode, look: nat): set<StableNode>
      reads done
    {
      set m | m in done && m.treeNode == t && !live(look, m.kpfn)
    }

    /** A node left unlinked; `failed` in the code. */
    method LeaveUnlinked(node: StableNode, ghost root: Tree<TreeNode>, ghost list: seq<TreeNode>,
                         ghost done: set<StableNode>, ghost strength: nat)
      requires Built(root, list, done, strength) && node !in done
      requires Fits(node.page, nums) && (node.hashMax == 0 || node.hashMax == FullKey(node))
      modifies node`treeNode
      ensures Built(root, list, done + {node}, strength) && node.treeNode == null
    {
      hide FirstLevelOk, HashAt, FullKey, Fits, InOrder;
      node.treeNode := null;
      assert forall u :: u in list ==> SubTreeOk(u, done + {node});
    }

    /** Filling the cache of a sole node. */
    method FillSole(t: TreeNode, sole: StableNode, hash: u32, meter: BenefitMeter, ghost root: Tree<TreeNode>,
                    ghost list: seq<TreeNode>, ghost done: set<StableNode>, strength: nat, ghost all: set<StableNode>)
      requires Built(root, list, done, strength) && t in list && InOrder(t.subRoot) == [sole]
      requires |nums| < U32_SIZE && hash == t.hash && Quiet(meter) && done <= all
      modifies sole`hashMax, meter
      ensures Built(root, list, done, strength) && sole in done
      ensures Fits(sole.page, nums) && sole.hashMax == FullKey(sole) && sole.treeNode == t
      ensures OnlyPays(meter, all, strength)
    {
      hide FirstLevelOk, HashAt, FullKey, Fits, InOrder, Paid;
      SoleApart(t, sole, root, list, done, strength);
      FillCache(sole, strength, hash, meter, all);
      forall u | u in list ensures SubTreeOk(u, done) {
        if u != t {
          assert SubTreeOk(u, done - {sole});
        }
      }
    }

    /** The node meets the only one of its hash. */
    method InsertBesideSole(t: TreeNode, sole: StableNode, node: StableNode, hash: u32, meter: BenefitMeter,
                            ghost root: Tree<TreeNode>, ghost list: seq<TreeNode>, ghost done: set<StableNode>,
                            strength: nat, ghost all: set<StableNode>)
      requires Built(root, list, done, strength) && t in list && InOrder(t.subRoot) == [sole]
      requires |nums| < U32_SIZE && hash == t.hash && Quiet(meter) && node !in done && done <= all
      requires Fits(node.page, nums) && t.hash == HashAt(node, strength) && node.hashMax == FullKey(node)
      modifies t, sole`hashMax, node`treeNode, meter
      ensures Built(root, list, done + {node}, strength) && sole in done && Fits(sole.page, nums)
      ensures sole.treeNode == t
      ensures node.treeNode == (if FullKey(node) == FullKey(sole) then null else t)
      ensures OnlyPays(meter, all, strength)
      ensures sole.hashMax != 0
    {
      hide FirstLevelOk, HashAt, Fits, Paid;
      FillSole(t, sole, hash, meter, root, list, done, strength, all);
      ghost var after := Uncached(all);
      SingleNode(t.subRoot, sole);
      if node.hashMax < sole.hashMax {
        Descend(t.subRoot, [], Side.Left);
        assert [] + [Side.Left] == [Side.Left];
        AddToSubTree(t, [Side.Left], node, root, list, done, strength);
      } else if node.hashMax > sole.hashMax {
        Descend(t.subRoot, [], Side.Right);
        assert [] + [Side.Right] == [Side.Right];
        AddToSubTree(t, [Side.Right], node, root, list, done, strength);
      } else {
        LeaveUnlinked(node, root, list, done, strength);
      }
      assert Uncached(all) == after;
    }

    /** The node meets two or more of its hash. */
    method InsertAmong(t: TreeNode, node: StableNode, ghost root: Tree<TreeNode>, ghost list: seq<TreeNode>,
                       ghost done: set<StableNode>, ghost strength: nat)
      requires Built(root, list, done, strength) && t in list && t.count >= 2 && node !in done
      requires Fits(node.page, nums) && t.hash == HashAt(node, strength) && node.hashMax == FullKey(node)
      modifies t, node`treeNode
      ensures Built(root, list, done + {node}, strength)
      ensures node.treeNode == t || node.treeNode == null
      ensures node.treeNode == null ==>
        exists m :: m in done && m.treeNode == t && Fits(m.page, nums) && FullKey(m) == FullKey(node)
    {
      hide FirstLevelOk, HashAt, Fits, At, Before, After, InOrder, FullKey;
      assert SubTreeOk(t, done);
      LeafEmpty(t.subRoot);
      assert t.subRoot != Leaf;
      var path := FindSlot(t.subRoot, node.hashMax);
      if At(t.subRoot, path).Node? {
        ghost var m := At(t.subRoot, path).item;
        assert NodeOk(m, list, strength);
        LeaveUnlinked(node, root, list, done, strength);
        assert m in done && m.treeNode == t && FullKey(m) == FullKey(node);
      } else {
        AddToSubTree(t, path, node, root, list, done, strength);
      }
    }

    /** Two nodes that no hash of the tree tells apart. */
    ghost predicate SameKeys(m: StableNode, n: StableNode, strength: nat) {
      && strength <= StrengthMax(nums) && Fits(m.page, nums) && Fits(n.page, nums)
      && HashAt(m, strength) == HashAt(n, strength) && FullKey(m) == FullKey(n)
    }

    /** The sole node with the hash: still live it stays, else the new one takes its
        tree node over. */
    method InsertAtSole(t: TreeNode, node: StableNode, hash: u32, meter: BenefitMeter,
                        ghost root: Tree<TreeNode>, ghost list: seq<TreeNode>, ghost done: set<StableNode>,
                        strength: nat, ghost all: set<StableNode>)
      returns (ghost gone: set<StableNode>)
      requires Pairs() && EachShares(nodes) && Distinct(nodes) && forall n :: n in done ==> n in nodes
      requires Built(root, list, done, strength) && t in list && t.count == 1 && node !in done && done <= all
      requires |nums| < U32_SIZE && hash == t.hash && Quiet(meter)
      requires Fits(node.page, nums) && t.hash == HashAt(node, strength) && node.hashMax == FullKey(node)
      modifies this`looks, this`nodes, this`roots, this`lists, this`pagesShared, this`pagesSharing
      modifies t, done`hashMax, node`treeNode, meter
      ensures Pairs() && roots == old(roots) && lists == old(lists)
      ensures gone <= done && TookOff(gone)
      ensures Built(root, list, done - gone + {node}, strength)
      ensures node.treeNode == null ==> exists m :: m in done - gone && m.treeNode != null && SameKeys(m, node, strength)
      ensures OnlyPays(meter, all, strength)
      ensures looks == old(looks) + 1 && gone == old(GoneAt(done, t, looks))
      ensures FilledUnder(done, t) && (gone == {} ==> CachedUnder(done, t))
      ensures gone != {} ==> forall m :: m in done ==> m.hashMax == old(m.hashMax)
    {
      hide FirstLevelOk, Fits, FullKey, InOrder, Balanced, EachShares, Distinct, SampleHash, TakenOff, Paid;
      assert SubTreeOk(t, done);
      var sole := SoleItem(t.subRoot);
      assert InOrder(t.subRoot)[0] == sole;
      assert NodeOk(sole, list, strength);
      OneTakenOff(nodes, sole);
      SoleApart(t, sole, root, list, done, strength);
      ghost var ticks, before := looks, Uncached(all);
      PaidNothing(before, StrengthMax(nums) - strength, meter.rshashNeg);
      var found := DropSole(t, sole, root, list, done, strength);
      if found {
        gone := {};
        assert Uncached(all) == before;
        InsertBesideSole(t, sole, node, hash, meter, root, list, done, strength, all);
        assert done - gone + {node} == done + {node};
        assert node.treeNode == null ==> SameKeys(sole, node, strength);
      } else {
        assert !live(ticks, sole.kpfn);
        gone := {sole};
        AddToEmpty(t, node, root, list, done - {sole}, strength);
        assert Uncached(all) == before;
      }
    }

    /** With two or more nodes under a tree node, all their caches are filled. */
    lemma CachedAmong(t: TreeNode, root: Tree<TreeNode>, list: seq<TreeNode>, done: set<StableNode>, strength: nat)
      requires Built(root, list, done, strength) && t in list
      ensures t.count >= 2 ==> CachedUnder(done, t)
    {
      hide FirstLevelOk, Fits, FullKey, SampleHash, InOrder;
      assert SubTreeOk(t, done);
      forall m | m in done && m.treeNode == t && t.count >= 2 ensures m.hashMax != 0 {
        assert NodeOk(m, list, strength);
      }
    }

    /** A tree node with the hash exists, and the cache of the new node is filled. */
    method InsertFilled(t: TreeNode, node: StableNode, hash: u32, meter: BenefitMeter,
                        ghost root: Tree<TreeNode>, ghost list: seq<TreeNode>, ghost done: set<StableNode>,
                        strength: nat, ghost all: set<StableNode>)
      returns (ghost gone: set<StableNode>)
      requires Pairs() && EachShares(nodes) && Distinct(nodes) && forall n :: n in done ==> n in nodes
      requires Built(root, list, done, strength) && t in list && node !in done && done <= all
      requires |nums| < U32_SIZE && hash == t.hash && Quiet(meter)
      requires Fits(node.page, nums) && t.hash == HashAt(node, strength) && node.hashMax == FullKey(node)
      modifies this`looks, this`nodes, this`roots, this`lists, this`pagesShared, this`pagesSharing
      modifies t, done`hashMax, node`treeNode, meter
      ensures Pairs() && roots == old(roots) && lists == old(lists)
      ensures gone <= done && TookOff(gone)
      ensures Built(root, list, done - gone + {node}, strength)
      ensures node.treeNode == null ==> exists m :: m in done - gone && m.treeNode != null && SameKeys(m, node, strength)
      ensures OnlyPays(meter, all, strength)
      ensures looks == old(looks) + (if old(t.count) == 1 then 1 else 0)
      ensures gone == if old(t.count) == 1 then old(GoneAt(done, t, looks)) else {}
      ensures FilledUnder(done, t) && (gone == {} ==> CachedUnder(done, t))
      ensures gone != {} ==> forall m :: m in done ==> m.hashMax == old(m.hashMax)
    {
      hide FirstLevelOk, Fits, FullKey, InOrder, Balanced, EachShares, Distinct, SampleHash, TakenOff, NodesOk, Paid;
      assert SubTreeOk(t, done);
      CachedAmong(t, root, list, done, strength);
      if t.count == 1 {
        gone := InsertAtSole(t, node, hash, meter, root, list, done, strength, all);
      } else {
        gone := {};
        NoneTakenOff(nodes);
        ghost var before := Uncached(all);
        PaidNothing(before, StrengthMax(nums) - strength, meter.rshashNeg);
        InsertAmong(t, node, root, list, done, strength);
        assert Uncached(all) == before;
        assert done - gone + {node} == done + {node};
        if node.treeNode == null {
          ghost var m :| m in done && m.treeNode == t && Fits(m.page, nums) && FullKey(m) == FullKey(node);
          assert NodeOk(m, list, strength);
          assert SameKeys(m, node, strength);
        }
      }
    }

    /** A tree node with the hash exists. */
    method InsertUnder(t: TreeNode, node: StableNode, hash: u32, meter: BenefitMeter,
                       ghost root: Tree<TreeNode>, ghost list: seq<TreeNode>, ghost done: set<StableNode>,
                       strength: nat, ghost all: set<StableNode>)
      returns (ghost gone: set<StableNode>)
      requires Pairs() && EachShares(nodes) && Distinct(nodes) && forall n :: n in done ==> n in nodes
      requires Built(root, list, done, strength) && t in list && node !in done && done + {node} <= all
      requires |nums| < U32_SIZE && hash == t.hash && Quiet(meter)
      requires Fits(node.page, nums) && t.hash == HashAt(node, strength)
      requires node.hashMax == 0 || node.hashMax == FullKey(node)
      modifies this`looks, this`nodes, this`roots, this`lists, this`pagesShared, this`pagesSharing
      modifies t, done`hashMax, node, meter
      ensures Pairs() && roots == old(roots) && lists == old(lists)
      ensures gone <= done && TookOff(gone)
      ensures Built(root, list, done - gone + {node}, strength)
      ensures node.treeNode == null ==> exists m :: m in done - gone && m.treeNode != null && SameKeys(m, node, strength)
      ensures OnlyPays(meter, all, strength)
      ensures looks == old(looks) + (if old(t.count) == 1 then 1 else 0)
      ensures gone == if old(t.count) == 1 then old(GoneAt(done, t, looks)) else {}
      ensures FilledUnder(done, t) && (gone == {} ==> CachedUnder(done, t)) && node.hashMax == FullKey(node)
      ensures gone != {} ==> forall m :: m in done ==> m.hashMax == old(m.hashMax)
    {
      hide FirstLevelOk, Fits, FullKey, InOrder, Balanced, EachShares, Distinct, SampleHash, TakenOff, SubTreeOk, Paid, Plus, SameKeys, Stale, Uncached;
      ghost var before, was := Uncached(all), meter.rshashNeg;
      FillCache(node, strength, hash, meter, all);
      ghost var between, then' := Uncached(all), meter.rshashNeg;
      gone := InsertFilled(t, node, hash, meter, root, list, done, strength, all);
      PaidBoth(before, between, Uncached(all), StrengthMax(nums) - strength, was, then', meter.rshashNeg);
    }

    /** No tree node has the hash: a new one, if there is memory for it. */
    method InsertNew(path: seq<Side>, node: StableNode, hash: u32, ghost done: set<StableNode>, ghost strength: nat)
      requires Pairs() && Built(roots[treeIndex], lists[treeIndex], done, strength) && node !in done
      requires Fits(node.page, nums) && hash == HashAt(node, strength)
      requires node.hashMax == 0 || node.hashMax == FullKey(node)
      requires At(roots[treeIndex], path).Leaf?
      requires forall i :: 0 <= i < |Before(roots[treeIndex], path)| ==> Before(roots[treeIndex], path)[i].hash < hash
      requires forall i :: 0 <= i < |After(roots[treeIndex], path)| ==> After(roots[treeIndex], path)[i].hash > hash
      modifies this`allocs, this`roots, this`lists, node`treeNode
      ensures Pairs() && OtherTreeSame(old(roots), old(lists))
      ensures Built(roots[treeIndex], lists[treeIndex], done + {node}, strength)
      ensures forall k :: 0 <= k < |lists[treeIndex]| ==>
        lists[treeIndex][k] in old(lists[treeIndex]) || fresh(lists[treeIndex][k])
      ensures allocs == old(allocs) + 1 && (node.treeNode == null <==> !memory(old(allocs)))
    {
      hide Fits, FullKey, SampleHash, At, Before, After, InOrder, FirstLevelOk;
      var ok := memory(allocs);
      allocs := allocs + 1;
      if !ok {
        LeaveUnlinked(node, roots[treeIndex], lists[treeIndex], done, strength);
      } else {
        var t := AllocTreeNode(path, hash, done, strength);
        AddToEmpty(t, node, roots[treeIndex], lists[treeIndex], done, strength);
      }
    }

    /** A new tree node, linked where its hash belongs. */
    method AllocTreeNode(path: seq<Side>, hash: u32, ghost done: set<StableNode>, ghost strength: nat)
      returns (t: TreeNode)
      requires Pairs() && Built(roots[treeIndex], lists[treeIndex], done, strength)
      requires At(roots[treeIndex], path).Leaf?
      requires forall i :: 0 <= i < |Before(roots[treeIndex], path)| ==> Before(roots[treeIndex], path)[i].hash < hash
      requires forall i :: 0 <= i < |After(roots[treeIndex], path)| ==> After(roots[treeIndex], path)[i].hash > hash
      modifies this`roots, this`lists
      ensures Pairs() && OtherTreeSame(old(roots), old(lists))
      ensures fresh(t) && t.hash == hash && lists[treeIndex] == [t] + old(lists[treeIndex])
      ensures BuiltBut(roots[treeIndex], lists[treeIndex], done, strength, t)
    {
      hide Fits, FullKey, SampleHash, At, Before, After, Link, InOrder, FirstLevelOk, NodesOk;
      ghost var root, list := roots[treeIndex], lists[treeIndex];
      t := new TreeNode(hash);
      LinkedFirstLevel(root, list, path, t);
      assert forall u :: u in list ==> SubTreeOk(u, done);
      assert forall n :: n in done ==> NodeOk(n, list, strength);
      lists := lists[treeIndex := [t] + lists[treeIndex]];
      roots := roots[treeIndex := Link(roots[treeIndex], path, t)];
    }

    /** The tree that is not being built is left alone. */
    predicate OtherTreeSame(rs: seq<Tree<TreeNode>>, ls: seq<seq<TreeNode>>)
      requires Pairs() && |rs| == |ls| == 2
      reads this
    {
      roots[1 - treeIndex] == rs[1 - treeIndex] && lists[1 - treeIndex] == ls[1 - treeIndex]
    }

    /** The linked nodes with a hash. */
    ghost function TwinsOf(done: set<StableNode>, hash: u32, strength: nat): set<StableNode>
      requires strength <= StrengthMax(nums)
      reads done
    {
      set m | m in done && m.treeNode != null && Fits(m.page, nums) && HashAt(m, strength) == hash
    }

    /** They are those under the tree node of the hash: none if there is no such tree
        node, and one if it counts one. */
    lemma TwinsUnder(root: Tree<TreeNode>, list: seq<TreeNode>, done: set<StableNode>, strength: nat, hash: u32)
      requires Built(root, list, done, strength)
      ensures (forall t :: t in list ==> t.hash != hash) ==> TwinsOf(done, hash, strength) == {}
      ensures forall t :: t in list && t.hash == hash ==>
        && (forall m :: m in TwinsOf(done, hash, strength) <==> m in done && m.treeNode == t)
        && (exists m :: m in TwinsOf(done, hash, strength))
        && (t.count == 1 <==> IsOne(TwinsOf(done, hash, strength)))
    {
      hide Fits, FullKey, SampleHash, InOrder, FirstLevelOk;
      var twins := TwinsOf(done, hash, strength);
      forall m | m in twins ensures m.treeNode in list && m.treeNode.hash == hash {
        assert NodeOk(m, list, strength);
      }
      forall t | t in list && t.hash == hash
        ensures forall m :: m in twins <==> m in done && m.treeNode == t
        ensures exists m :: m in twins
        ensures t.count == 1 <==> IsOne(twins)
      {
        forall m | m in done && m.treeNode == t ensures m in twins {
          assert NodeOk(m, list, strength);
        }
        forall m | m in twins ensures m.treeNode == t {
          SameHashSameNode(root, list, t, m.treeNode);
        }
        TwinsCounted(t, twins, list, done, strength);
      }
    }

    lemma TwinsCounted(t: TreeNode, twins: set<StableNode>, list: seq<TreeNode>, done: set<StableNode>, strength: nat)
      requires SubTreeOk(t, done) && (forall m :: m in twins <==> m in done && m.treeNode == t)
      requires strength <= StrengthMax(nums) && forall m :: m in done ==> NodeOk(m, list, strength)
      ensures (exists m :: m in twins) && (t.count == 1 <==> IsOne(twins))
    {
      hide Fits, FullKey, SampleHash, InOrder;
      var ns := InOrder(t.subRoot);
      assert ns[0] in twins;
      if t.count == 1 {
        forall m | m in twins ensures m == ns[0] {
          assert NodeOk(m, list, strength);
        }
        assert twins == {ns[0]};
      } else {
        assert ns[1] in twins && ns[0] != ns[1];
      }
    }

    lemma SameHashSameNode(root: Tree<TreeNode>, list: seq<TreeNode>, t: TreeNode, u: TreeNode)
      requires FirstLevelOk(root, list) && t in list && u in list && t.hash == u.hash
      ensures t == u
    {
      hide InOrder;
      var ts := InOrder(root);
      var i :| 0 <= i < |ts| && ts[i] == t;
      var j :| 0 <= j < |ts| && ts[j] == u;
    }

    /** What an insertion does to the caches: with no linked node of its hash, nothing;
        else the cache of the new node is filled, and those of the linked nodes of the
        hash are, unless the only one was found gone. */
    twostate predicate CachesFilled(node: StableNode, done: set<StableNode>, twins: set<StableNode>, gone: set<StableNode>)
      reads node, done
    {
      && (twins == {} || gone != {} ==> forall m :: m in done ==> m.hashMax == old(m.hashMax))
      && (twins == {} || old(node.hashMax) != 0 ==> node.hashMax == old(node.hashMax))
      && (twins != {} ==>
            && node.hashMax != 0
            && (gone == {} ==> forall m :: m in twins && m in done ==> m.hashMax != 0)
            && (forall m :: m in done ==>
                  m.hashMax == old(m.hashMax) || (m in twins && old(m.hashMax) == 0 && m.hashMax != 0)))
    }

    /** Looks and allocations from given ones on: the frame of the only linked node of the hash is looked
        at, and with none a tree node is asked for; so a node stays unlinked exactly if
        another linked one has both hashes, or there is no memory. */
    ghost predicate Placed(node: StableNode, done: set<StableNode>, twins: set<StableNode>, gone: set<StableNode>,
                           strength: nat, look: nat, alloc: nat)
      reads this, node, done
    {
      && looks == look + (if IsOne(twins) then 1 else 0)
      && gone == (if IsOne(twins) then set m | m in twins && !live(look, m.kpfn) else {})
      && allocs == alloc + (if twins == {} then 1 else 0)
      && (node.treeNode == null <==>
            if twins == {} then !memory(alloc)
            else exists m :: m in done - gone && m.treeNode != null && SameKeys(m, node, strength))
    }

    /** A linked node shares its keys with no other linked one. */
    lemma NoTwinLinked(root: Tree<TreeNode>, list: seq<TreeNode>, done: set<StableNode>, strength: nat, node: StableNode)
      requires Built(root, list, done, strength) && node in done && node.treeNode != null
      ensures forall m :: m in done && m != node && m.treeNode != null ==> !SameKeys(m, node, strength)
    {
      hide Built, SameKeys;
      forall m | m in done && m != node && m.treeNode != null ensures !SameKeys(m, node, strength) {
        if SameKeys(m, node, strength) {
          LinkedApart(root, list, done, strength, m, node);
        }
      }
    }

    lemma BuiltLevel(root: Tree<TreeNode>, list: seq<TreeNode>, done: set<StableNode>, strength: nat)
      requires Built(root, list, done, strength)
      ensures strength <= StrengthMax(nums) && FirstLevelOk(root, list)
    {
    }

    lemma GoneAmong(done: set<StableNode>, t: TreeNode, twins: set<StableNode>, look: nat)
      requires forall m :: m in twins <==> m in done && m.treeNode == t
      ensures GoneAt(done, t, look) == set m | m in twins && !live(look, m.kpfn)
    {
    }

    /** A tree node with the hash exists: what the insertion does to the caches, and
        what became of the nodes. */
    method InsertMet(t: TreeNode, node: StableNode, hash: u32, meter: BenefitMeter,
                     ghost root: Tree<TreeNode>, ghost list: seq<TreeNode>, ghost done: set<StableNode>,
                     strength: nat, ghost all: set<StableNode>)
      returns (ghost gone: set<StableNode>)
      requires Pairs() && EachShares(nodes) && Distinct(nodes) && forall n :: n in done ==> n in nodes
      requires Built(root, list, done, strength) && t in list && node !in done && done + {node} <= all
      requires |nums| < U32_SIZE && hash == t.hash && Quiet(meter)
      requires Fits(node.page, nums) && t.hash == HashAt(node, strength)
      requires node.hashMax == 0 || node.hashMax == FullKey(node)
      modifies this`looks, this`nodes, this`roots, this`lists, this`pagesShared, this`pagesSharing
      modifies t, done`hashMax, node, meter
      ensures Pairs() && roots == old(roots) && lists == old(lists)
      ensures gone <= done && TookOff(gone)
      ensures Built(root, list, done - gone + {node}, strength)
      ensures OnlyPays(meter, all, strength)
      ensures CachesFilled(node, done, old(TwinsOf(done, hash, strength)), gone)
      ensures Placed(node, done, old(TwinsOf(done, hash, strength)), gone, strength, old(looks), old(allocs))
    {
      hide Fits, FullKey, SampleHash, EachShares, Distinct, Built, SameKeys, TookOff, OnlyPays, Stale;
      hide TwinsOf, GoneAt, IsOne, Quiet, Pairs, Uncached;
      BuiltStrength(root, list, done, strength);
      TwinsUnder(root, list, done, strength, hash);
      ghost var twins := TwinsOf(done, hash, strength);
      assert forall m :: m in twins <==> m in done && m.treeNode == t;
      GoneAmong(done, t, twins, looks);
      gone := InsertUnder(t, node, hash, meter, root, list, done, strength, all);
      if node.treeNode != null {
        NoTwinLinked(root, list, done - gone + {node}, strength, node);
      }
    }

    /** No tree node with the hash exists. */
    method InsertUnmet(path: seq<Side>, node: StableNode, hash: u32, meter: BenefitMeter,
                       ghost done: set<StableNode>, ghost strength: nat, ghost all: set<StableNode>)
      requires Pairs() && EachShares(nodes) && Distinct(nodes) && Quiet(meter)
      requires Built(roots[treeIndex], lists[treeIndex], done, strength) && node !in done
      requires Fits(node.page, nums) && hash == HashAt(node, strength)
      requires node.hashMax == 0 || node.hashMax == FullKey(node)
      requires At(roots[treeIndex], path).Leaf?
      requires forall i :: 0 <= i < |Before(roots[treeIndex], path)| ==> Before(roots[treeIndex], path)[i].hash < hash
      requires forall i :: 0 <= i < |After(roots[treeIndex], path)| ==> After(roots[treeIndex], path)[i].hash > hash
      modifies this`allocs, this`roots, this`lists, node`treeNode
      ensures Pairs() && OtherTreeSame(old(roots), old(lists)) && TookOff({})
      ensures Built(roots[treeIndex], lists[treeIndex], done - {} + {node}, strength)
      ensures forall k :: 0 <= k < |lists[treeIndex]| ==>
        lists[treeIndex][k] in old(lists[treeIndex]) || fresh(lists[treeIndex][k])
      ensures OnlyPays(meter, all, strength)
      ensures CachesFilled(node, done, old(TwinsOf(done, hash, strength)), {})
      ensures Placed(node, done, old(TwinsOf(done, hash, strength)), {}, strength, old(looks), old(allocs))
    {
      hide Fits, FullKey, SampleHash, At, Before, After, EachShares, Distinct, TakenOff, SharedNodes, Items, Built, Paid, SameKeys;
      ghost var root, list, before := roots[treeIndex], lists[treeIndex], Uncached(all);
      NoneTakenOff(nodes);
      assert done - {} + {node} == done + {node};
      BuiltLevel(root, list, done, strength);
      TwinsUnder(root, list, done, strength, hash);
      NoneOfHash(root, path, list, hash);
      assert TwinsOf(done, hash, strength) == {} && !IsOne<StableNode>({});
      PaidNothing(before, StrengthMax(nums) - strength, meter.rshashNeg);
      InsertNew(path, node, hash, done, strength);
      assert Uncached(all) == before;
    }

    method StableNodeReinsert(node: StableNode, hash: u32, meter: BenefitMeter, ghost done: set<StableNode>,
                              strength: nat, ghost all: set<StableNode>)
      returns (ghost gone: set<StableNode>)
      requires Pairs() && EachShares(nodes) && Distinct(nodes) && forall n :: n in done ==> n in nodes
      requires Built(roots[treeIndex], lists[treeIndex], done, strength) && node !in done && done + {node} <= all
      requires |nums| < U32_SIZE && Quiet(meter)
      requires Fits(node.page, nums) && hash == HashAt(node, strength)
      requires node.hashMax == 0 || node.hashMax == FullKey(node)
      modifies this`looks, this`allocs, this`nodes, this`roots, this`lists, this`pagesShared, this`pagesSharing
      modifies lists[treeIndex], done`hashMax, node, meter
      ensures Pairs() && OtherTreeSame(old(roots), old(lists))
      ensures gone <= done && TookOff(gone)
      ensures Built(roots[treeIndex], lists[treeIndex], done - gone + {node}, strength)
      ensures forall k :: 0 <= k < |lists[treeIndex]| ==>
        lists[treeIndex][k] in old(lists[treeIndex]) || fresh(lists[treeIndex][k])
      ensures CachesFilled(node, done, old(TwinsOf(done, hash, strength)), gone)
      ensures Placed(node, done, old(TwinsOf(done, hash, strength)), gone, strength, old(looks), old(allocs))
      ensures OnlyPays(meter, all, strength)
    {
      hide Fits, FullKey, SampleHash, At, Before, After, InOrder, EachShares, Distinct, TakenOff, SharedNodes, Items;
      hide Built, Paid, SameKeys, Uncached, TwinsOf, Stale, Balanced, Quiet;
      ghost var root, list := roots[treeIndex], lists[treeIndex];
      BuiltLevel(root, list, done, strength);
      var path := FindTreeNode(roots[treeIndex], hash);
      var at := At(roots[treeIndex], path);
      if at.Node? {
        FoundInOrder(root, path);
        gone := InsertMet(at.item, node, hash, meter, root, list, done, strength, all);
      } else {
        gone := {};
        InsertUnmet(path, node, hash, meter, done, strength, all);
      }
    }

    // -------------------------------------------------------------------------
    // The rebuild
    // -------------------------------------------------------------------------

    /** A node as a round at the strength leaves it. */
    ghost predicate Hashed(n: StableNode, strength: nat)
      reads n
    {
      && strength <= StrengthMax(nums) && Fits(n.page, nums)
      && (n.hashMax == 0 || n.hashMax == FullKey(n))
      && (n.treeNode != null ==> n.treeNode.hash == HashAt(n, strength))
    }

    /** The list of nodes, and the tree in use over all of them; the other is empty. */
    ghost predicate Settled(strength: nat)
      reads this, nodes, if Pairs() then lists[current] else []
    {
      && Pairs() && treeIndex == current && lists[1 - current] == []
      && Distinct(nodes) && EachShares(nodes)
      && Built(roots[current], lists[current], Members(nodes), strength)
    }

    /** Liveness does not change during the rebuild, and memory does not run out. */
    ghost predicate Steady() {
      (forall i: nat, j: nat, f: nat :: live(i, f) == live(j, f)) && (forall i: nat :: memory(i))
    }

    ghost predicate AllLive(done: set<StableNode>) { forall n :: n in done ==> live(0, n.kpfn) }

    /** The first live node of the list with its keys. */
    ghost predicate FirstOfKeys(todo: seq<StableNode>, k: nat, strength: nat)
      requires k < |todo|
    {
      forall j :: 0 <= j < k && live(0, todo[j].kpfn) ==> !SameKeys(todo[j], todo[k], strength)
    }

    /** No hash ties two linked nodes. */
    lemma LinkedApart(root: Tree<TreeNode>, list: seq<TreeNode>, done: set<StableNode>, strength: nat,
                      m: StableNode, n: StableNode)
      requires Built(root, list, done, strength) && m in done && n in done
      requires m.treeNode != null && n.treeNode != null && SameKeys(m, n, strength)
      ensures m == n
    {
      hide Fits, FullKey, SampleHash, InOrder;
      assert NodeOk(m, list, strength) && NodeOk(n, list, strength);
      var t, u := m.treeNode, n.treeNode;
      assert t in InOrder(root) && u in InOrder(root);
      var i :| 0 <= i < |InOrder(root)| && InOrder(root)[i] == t;
      var j :| 0 <= j < |InOrder(root)| && InOrder(root)[j] == u;
      assert i == j;
      assert SubTreeOk(t, done);
      var ns := InOrder(t.subRoot);
      var a :| 0 <= a < |ns| && ns[a] == m;
      var b :| 0 <= b < |ns| && ns[b] == n;
    }

    /** A linked node sits in one place of one sub-tree, and no other holds it. */
    lemma ExactlyOnePlace(root: Tree<TreeNode>, list: seq<TreeNode>, done: set<StableNode>, strength: nat,
                          n: StableNode, t: TreeNode, i: nat, u: TreeNode, j: nat)
      requires Built(root, list, done, strength) && t in list && u in list
      requires i < |InOrder(t.subRoot)| && InOrder(t.subRoot)[i] == n
      requires j < |InOrder(u.subRoot)| && InOrder(u.subRoot)[j] == n
      ensures t == u == n.treeNode && i == j
    {
      hide FirstLevelOk, Fits, FullKey, SampleHash, InOrder;
      assert SubTreeOk(t, done) && SubTreeOk(u, done);
    }

    /** The state of the rebuild before the i-th node of the list it walks. */
    ghost predicate Rebuilding(todo: seq<StableNode>, i: nat, done: set<StableNode>, prev: nat, strength: nat)
      reads this, done, todo, if Pairs() then lists[treeIndex] else []
    {
      && Pairs() && treeIndex != current && i <= |todo| && Distinct(todo)
      && Distinct(nodes) && EachShares(nodes)
      && Built(roots[treeIndex], lists[treeIndex], done, strength)
      && (forall n :: n in done ==> n in nodes && n in todo[..i])
      && (forall n :: n in nodes ==> n in done || n in todo[i..])
      && (forall k :: i <= k < |todo| ==> todo[k] in nodes && todo[k] !in done && Hashed(todo[k], prev))
    }

    /** With nothing changing meanwhile: the live ones of the nodes walked are done,
        and of those with the same keys the first is linked. */
    ghost predicate Complete(todo: seq<StableNode>, i: nat, done: set<StableNode>, linked: seq<bool>, strength: nat) {
      i <= |todo| == |linked| && forall k :: 0 <= k < i ==>
        && (todo[k] in done <==> live(0, todo[k].kpfn))
        && (todo[k] in done ==> (linked[k] <==> FirstOfKeys(todo, k, strength)))
    }

    /** Two nodes of the list with the same hash at the strength. */
    ghost predicate Twins(todo: seq<StableNode>, j: nat, k: nat, strength: nat)
      requires j < |todo| && k < |todo|
    {
      && strength <= StrengthMax(nums) && Fits(todo[j].page, nums) && Fits(todo[k].page, nums)
      && HashAt(todo[j], strength) == HashAt(todo[k], strength)
    }

    ghost predicate HasTwin(todo: seq<StableNode>, k: nat, strength: nat)
      requires k < |todo|
    {
      exists j :: 0 <= j < |todo| && j != k && Twins(todo, j, k, strength)
    }

    /** A cache is filled only if another node of the list has the same hash. */
    ghost predicate OnlyTwinsFilled(todo: seq<StableNode>, was: seq<u32>, now: seq<u32>, strength: nat) {
      && |was| == |now| == |todo|
      && forall k :: 0 <= k < |todo| ==>
           now[k] == was[k] || (was[k] == 0 && now[k] != 0 && HasTwin(todo, k, strength))
    }

    ghost predicate LiveTwin(todo: seq<StableNode>, i: nat, k: nat, strength: nat)
      requires i <= |todo| && k < |todo|
    {
      exists j :: 0 <= j < i && j != k && live(0, todo[j].kpfn) && Twins(todo, j, k, strength)
    }

    /** With nothing changing meanwhile: of the live nodes walked, exactly those are
        cached that were before or share their hash with another live one walked. */
    ghost predicate TwinsFilled(todo: seq<StableNode>, i: nat, was: seq<u32>, now: seq<u32>, strength: nat) {
      && i <= |todo| == |was| == |now|
      && (forall k :: 0 <= k < i && live(0, todo[k].kpfn) ==>
            (now[k] != 0 <==> was[k] != 0 || LiveTwin(todo, i, k, strength)))
      && (forall k :: i <= k < |todo| ==> now[k] == was[k])
    }

    ghost predicate LinkedTwin(todo: seq<StableNode>, i: nat, done: set<StableNode>, linked: seq<bool>, k: nat, strength: nat)
      requires i < |todo| == |linked|
    {
      0 <= k < i && todo[k] in done && linked[k] && Twins(todo, k, i, strength)
    }

    /** What inserting the i-th node does to the caches when no node is lost. */
    ghost predicate StepFilled(todo: seq<StableNode>, i: nat, done: set<StableNode>, was: seq<u32>, now: seq<u32>,
                               linked: seq<bool>, strength: nat)
    {
      && i < |todo| == |was| == |now| == |linked|
      && (forall k :: 0 <= k < |todo| && k != i && !LinkedTwin(todo, i, done, linked, k, strength) ==> now[k] == was[k])
      && (forall k :: 0 <= k < i && LinkedTwin(todo, i, done, linked, k, strength) ==> now[k] != 0 && now[i] != 0)
      && ((forall k :: 0 <= k < i ==> !LinkedTwin(todo, i, done, linked, k, strength)) ==> now[i] == was[i])
    }

    lemma OnlyTwinsBoth(todo: seq<StableNode>, a: seq<u32>, b: seq<u32>, c: seq<u32>, strength: nat)
      requires OnlyTwinsFilled(todo, a, b, strength) && OnlyTwinsFilled(todo, b, c, strength)
      ensures OnlyTwinsFilled(todo, a, c, strength)
    {
    }

    lemma NothingFilled(todo: seq<StableNode>, i: nat, was: seq<u32>, strength: nat)
      requires |was| == |todo|
      ensures OnlyTwinsFilled(todo, was, was, strength) && TwinsFilled(todo, 0, was, was, strength)
    {
    }

    /** What an insertion does to the caches, along the list. */
    lemma FilledAlong(todo: seq<StableNode>, i: nat, done: set<StableNode>, twins: set<StableNode>,
                      gone: set<StableNode>, was: seq<u32>, now: seq<u32>, linked: seq<bool>, strength: nat)
      requires i < |todo| == |was| == |now| == |linked| && Distinct(todo) && forall n :: n in done ==> n in todo[..i]
      requires forall m :: m in twins ==> m in done
      requires forall k :: 0 <= k < i ==> (todo[k] in twins <==> LinkedTwin(todo, i, done, linked, k, strength))
      requires forall k :: 0 <= k < |todo| && k != i && todo[k] !in twins ==> now[k] == was[k]
      requires twins == {} || was[i] != 0 ==> now[i] == was[i]
      requires twins != {} ==> now[i] != 0
      requires forall k :: 0 <= k < i && todo[k] in twins ==> now[k] == was[k] || (was[k] == 0 && now[k] != 0)
      requires gone == {} ==> forall k :: 0 <= k < i && todo[k] in twins ==> now[k] != 0
      ensures OnlyTwinsFilled(todo, was, now, strength)
      ensures gone == {} ==> StepFilled(todo, i, done, was, now, linked, strength)
    {
      hide Fits, SampleHash, FullKey;
      forall m | m in twins ensures exists k :: 0 <= k < i && todo[k] == m {
        assert m in todo[..i];
      }
      forall k | 0 <= k < |todo| && now[k] != was[k]
        ensures was[k] == 0 && now[k] != 0 && HasTwin(todo, k, strength)
      {
        if k == i {
          var m :| m in twins;
          var j :| 0 <= j < i && todo[j] == m;
          assert Twins(todo, j, i, strength);
        } else {
          assert todo[k] in twins;
          var j :| 0 <= j < i && todo[j] == todo[k];
          assert j == k;
          assert Twins(todo, i, k, strength);
        }
      }
      forall k | 0 <= k < |todo| && k != i && !LinkedTwin(todo, i, done, linked, k, strength) ensures now[k] == was[k] {
        if todo[k] in twins {
          assert false;
        }
      }
      if forall k :: 0 <= k < i ==> !LinkedTwin(todo, i, done, linked, k, strength) {
        assert twins == {};
      }
    }

    /** A live node walked has a linked one of its keys, at the latest itself. */
    lemma LinkedWithKeys(todo: seq<StableNode>, i: nat, done: set<StableNode>, linked: seq<bool>, k: nat, strength: nat)
      returns (j: nat)
      requires Complete(todo, i, done, linked, strength) && k < i && live(0, todo[k].kpfn)
      ensures j < i && todo[j] in done && linked[j] && (j == k || SameKeys(todo[j], todo[k], strength))
    {
      hide SameKeys;
      if linked[k] {
        j := k;
      } else {
        assert !FirstOfKeys(todo, k, strength);
        var m :| 0 <= m < k && live(0, todo[m].kpfn) && SameKeys(todo[m], todo[k], strength);
        j := FirstBefore(todo, m, k, strength);
      }
    }

    /** The caches stay exact over a step. */
    lemma TwinsStep(todo: seq<StableNode>, i: nat, done: set<StableNode>, linked: seq<bool>, was: seq<u32>,
                    mid: seq<u32>, now: seq<u32>, strength: nat)
      requires i < |todo| == |linked|
      requires Complete(todo, i, done, linked, strength) && TwinsFilled(todo, i, was, mid, strength)
      requires if live(0, todo[i].kpfn) then StepFilled(todo, i, done, mid, now, linked, strength) else now == mid
      ensures TwinsFilled(todo, i + 1, was, now, strength)
    {
      hide Fits, SampleHash, FullKey, Complete;
      forall k | 0 <= k < i + 1 && live(0, todo[k].kpfn)
        ensures now[k] != 0 <==> was[k] != 0 || LiveTwin(todo, i + 1, k, strength)
      {
        TwinStep(todo, i, done, linked, was, mid, now, k, strength);
      }
      assert forall k :: i < k < |todo| ==> !LinkedTwin(todo, i, done, linked, k, strength);
    }

    lemma TwinStep(todo: seq<StableNode>, i: nat, done: set<StableNode>, linked: seq<bool>, was: seq<u32>,
                   mid: seq<u32>, now: seq<u32>, k: nat, strength: nat)
      requires i < |todo| && Complete(todo, i, done, linked, strength) && TwinsFilled(todo, i, was, mid, strength)
      requires if live(0, todo[i].kpfn) then StepFilled(todo, i, done, mid, now, linked, strength) else now == mid
      requires k <= i && live(0, todo[k].kpfn)
      ensures now[k] != 0 <==> was[k] != 0 || LiveTwin(todo, i + 1, k, strength)
    {
      hide Fits, SampleHash, FullKey;
      if k == i {
        if LiveTwin(todo, i + 1, i, strength) {
          var m :| 0 <= m < i && live(0, todo[m].kpfn) && Twins(todo, m, i, strength);
          var j := LinkedWithKeys(todo, i, done, linked, m, strength);
          assert LinkedTwin(todo, i, done, linked, j, strength);
        } else {
          forall j | 0 <= j < i ensures !LinkedTwin(todo, i, done, linked, j, strength) {
            assert todo[j] in done <==> live(0, todo[j].kpfn);
          }
        }
      } else if live(0, todo[i].kpfn) && Twins(todo, i, k, strength) {
        var j := LinkedWithKeys(todo, i, done, linked, k, strength);
        assert LinkedTwin(todo, i, done, linked, j, strength);
        if j != k {
          assert Twins(todo, j, k, strength) && live(0, todo[j].kpfn);
          assert LiveTwin(todo, i, k, strength);
        }
        assert LiveTwin(todo, i + 1, k, strength);
      } else {
        assert LiveTwin(todo, i + 1, k, strength) <==> LiveTwin(todo, i, k, strength);
        assert live(0, todo[i].kpfn) ==> !LinkedTwin(todo, i, done, linked, k, strength);
      }
    }

    /** The new hash of a node: moved if it was linked, sampled afresh if it was not. */
    method NewHash(node: StableNode, prev: nat, strength: nat, meter: BenefitMeter) returns (hash: u32)
      requires Hashed(node, prev) && strength <= StrengthMax(nums) && |nums| < U32_SIZE
      ensures hash == HashAt(node, strength)
    {
      hide Rehash, SampleHash;
      if node.treeNode != null {
        hash := DeltaHash(node.page, nums, prev, strength, node.treeNode.hash);
        IncrementalIsFromScratch(node.page, nums, prev, strength);
      } else {
        var h := HashPage(node.page, nums, strength, false, meter);
        hash := h.value;
      }
    }

    /** What a step comes to with nothing changing meanwhile. */
    ghost predicate StepOutcome(todo: seq<StableNode>, i: nat, done: set<StableNode>, now: set<StableNode>, strength: nat)
      requires i < |todo|
      reads todo, done
    {
      && AllLive(now) && done <= now <= done + {todo[i]} && (todo[i] in now <==> live(0, todo[i].kpfn))
      && (todo[i] in now && todo[i].treeNode == null ==>
            exists m :: m in done && m.treeNode != null && SameKeys(m, todo[i], strength))
    }

    /** Reinserting the i-th node of the list: what it does along the list. */
    method ReinsertAlong(todo: seq<StableNode>, i: nat, hash: u32, meter: BenefitMeter, ghost done: set<StableNode>,
                         strength: nat)
      returns (ghost gone: set<StableNode>)
      requires i < |todo| && Distinct(todo) && todo[i] !in done && forall n :: n in done ==> n in todo[..i]
      requires Pairs() && EachShares(nodes) && Distinct(nodes) && forall n :: n in done ==> n in nodes
      requires Built(roots[treeIndex], lists[treeIndex], done, strength)
      requires |nums| < U32_SIZE && Quiet(meter)
      requires Fits(todo[i].page, nums) && hash == HashAt(todo[i], strength)
      requires todo[i].hashMax == 0 || todo[i].hashMax == FullKey(todo[i])
      modifies this`looks, this`allocs, this`nodes, this`roots, this`lists, this`pagesShared, this`pagesSharing
      modifies lists[treeIndex], done`hashMax, todo[i], meter
      ensures Pairs() && OtherTreeSame(old(roots), old(lists))
      ensures gone <= done && TookOff(gone)
      ensures Built(roots[treeIndex], lists[treeIndex], done - gone + {todo[i]}, strength)
      ensures forall k :: 0 <= k < |lists[treeIndex]| ==>
        lists[treeIndex][k] in old(lists[treeIndex]) || fresh(lists[treeIndex][k])
      ensures OnlyPays(meter, Members(todo), strength)
      ensures Placed(todo[i], done, old(TwinsOf(done, hash, strength)), gone, strength, old(looks), old(allocs))
      ensures OnlyTwinsFilled(todo, old(Caches(todo)), Caches(todo), strength)
      ensures gone == {} ==>
        StepFilled(todo, i, done, old(Caches(todo)), Caches(todo), old(Linked(todo)), strength)
    {
      hide Built, Fits, SampleHash, FullKey, EachShares, Distinct, TakenOff, SameKeys, Paid, Uncached, Stale, Balanced, Quiet;
      hide OnlyTwinsFilled, StepFilled, OtherTreeSame, Placed, TookOff, OnlyPays, TwinsOf, LinkedTwin;
      BuiltStrength(roots[treeIndex], lists[treeIndex], done, strength);
      ghost var twins, was, linked := TwinsOf(done, hash, strength), Caches(todo), Linked(todo);
      TwinsAlong(todo, i, done, hash, strength);
      gone := StableNodeReinsert(todo[i], hash, meter, done, strength, Members(todo));
      ghost var now := Caches(todo);
      assert forall k :: 0 <= k < |todo| && k != i && todo[k] !in done ==> now[k] == was[k];
      FilledAlong(todo, i, done, twins, gone, was, now, linked, strength);
    }

    lemma TwinsAlong(todo: seq<StableNode>, i: nat, done: set<StableNode>, hash: u32, strength: nat)
      requires i < |todo| && Distinct(todo) && todo[i] !in done && forall n :: n in done ==> n in todo[..i]
      requires Fits(todo[i].page, nums) && strength <= StrengthMax(nums) && hash == HashAt(todo[i], strength)
      ensures forall k :: 0 <= k < i ==>
        (todo[k] in TwinsOf(done, hash, strength) <==> LinkedTwin(todo, i, done, Linked(todo), k, strength))
      ensures forall k :: 0 <= k < |todo| && todo[k] in done ==> k < i
      ensures forall m :: m in TwinsOf(done, hash, strength) ==> m in done
      ensures forall k :: 0 <= k < |todo| && k != i ==> todo[k] != todo[i]
    {
      hide Fits, SampleHash, FullKey;
      forall k | 0 <= k < |todo| && todo[k] in done ensures k < i {
        var j :| 0 <= j < i && todo[j] == todo[k];
      }
    }

    /** The part of the loop body for a page that is there: the node gets its place in
        the new tree. */
    method RehashNode(todo: seq<StableNode>, i: nat, hash: u32, ghost prev: nat, strength: nat, meter: BenefitMeter,
                      ghost done: set<StableNode>)
      returns (ghost gone: set<StableNode>)
      requires Rebuilding(todo, i, done, prev, strength) && i < |todo|
      requires |nums| < U32_SIZE && Quiet(meter) && hash == HashAt(todo[i], strength)
      modifies this`looks, this`allocs, this`nodes, this`roots, this`lists, this`pagesShared, this`pagesSharing
      modifies lists[treeIndex], done`hashMax, todo[i], meter
      ensures Rebuilding(todo, i + 1, done - gone + {todo[i]}, prev, strength) && OtherTreeSame(old(roots), old(lists))
      ensures gone <= done && TookOff(gone)
      ensures forall k :: 0 <= k < |lists[treeIndex]| ==>
        lists[treeIndex][k] in old(lists[treeIndex]) || fresh(lists[treeIndex][k])
      ensures Placed(todo[i], done, old(TwinsOf(done, hash, strength)), gone, strength, old(looks), old(allocs))
      ensures OnlyTwinsFilled(todo, old(Caches(todo)), Caches(todo), strength)
      ensures gone == {} ==>
        StepFilled(todo, i, done, old(Caches(todo)), Caches(todo), old(Linked(todo)), strength)
      ensures OnlyPays(meter, Members(todo), strength)
    {
      hide Fits, FullKey, SampleHash, EachShares, Distinct, SharedNodes, Items, Built, Stale, SameKeys, Paid, Uncached;
      hide TwinsOf, Placed, OnlyPays, OnlyTwinsFilled, StepFilled, Caches, Linked, Members, IsOne;
      var node := todo[i];
      assert node in nodes && Hashed(node, prev) && node !in done;
      StepApart(todo, i);
      gone := ReinsertAlong(todo, i, hash, meter, done, strength);
    }

    lemma BuiltStrength(root: Tree<TreeNode>, list: seq<TreeNode>, done: set<StableNode>, strength: nat)
      requires Built(root, list, done, strength)
      ensures strength <= StrengthMax(nums)
    {
    }

    /** The loop body for a page that is there. */
    method RebuildLive(todo: seq<StableNode>, i: nat, prev: nat, strength: nat, meter: BenefitMeter,
                       ghost done: set<StableNode>)
      returns (ghost gone: set<StableNode>)
      requires Rebuilding(todo, i, done, prev, strength) && i < |todo|
      requires |nums| < U32_SIZE && Quiet(meter)
      modifies this`looks, this`allocs, this`nodes, this`roots, this`lists, this`pagesShared, this`pagesSharing
      modifies lists[treeIndex], done`hashMax, todo[i], meter
      ensures Rebuilding(todo, i + 1, done - gone + {todo[i]}, prev, strength) && OtherTreeSame(old(roots), old(lists))
      ensures gone <= done && TookOff(gone)
      ensures forall k :: 0 <= k < |lists[treeIndex]| ==>
        lists[treeIndex][k] in old(lists[treeIndex]) || fresh(lists[treeIndex][k])
      ensures Placed(todo[i], done, old(TwinsOf(done, HashAt(todo[i], strength), strength)), gone, strength, old(looks), old(allocs))
      ensures OnlyTwinsFilled(todo, old(Caches(todo)), Caches(todo), strength)
      ensures gone == {} ==>
        StepFilled(todo, i, done, old(Caches(todo)), Caches(todo), old(Linked(todo)), strength)
      ensures OnlyPays(meter, Members(todo), strength)
    {
      hide Fits, FullKey, SampleHash, EachShares, Distinct, SharedNodes, Items, Built, Stale, SameKeys, Paid, Uncached;
      hide TwinsOf, Placed, OnlyTwinsFilled, StepFilled, Caches, Linked, Members, TakenOff, Quiet, IsOne;
      RebuildingAt(todo, i, done, prev, strength);
      ghost var was, linked, twins := Caches(todo), Linked(todo), TwinsOf(done, HashAt(todo[i], strength), strength);
      ghost var before := Uncached(Members(todo));
      hide Rebuilding;
      var hash := NewHash(todo[i], prev, strength, meter);
      assert Uncached(Members(todo)) == before;
      assert Caches(todo) == was && Linked(todo) == linked && TwinsOf(done, hash, strength) == twins;
      gone := RehashNode(todo, i, hash, prev, strength, meter, done);
    }

    /** What is known of the node at hand. */
    lemma RebuildingAt(todo: seq<StableNode>, i: nat, done: set<StableNode>, prev: nat, strength: nat)
      requires Rebuilding(todo, i, done, prev, strength) && i < |todo|
      ensures todo[i] in nodes && todo[i] !in done && Hashed(todo[i], prev) && strength <= StrengthMax(nums)
      ensures Fits(todo[i].page, nums)
    {
    }

    /** The look at the node's frame that the loop body begins with. */
    method LookAtNode(todo: seq<StableNode>, i: nat, ghost prev: nat, ghost strength: nat, ghost done: set<StableNode>)
      returns (found: bool)
      requires Rebuilding(todo, i, done, prev, strength) && i < |todo|
      modifies this`looks, this`nodes, this`roots, this`lists, this`pagesShared, this`pagesSharing
      ensures found == live(old(looks), todo[i].kpfn) && looks == old(looks) + 1
      ensures found ==> Rebuilding(todo, i, done, prev, strength) && nodes == old(nodes)
      ensures !found ==> Rebuilding(todo, i + 1, done, prev, strength)
      ensures Pairs() && roots == old(roots) && lists == old(lists) && LostOnlyStale()
    {
      hide EachShares, Distinct, SharedNodes, Items, Built, Hashed, Without;
      var node := todo[i];
      assert node in nodes && node !in done;
      OneTakenOff(nodes, node);
      ghost var ticks := looks;
      StepApart(todo, i);
      found := GetUksmPage(node, false, false);
      assert live(ticks, node.kpfn) == found;
    }

    /** The loop body of `stable_tree_delta_hash`. */
    method RebuildStep(todo: seq<StableNode>, i: nat, prev: nat, strength: nat, meter: BenefitMeter,
                       ghost done: set<StableNode>)
      returns (ghost now: set<StableNode>, ghost gone: set<StableNode>)
      requires Rebuilding(todo, i, done, prev, strength) && i < |todo|
      requires |nums| < U32_SIZE && Quiet(meter)
      modifies this`looks, this`allocs, this`nodes, this`roots, this`lists, this`pagesShared, this`pagesSharing
      modifies lists[treeIndex], done`hashMax, todo[i], meter
      ensures Rebuilding(todo, i + 1, now, prev, strength) && OtherTreeSame(old(roots), old(lists))
      ensures now == (if live(old(looks), todo[i].kpfn) then done - gone + {todo[i]} else done) && LostOnlyStale()
      ensures live(old(looks), todo[i].kpfn) ==>
        Placed(todo[i], done, old(TwinsOf(done, HashAt(todo[i], strength), strength)), gone, strength,
               old(looks) + 1, old(allocs))
      ensures !live(old(looks), todo[i].kpfn) ==> looks == old(looks) + 1 && allocs == old(allocs) && gone == {}
      ensures OnlyTwinsFilled(todo, old(Caches(todo)), Caches(todo), strength)
      ensures gone == {} ==>
        if live(old(looks), todo[i].kpfn)
        then StepFilled(todo, i, done, old(Caches(todo)), Caches(todo), old(Linked(todo)), strength)
        else Caches(todo) == old(Caches(todo))
      ensures forall k :: 0 <= k < |lists[treeIndex]| ==>
        lists[treeIndex][k] in old(lists[treeIndex]) || fresh(lists[treeIndex][k])
      ensures Steady() && AllLive(done) ==> StepOutcome(todo, i, done, now, strength)
      ensures OnlyPays(meter, Members(todo), strength)
    {
      hide EachShares, Distinct, SharedNodes, Items, Built, Hashed, SameKeys, Paid, Members, Uncached, Rebuilding;
      hide Fits, FullKey, SampleHash, TwinsOf, OnlyTwinsFilled, StepFilled, Caches, Linked, IsOne, Balanced, Quiet;
      RebuildingAt(todo, i, done, prev, strength);
      ghost var before, was := Uncached(Members(todo)), Caches(todo);
      ghost var linked, twins := Linked(todo), TwinsOf(done, HashAt(todo[i], strength), strength);
      NothingFilled(todo, i, was, strength);
      var found := LookAtNode(todo, i, prev, strength, done);
      assert Caches(todo) == was && Uncached(Members(todo)) == before;
      if !found {
        now, gone := done, {};
        PaidNothing(before, StrengthMax(nums) - strength, meter.rshashNeg);
      } else {
        assert Linked(todo) == linked && TwinsOf(done, HashAt(todo[i], strength), strength) == twins;
        gone := RebuildLive(todo, i, prev, strength, meter, done);
        now := done - gone + {todo[i]};
      }
    }

    /** Going back along the nodes with the same keys ends at the first live one. */
    lemma {:induction false} FirstBefore(todo: seq<StableNode>, j: nat, k: nat, strength: nat) returns (first: nat)
      requires j < k < |todo| && live(0, todo[j].kpfn) && SameKeys(todo[j], todo[k], strength)
      ensures first < k && live(0, todo[first].kpfn) && SameKeys(todo[first], todo[k], strength)
      ensures FirstOfKeys(todo, first, strength)
      decreases j
    {
      hide Fits, FullKey, SampleHash;
      if FirstOfKeys(todo, j, strength) {
        first := j;
      } else {
        var i :| 0 <= i < j && live(0, todo[i].kpfn) && SameKeys(todo[i], todo[j], strength);
        first := FirstBefore(todo, i, k, strength);
      }
    }

    /** The node just done is linked exactly if no live one before it has its keys. */
    lemma NewestComplete(todo: seq<StableNode>, i: nat, done: set<StableNode>, strength: nat,
                         root: Tree<TreeNode>, list: seq<TreeNode>)
      requires i < |todo| && Distinct(todo) && Built(root, list, done, strength)
      requires Complete(todo, i, done, Linked(todo), strength) && todo[i] in done
      requires todo[i].treeNode == null ==>
        exists m :: m in todo[..i] && m in done && m.treeNode != null && SameKeys(m, todo[i], strength)
      ensures todo[i].treeNode != null <==> FirstOfKeys(todo, i, strength)
    {
      hide Built, SameKeys;
      if todo[i].treeNode == null {
        var m :| m in todo[..i] && m in done && m.treeNode != null && SameKeys(m, todo[i], strength);
        var j :| 0 <= j < i && todo[j] == m;
        assert !FirstOfKeys(todo, i, strength);
      } else if !FirstOfKeys(todo, i, strength) {
        var j :| 0 <= j < i && live(0, todo[j].kpfn) && SameKeys(todo[j], todo[i], strength);
        var first := FirstBefore(todo, j, i, strength);
        LinkedApart(root, list, done, strength, todo[first], todo[i]);
      }
    }

    /** Completeness carries over a step that leaves the earlier nodes as they were. */
    lemma CompleteKept(todo: seq<StableNode>, i: nat, done: set<StableNode>, now: set<StableNode>,
                       was: seq<bool>, linked: seq<bool>, strength: nat)
      requires i < |todo| == |linked| && Distinct(todo) && Complete(todo, i, done, was, strength)
      requires done <= now <= done + {todo[i]}
      requires forall k :: 0 <= k < i ==> linked[k] == was[k]
      ensures Complete(todo, i, now, linked, strength)
    {
      hide FirstOfKeys;
      forall k | 0 <= k < i ensures todo[k] in now <==> todo[k] in done {
        assert todo[k] != todo[i];
      }
    }

    lemma NothingBuilt(strength: nat)
      requires strength <= StrengthMax(nums)
      ensures Built(Leaf, [], {}, strength)
    {
    }

    /** With no nodes the tree is settled at every strength. */
    lemma EmptySettled(strength: nat)
      requires Pairs() && current == treeIndex && nodes == [] && roots == [Leaf, Leaf] && lists == [[], []]
      requires strength <= StrengthMax(nums)
      ensures Settled(strength) && (pagesShared == pagesSharing == 0 ==> Balanced())
    {
      NothingBuilt(strength);
      assert Members(nodes) == {};
    }

    /** What the step makes complete. */
    lemma StepCompletes(todo: seq<StableNode>, i: nat, done: set<StableNode>, now: set<StableNode>,
                        was: seq<bool>, strength: nat, root: Tree<TreeNode>, list: seq<TreeNode>)
      requires i < |todo| && Distinct(todo) && Built(root, list, now, strength)
      requires (forall n :: n in done ==> n in todo[..i]) && StepOutcome(todo, i, done, now, strength)
      requires Complete(todo, i, done, was, strength) && forall k :: 0 <= k < i ==> Linked(todo)[k] == was[k]
      ensures Complete(todo, i + 1, now, Linked(todo), strength)
    {
      hide Built, SameKeys, FirstOfKeys, Distinct;
      CompleteKept(todo, i, done, now, was, Linked(todo), strength);
      if todo[i] in now {
        NewestComplete(todo, i, now, strength, root, list);
      }
    }

    /** One step, and what it makes complete. */
    method RebuildNext(todo: seq<StableNode>, i: nat, prev: nat, strength: nat, meter: BenefitMeter,
                       ghost done: set<StableNode>, ghost start: seq<u32>)
      returns (ghost now: set<StableNode>)
      requires Rebuilding(todo, i, done, prev, strength) && i < |todo|
      requires |nums| < U32_SIZE && Quiet(meter)
      modifies this`looks, this`allocs, this`nodes, this`roots, this`lists, this`pagesShared, this`pagesSharing
      modifies lists[treeIndex], done`hashMax, todo[i], meter
      ensures Rebuilding(todo, i + 1, now, prev, strength) && OtherTreeSame(old(roots), old(lists))
      ensures now <= done + {todo[i]} && LostOnlyStale()
      ensures forall k :: 0 <= k < |lists[treeIndex]| ==>
        lists[treeIndex][k] in old(lists[treeIndex]) || fresh(lists[treeIndex][k])
      ensures Steady() && AllLive(done) && old(Complete(todo, i, done, Linked(todo), strength)) ==>
        AllLive(now) && Complete(todo, i + 1, now, Linked(todo), strength)
      ensures OnlyTwinsFilled(todo, old(Caches(todo)), Caches(todo), strength)
      ensures Steady() && AllLive(done) && old(Complete(todo, i, done, Linked(todo), strength)) ==>
        TwinsFilled(todo, i, start, old(Caches(todo)), strength) ==>
          TwinsFilled(todo, i + 1, start, Caches(todo), strength)
      ensures OnlyPays(meter, Members(todo), strength)
    {
      hide Built, Hashed, EachShares, Balanced, SameKeys, Complete, Lost, Quiet, OtherTreeSame, Paid, Uncached, Members;
      hide Fits, FullKey, SampleHash, OnlyTwinsFilled, StepFilled, TwinsFilled, Caches;
      ghost var was, caches := Linked(todo), Caches(todo);
      assert forall n :: n in done ==> n in todo[..i];
      assert forall k :: 0 <= k < i ==> todo[k] != todo[i];
      ghost var gone: set<StableNode>;
      now, gone := RebuildStep(todo, i, prev, strength, meter, done);
      assert forall k :: 0 <= k < i ==> Linked(todo)[k] == was[k];
      if Steady() && AllLive(done) && Complete(todo, i, done, was, strength) {
        StepCompletes(todo, i, done, now, was, strength, roots[treeIndex], lists[treeIndex]);
        if TwinsFilled(todo, i, start, caches, strength) {
          TwinsStep(todo, i, done, was, start, caches, Caches(todo), strength);
        }
      }
    }

    /** The loop of `stable_tree_delta_hash`. */
    method RebuildAll(todo: seq<StableNode>, prev: nat, strength: nat, meter: BenefitMeter)
      returns (ghost done: set<StableNode>)
      requires Rebuilding(todo, 0, {}, prev, strength) && todo == nodes && lists[treeIndex] == []
      requires |nums| < U32_SIZE && Quiet(meter)
      modifies this`looks, this`allocs, this`nodes, this`roots, this`lists, this`pagesShared, this`pagesSharing
      modifies todo, meter
      ensures Rebuilding(todo, |todo|, done, prev, strength) && OtherTreeSame(old(roots), old(lists))
      ensures LostOnlyStale()
      ensures Steady() ==> Complete(todo, |todo|, done, Linked(todo), strength)
      ensures OnlyTwinsFilled(todo, old(Caches(todo)), Caches(todo), strength)
      ensures Steady() ==> TwinsFilled(todo, |todo|, old(Caches(todo)), Caches(todo), strength)
      ensures OnlyPays(meter, Members(todo), strength)
    {
      hide Built, Hashed, EachShares, Balanced, Complete, AllLive, Lost, Distinct, Rebuilding, Paid, Uncached, Members, Quiet, Steady, OnlyTwinsFilled, TwinsFilled, Caches;
      RebuildingPairs(todo, 0, {}, prev, strength);
      done := {};
      PaidNothing(Uncached(Members(todo)), StrengthMax(nums) - strength, meter.rshashNeg);
      LostNothing(nodes, looks);
      NothingFilled(todo, 0, Caches(todo), strength);
      CompleteAtStart(todo, Linked(todo), strength);
      var i := 0;
      while i < |todo|
        invariant i <= |todo| && Rebuilding(todo, i, done, prev, strength)
        invariant Pairs() && OtherTreeSame(old(roots), old(lists))
        invariant forall k :: 0 <= k < |lists[treeIndex]| ==> fresh(lists[treeIndex][k])
        invariant forall n :: n in done ==> n in todo
        invariant LostOnlyStale()
        invariant Steady() ==> AllLive(done) && Complete(todo, i, done, Linked(todo), strength)
        invariant OnlyTwinsFilled(todo, old(Caches(todo)), Caches(todo), strength)
        invariant Steady() ==> TwinsFilled(todo, i, old(Caches(todo)), Caches(todo), strength)
        invariant Quiet(meter) && meter.View() == old(meter.View()).(rshashNeg := meter.rshashNeg)
        invariant strength <= StrengthMax(nums)
        invariant Paid(old(Uncached(Members(todo))), Uncached(Members(todo)), StrengthMax(nums) - strength, old(meter.rshashNeg), meter.rshashNeg)
      {
        ghost var before, neg, left, at := Uncached(Members(todo)), meter.rshashNeg, nodes, looks;
        ghost var caches := Caches(todo);
        done := RebuildNext(todo, i, prev, strength, meter, done, old(Caches(todo)));
        OnlyTwinsBoth(todo, old(Caches(todo)), caches, Caches(todo), strength);
        PaidBoth(old(Uncached(Members(todo))), before, Uncached(Members(todo)), StrengthMax(nums) - strength,
                 old(meter.rshashNeg), neg, meter.rshashNeg);
        LostBoth(old(nodes), left, nodes, old(looks), at, looks);
        i := i + 1;
        RebuildingPairs(todo, i, done, prev, strength);
      }
    }

    lemma CompleteAtStart(todo: seq<StableNode>, linked: seq<bool>, strength: nat)
      requires |linked| == |todo|
      ensures AllLive({}) && Complete(todo, 0, {}, linked, strength)
    {
    }

    lemma RebuildingPairs(todo: seq<StableNode>, i: nat, done: set<StableNode>, prev: nat, strength: nat)
      requires Rebuilding(todo, i, done, prev, strength)
      ensures Pairs() && treeIndex != current && strength <= StrengthMax(nums)
    {
    }

    /** `stable_tree_delta_hash`: every hash moves to the new strength and the tree is
        built anew beside the old one, which is then given up. */
    method StableTreeDeltaHash(prev: nat, strength: nat, meter: BenefitMeter)
      requires Pairs() && treeIndex == current && lists[1 - current] == []
      requires Distinct(nodes) && EachShares(nodes) && forall n :: n in nodes ==> Hashed(n, prev)
      requires strength <= StrengthMax(nums) && |nums| < U32_SIZE && Quiet(meter)
      modifies this, nodes, meter
      ensures Settled(strength) && current == 1 - old(current) && LostOnlyStale()
      ensures Steady() ==> Complete(old(nodes), |old(nodes)|, Members(nodes), Linked(old(nodes)), strength)
      ensures OnlyTwinsFilled(old(nodes), old(Caches(nodes)), Caches(old(nodes)), strength)
      ensures Steady() ==> TwinsFilled(old(nodes), |old(nodes)|, old(Caches(nodes)), Caches(old(nodes)), strength)
      ensures Quiet(meter) && meter.View() == old(meter.View()).(rshashNeg := meter.rshashNeg)
      ensures Paid(old(Uncached(Members(nodes))), Uncached(Members(old(nodes))), StrengthMax(nums) - strength, old(meter.rshashNeg), meter.rshashNeg)
    {
      hide Built, EachShares, Balanced, Complete, Hashed, Lost, Steady, Rebuilding, Settled, Distinct, Paid, OnlyTwinsFilled, TwinsFilled, Caches;
      var todo := nodes;
      BeginRebuild(prev, strength);
      ghost var done := RebuildAll(todo, prev, strength, meter);
      FinishRebuild(todo, done, prev, strength);
    }

    /** Turn to the other tree, empty. */
    method BeginRebuild(ghost prev: nat, ghost strength: nat)
      requires Pairs() && treeIndex == current && lists[1 - current] == []
      requires Distinct(nodes) && EachShares(nodes) && forall n :: n in nodes ==> Hashed(n, prev)
      requires strength <= StrengthMax(nums)
      modifies this`treeIndex, this`roots
      ensures Rebuilding(nodes, 0, {}, prev, strength) && lists[treeIndex] == []
      ensures treeIndex == 1 - old(treeIndex) && (old(Balanced()) ==> Balanced())
    {
      hide Built, EachShares, SharedNodes, Items, Hashed;
      treeIndex := (treeIndex + 1) % 2;
      roots := roots[treeIndex := Leaf];
      NothingBuilt(strength);
    }

    /** The new tree is in use; the tree nodes of the old one are freed. */
    method FinishRebuild(ghost todo: seq<StableNode>, ghost done: set<StableNode>, ghost prev: nat, ghost strength: nat)
      requires Rebuilding(todo, |todo|, done, prev, strength)
      modifies this`lists, this`current
      ensures Settled(strength) && done == Members(nodes) && current == 1 - old(current)
      ensures old(Balanced()) ==> Balanced()
    {
      hide Built, EachShares, SharedNodes, Items;
      assert done == Members(nodes);
      lists := lists[current := []];
      current := treeIndex;
    }

    // -------------------------------------------------------------------------
    // Taking a node off a settled tree
    // -------------------------------------------------------------------------

    /** Unlinking the node and, after the last one, its tree node keeps the tree settled
        over the nodes that remain. (A tree node kept without nodes would not be.) */
    method RemoveSettledNode(node: StableNode, ghost strength: nat)
      requires Settled(strength) && Balanced() && node in nodes
      modifies this`nodes, this`roots, this`lists, this`pagesShared, this`pagesSharing, lists[current]
      ensures Settled(strength) && Balanced() && nodes == Without(old(nodes), node)
    {
      hide Balanced, EachShares, Distinct, Built, NodeOk;
      ghost var done, root, list := Members(nodes), roots[current], lists[current];
      OneTakenOff(nodes, node);
      assert Members(Without(nodes, node)) == done - {node};
      BuiltNode(node, root, list, done, strength);
      RemoveFromBuilt(node, root, list, done, strength);
    }

    lemma BuiltNode(node: StableNode, root: Tree<TreeNode>, list: seq<TreeNode>, done: set<StableNode>, strength: nat)
      requires Built(root, list, done, strength) && node in done
      ensures node.treeNode != null ==> node.treeNode in list && node.treeNode.count >= 1
    {
      assert NodeOk(node, list, strength);
      assert node.treeNode != null ==> SubTreeOk(node.treeNode, done);
    }

    method RemoveFromBuilt(node: StableNode, ghost root: Tree<TreeNode>, ghost list: seq<TreeNode>,
                           ghost done: set<StableNode>, ghost strength: nat)
      requires Pairs() && node in nodes && EachShares(nodes) && node in done
      requires root == roots[current] && list == lists[current] && Built(root, list, done, strength)
      requires node.treeNode != null ==> node.treeNode in list && node.treeNode.count >= 1
      modifies this`nodes, this`roots, this`lists, this`pagesShared, this`pagesSharing, list
      ensures Pairs() && nodes == Without(old(nodes), node) && EachShares(nodes) && (old(Balanced()) ==> Balanced())
      ensures lists[1 - current] == old(lists[1 - current])
      ensures Built(roots[current], lists[current], done - {node}, strength)
    {
      hide FullKey, SampleHash, Fits, EachShares, InOrder, Balanced, FirstLevelOk, Without, Erase, NodesOk;
      assert NodeOk(node, list, strength);
      NodeApart(node, root, list, done, strength);
      if node.treeNode == null {
        RemoveNodeFromStableTree(node, true, true);
      } else {
        ghost var t: TreeNode := node.treeNode;
        assert SubTreeOk(t, done);
        SubTreeWithout(t, InOrder(t.subRoot), node, done);
        FirstLevelWithout(root, list, t);
        RemoveNodeFromStableTree(node, true, true);
        LeafEmpty(t.subRoot);
      }
    }

    /** The rest of the tree does not know the node. */
    lemma NodeApart(node: StableNode, root: Tree<TreeNode>, list: seq<TreeNode>, done: set<StableNode>, strength: nat)
      requires Built(root, list, done, strength) && node in done
      ensures forall u :: u in list && u != node.treeNode ==> SubTreeOk(u, done - {node})
    {
      hide FirstLevelOk, FullKey, SampleHash, Fits, InOrder;
      forall u | u in list && u != node.treeNode ensures SubTreeOk(u, done - {node}) {
        assert SubTreeOk(u, done);
        assert forall i :: 0 <= i < |InOrder(u.subRoot)| ==> InOrder(u.subRoot)[i] != node;
      }
    }
  }

  lemma LeafEmpty<T>(t: Tree<T>)
    ensures t == Leaf <==> InOrder(t) == []
  {
    if InOrder(t) == [] {
      EmptyInOrder(t);
    }
  }

  lemma SubTreeWithout(t: TreeNode, ns: seq<StableNode>, node: StableNode, done: set<StableNode>)
    requires NodesOk(t, ns, done) && node in ns
    ensures var w := Without(ns, node);
      && |w| == |ns| - 1 && NodesOk(t, w, done - {node})
      && (forall n :: n in ns && n != node ==> n in w)
  {
    hide Without;
    assert Distinct(ns) by {
      forall i, j | 0 <= i < j < |ns| ensures ns[i] != ns[j] {
        assert ns[i].hashMax < ns[j].hashMax;
      }
    }
    WithoutDistinct(ns, node);
    var k := WithoutPlaces(ns, node);
    var w := Without(ns, node);
    forall i | 0 <= i < |w| ensures w[i] == ns[if i < k then i else i + 1] && w[i] in done - {node} && w[i].treeNode == t {
    }
  }

  lemma RisingDistinct(ts: seq<TreeNode>)
    requires Rising(ts)
    ensures Distinct(ts)
  {
    forall i, j | 0 <= i < j < |ts| ensures ts[i] != ts[j] {
      assert ts[i].hash < ts[j].hash;
    }
  }

  lemma FirstLevelWithout(root: Tree<TreeNode>, list: seq<TreeNode>, t: TreeNode)
    requires FirstLevelOk(root, list) && t in list
    ensures FirstLevelOk(Erase(root, t), Without(list, t))
    ensures forall u :: u in Without(list, t) ==> u in list && u != t
    ensures forall u :: u in list && u != t ==> u in Without(list, t)
  {
    hide Without, Erase, InOrder;
    EraseInOrder(root, t);
    var ts := InOrder(root);
    RisingDistinct(ts);
    WithoutDistinct(list, t);
    WithoutDistinct(ts, t);
    var k := WithoutPlaces(ts, t);
    var w := Without(ts, t);
    forall i, j | 0 <= i < j < |w| ensures w[i].hash < w[j].hash {
      assert w[i] == ts[if i < k then i else i + 1] && w[j] == ts[if j < k then j else j + 1];
    }
    var root', list' := Erase(root, t), Without(list, t);
    assert Rising(InOrder(root'));
    forall u | u in InOrder(root') ensures u in list' {
      assert u in ts && u != t;
    }
    forall u | u in list' ensures u in InOrder(root') {
      assert u in list && u != t;
    }
  }

  /** One step along a list without repetitions. */
  lemma StepApart<T>(todo: seq<T>, i: nat)
    requires i < |todo| && Distinct(todo)
    ensures forall n :: n in todo[..i + 1] <==> n in todo[..i] || n == todo[i]
    ensures forall n :: n in todo[i..] <==> n in todo[i + 1..] || n == todo[i]
    ensures forall k :: i < k < |todo| ==> todo[k] != todo[i] && todo[k] !in todo[..i + 1]
  {
    assert todo[..i + 1] == todo[..i] + [todo[i]];
    assert todo[i..] == [todo[i]] + todo[i + 1..];
  }

  lemma FoundInOrder<T>(root: Tree<T>, path: seq<Side>)
    requires At(root, path).Node?
    ensures At(root, path).item in InOrder(root)
  {
    var n := At(root, path);
    InOrderAround(root, path);
    SplitAt(Before(root, path), InOrder(n.left), n.item, InOrder(n.right), After(root, path));
  }

  ghost predicate IsOne<T>(s: set<T>) { exists m :: m in s && s == {m} }

  /** On an empty link where a hash would hang, no tree node of the list has it. */
  lemma NoneOfHash(root: Tree<TreeNode>, path: seq<Side>, list: seq<TreeNode>, hash: u32)
    requires FirstLevelOk(root, list) && At(root, path).Leaf?
    requires forall i :: 0 <= i < |Before(root, path)| ==> Before(root, path)[i].hash < hash
    requires forall i :: 0 <= i < |After(root, path)| ==> After(root, path)[i].hash > hash
    ensures forall t :: t in list ==> t.hash != hash
  {
    hide At, Before, After, InOrder;
    InOrderAround(root, path);
    EmptyLink(root, path);
    forall t | t in list ensures t.hash != hash {
      var i :| 0 <= i < |InOrder(root)| && InOrder(root)[i] == t;
      var n := |Before(root, path)|;
      assert t == if i < n then Before(root, path)[i] else After(root, path)[i - n];
    }
  }

  lemma EmptyLink<T>(root: Tree<T>, path: seq<Side>)
    requires At(root, path).Leaf?
    ensures InOrder(At(root, path)) == []
  {
  }

  /** A new tree node where its hash belongs keeps the first level in order. */
  lemma LinkedFirstLevel(root: Tree<TreeNode>, list: seq<TreeNode>, path: seq<Side>, t: TreeNode)
    requires FirstLevelOk(root, list) && At(root, path).Leaf?
    requires forall i :: 0 <= i < |Before(root, path)| ==> Before(root, path)[i].hash < t.hash
    requires forall i :: 0 <= i < |After(root, path)| ==> After(root, path)[i].hash > t.hash
    requires t !in list
    ensures FirstLevelOk(Link(root, path, t), [t] + list)
  {
    hide At, Before, After, Spliced, InOrder, Link;
    LinkedIsSpliced(root, path, t);
    SplicedMembers(root, path, t);
    SplicedRising(root, path, t);
  }

  lemma LinkedIsSpliced<T>(root: Tree<T>, path: seq<Side>, x: T)
    requires At(root, path).Leaf?
    ensures InOrder(Link(root, path, x)) == Spliced(root, path, x)
  {
    LinkInOrder(root, path, x);
  }

  lemma SplicedRising(root: Tree<TreeNode>, path: seq<Side>, t: TreeNode)
    requires At(root, path).Leaf? && Rising(InOrder(root))
    requires forall i :: 0 <= i < |Before(root, path)| ==> Before(root, path)[i].hash < t.hash
    requires forall i :: 0 <= i < |After(root, path)| ==> After(root, path)[i].hash > t.hash
    ensures Rising(Spliced(root, path, t))
  {
    hide At, Before, After, Spliced, InOrder;
    SplicedPlaces(root, path, t);
    var s, n := Spliced(root, path, t), |Before(root, path)|;
    forall i, j | 0 <= i < j < |s| ensures s[i].hash < s[j].hash {
      if j == n {
        assert s[i] == Before(root, path)[i];
      } else if i == n {
        assert s[j] == After(root, path)[j - n - 1];
      } else {
        assert s[i] == InOrder(root)[if i < n then i else i - 1];
        assert s[j] == InOrder(root)[if j < n then j else j - 1];
      }
    }
  }

  /** A list after some of its nodes were taken off. */
  ghost predicate TakenOff(after: seq<StableNode>, before: seq<StableNode>, gone: set<StableNode>) {
    && (gone == {} ==> after == before)
    && (forall n :: n in after ==> n in before && n !in gone)
    && (forall n :: n in before ==> n in after || n in gone)
  }

  lemma NoneTakenOff(ns: seq<StableNode>)
    ensures TakenOff(ns, ns, {})
  {
  }

  lemma OneTakenOff(ns: seq<StableNode>, n: StableNode)
    requires Distinct(ns)
    ensures n in ns ==> Distinct(Without(ns, n)) && TakenOff(Without(ns, n), ns, {n})
    ensures TakenOff(ns, ns, {})
  {
    if n in ns {
      WithoutDistinct(ns, n);
    }
  }

  /** `rb_entry` of the root, which is all there is when the count is one. */
  function SoleItem<T>(root: Tree<T>): (x: T)
    requires |InOrder(root)| == 1
    ensures InOrder(root) == [x]
  {
    assert |InOrder(root)| == |InOrder(root.left)| + 1 + |InOrder(root.right)|;
    root.item
  }

  lemma SingleNode<T>(root: Tree<T>, x: T)
    requires InOrder(root) == [x]
    ensures root == Node(Leaf, x, Leaf)
  {
    assert |InOrder(root)| == |InOrder(root.left)| + 1 + |InOrder(root.right)|;
    EmptyInOrder(root.left);
    EmptyInOrder(root.right);
    assert InOrder(root)[0] == root.item;
  }

  lemma TakeAway(x: int, y: int)
    ensures (x % U64_SIZE - y) % U64_SIZE == (x - y) % U64_SIZE
  {
  }

  lemma EmptyInOrder<T>(t: Tree<T>)
    requires InOrder(t) == []
    ensures t == Leaf
  {
  }

  /** Taking a node off keeps the balance, whatever the counters passed through. */
  lemma Rebalance(ns: seq<StableNode>, n: StableNode, shared: u64, sharing: u64)
    requires n in ns && EachShares(ns)
    requires shared == SharedNodes(ns) && shared + sharing == Items(ns)
    ensures var w := Without(ns, n);
      var shared' := (if n.sharers == [] then shared else (shared - 1) % U64_SIZE);
      var sharing' := (if n.sharers == [] then sharing else (sharing - Sum(n.sharers) + 1) % U64_SIZE);
      shared' == SharedNodes(w) && shared' + sharing' == Items(w)
  {
    WithoutCounts(ns, n);
    WithoutShares(ns, n);
    SharedAtMostItems(Without(ns, n));
  }

  lemma {:induction false} WithoutShares(ns: seq<StableNode>, n: StableNode)
    requires EachShares(ns) && n in ns
    ensures EachShares(Without(ns, n))
  {
    var k := WithoutAt(ns, n);
  }
}
