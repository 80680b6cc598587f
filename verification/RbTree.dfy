/** Search trees as the kernel's callers use them: they walk down to an empty link,
    hang a node there, and take nodes out again. What the balancing does to the shape
    is left open; it never changes the order of the nodes. */
module RbTree {
  import opened Lists

  datatype Tree<T> = Leaf | Node(left: Tree<T>, item: T, right: Tree<T>)

  datatype Side = Left | Right

  function InOrder<T>(t: Tree<T>): seq<T> {
    match t
    case Leaf => []
    case Node(l, x, r) => InOrder(l) + [x] + InOrder(r)
  }

  /** The subtree behind the link that a path of turns leads to. */
  function At<T>(t: Tree<T>, path: seq<Side>): Tree<T> {
    if path == [] || t.Leaf? then t
    else At(if path[0].Left? then t.left else t.right, path[1..])
  }

  /** The items passed on the left of that link, in order. */
  function Before<T>(t: Tree<T>, path: seq<Side>): seq<T> {
    if path == [] || t.Leaf? then []
    else if path[0].Left? then Before(t.left, path[1..])
    else InOrder(t.left) + [t.item] + Before(t.right, path[1..])
  }

  function After<T>(t: Tree<T>, path: seq<Side>): seq<T> {
    if path == [] || t.Leaf? then []
    else if path[0].Left? then After(t.left, path[1..]) + [t.item] + InOrder(t.right)
    else After(t.right, path[1..])
  }

  /** `rb_link_node`: a new node on the empty link. */
  function Link<T>(t: Tree<T>, path: seq<Side>, x: T): Tree<T> {
    if t.Leaf? then Node(Leaf, x, Leaf)
    else if path == [] then t
    else if path[0].Left? then Node(Link(t.left, path[1..], x), t.item, t.right)
    else Node(t.left, t.item, Link(t.right, path[1..], x))
  }

  function Join<T>(l: Tree<T>, r: Tree<T>): Tree<T> {
    if r.Leaf? then l else Node(Join(l, r.left), r.item, r.right)
  }

  /** `rb_erase` */
  function Erase<T(==)>(t: Tree<T>, x: T): Tree<T> {
    match t
    case Leaf => Leaf
    case Node(l, y, r) =>
      if x in InOrder(l) then Node(Erase(l, x), y, r)
      else if x == y then Join(l, r)
      else Node(l, y, Erase(r, x))
  }

  lemma {:induction false} InOrderAround<T>(t: Tree<T>, path: seq<Side>)
    ensures InOrder(t) == Before(t, path) + InOrder(At(t, path)) + After(t, path)
  {
    if path != [] && t.Node? {
      InOrderAround(if path[0].Left? then t.left else t.right, path[1..]);
    }
  }

  lemma TopOfTree<T>(t: Tree<T>)
    ensures At(t, []) == t && Before(t, []) == [] && After(t, []) == []
  {
  }

  /** One turn further down. */
  lemma {:induction false} Descend<T>(t: Tree<T>, path: seq<Side>, side: Side)
    requires At(t, path).Node?
    ensures var n := At(t, path);
      if side.Left? then
        && At(t, path + [side]) == n.left
        && Before(t, path + [side]) == Before(t, path)
        && After(t, path + [side]) == [n.item] + InOrder(n.right) + After(t, path)
      else
        && At(t, path + [side]) == n.right
        && Before(t, path + [side]) == Before(t, path) + InOrder(n.left) + [n.item]
        && After(t, path + [side]) == After(t, path)
    decreases |path|
  {
    hide InOrder;
    assert path + [side] != [];
    if path == [] {
      assert (path + [side])[1..] == [];
      TopOfTree(if side.Left? then t.left else t.right);
    } else {
      assert (path + [side])[0] == path[0] && (path + [side])[1..] == path[1..] + [side];
      Descend(if path[0].Left? then t.left else t.right, path[1..], side);
    }
  }

  lemma {:induction false} LinkInOrder<T>(t: Tree<T>, path: seq<Side>, x: T)
    requires At(t, path).Leaf?
    ensures InOrder(Link(t, path, x)) == Before(t, path) + [x] + After(t, path)
    decreases |path|
  {
    if t.Node? {
      LinkInOrder(if path[0].Left? then t.left else t.right, path[1..], x);
    }
  }

  lemma {:induction false} JoinInOrder<T>(l: Tree<T>, r: Tree<T>)
    ensures InOrder(Join(l, r)) == InOrder(l) + InOrder(r)
  {
    if r.Node? {
      JoinInOrder(l, r.left);
    }
  }

  lemma {:induction false} EraseInOrder<T>(t: Tree<T>, x: T)
    ensures InOrder(Erase(t, x)) == Without(InOrder(t), x)
  {
    hide Without;
    match t
    case Leaf => WithoutNone(x);
    case Node(l, y, r) =>
      WithoutInMiddle(InOrder(l), y, InOrder(r), x);
      EraseInOrder(l, x);
      EraseInOrder(r, x);
      JoinInOrder(l, r);
  }
}
