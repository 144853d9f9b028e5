/** AVL trees as values: nodes carry the address they are stored at, a balance factor and a key.
    The two sides of a node are named by a direction, 0 for left and 1 for right. */
module AvlTree {

  type Dir = d: int | 0 <= d <= 1

  function Other(d: Dir): Dir { 1 - d }

  /** -1 for a node heavier on the left, +1 on the right. */
  function Sign(d: Dir): int { if d == 0 then -1 else 1 }

  datatype Tree = Leaf | Node(left: Tree, ptr: int, bal: int, key: int, right: Tree) {
    function Kid(d: Dir): Tree
      requires Node?
    {
      if d == 0 then left else right
    }

    function With(d: Dir, t: Tree): Tree
      requires Node?
    {
      if d == 0 then this.(left := t) else this.(right := t)
    }
  }

  function Max(a: nat, b: nat): nat { if a > b then a else b }

  function Height(t: Tree): nat {
    if t.Leaf? then 0 else 1 + Max(Height(t.left), Height(t.right))
  }

  /** Every stored balance factor is the height of the right side minus that of the left,
      and lies in -1..1. */
  predicate Balanced(t: Tree) {
    t.Node? ==>
      && Balanced(t.left)
      && Balanced(t.right)
      && t.bal == Height(t.right) - Height(t.left)
      && -1 <= t.bal <= 1
  }

  /** A node as a caller sees it: where it is stored and its key. */
  datatype Item = Item(ptr: int, key: int)

  function ItemOf(t: Tree): Item
    requires t.Node?
  {
    Item(t.ptr, t.key)
  }

  function InOrder(t: Tree): seq<Item> {
    if t.Leaf? then [] else InOrder(t.left) + [ItemOf(t)] + InOrder(t.right)
  }

  // ---- rotations ----

  /** The node with a on side d and b on the other. */
  function Mk(d: Dir, a: Tree, b: Tree, ptr: int, bal: int, key: int): Tree {
    if d == 0 then Node(a, ptr, bal, key, b) else Node(b, ptr, bal, key, a)
  }

  /** The links a rotation towards side d follows are there. */
  predicate CanRotate(t: Tree, d: Dir, double: bool)
    requires t.Node?
  {
    t.Kid(d).Node? && (double ==> t.Kid(d).Kid(Other(d)).Node?)
  }

  /** The kid x on side d takes the place of t. */
  function Single(t: Tree, d: Dir, xbal: int, tbal: int): Tree
    requires t.Node? && t.Kid(d).Node?
  {
    var x, o := t.Kid(d), Other(d);
    Mk(d, x.Kid(d), Mk(d, x.Kid(o), t.Kid(o), t.ptr, tbal, t.key), x.ptr, xbal, x.key)
  }

  /** The inner grandchild w on side d takes the place of t; the balances depend on that of w. */
  function Double(t: Tree, d: Dir): Tree
    requires t.Node? && t.Kid(d).Node? && t.Kid(d).Kid(Other(d)).Node?
  {
    var x, o := t.Kid(d), Other(d);
    var w := x.Kid(o);
    var xbal := if w.bal == Sign(d) || w.bal == 0 then 0 else Sign(d);
    var tbal := if w.bal == Sign(d) then Sign(o) else 0;
    Mk(d, Mk(d, x.Kid(d), w.Kid(d), x.ptr, xbal, x.key),
          Mk(d, w.Kid(o), t.Kid(o), t.ptr, tbal, t.key), w.ptr, 0, w.key)
  }

  lemma SingleInOrder(t: Tree, d: Dir, xbal: int, tbal: int)
    requires t.Node? && t.Kid(d).Node?
    ensures InOrder(Single(t, d, xbal, tbal)) == InOrder(t)
  {
    var x := t.Kid(d);
    if d == 0 {
      Reassociate(InOrder(x.left), ItemOf(x), InOrder(x.right), ItemOf(t), InOrder(t.right));
    } else {
      Reassociate(InOrder(t.left), ItemOf(t), InOrder(x.left), ItemOf(x), InOrder(x.right));
    }
  }

  lemma Reassociate(a: seq<Item>, k: Item, b: seq<Item>, m: Item, c: seq<Item>)
    ensures (a + [k] + b) + [m] + c == a + [k] + (b + [m] + c)
  {}

  /** A double rotation moves the keys like two single ones. */
  lemma DoubleInOrder(t: Tree, d: Dir)
    requires t.Node? && t.Kid(d).Node? && t.Kid(d).Kid(Other(d)).Node?
    ensures InOrder(Double(t, d)) == InOrder(t)
  {
    var x := t.Kid(d);
    var t1 := t.With(d, Single(x, Other(d), 0, 0));
    SingleInOrder(x, Other(d), 0, 0);
    SingleInOrder(t1, d, 0, 0);
    SameKeys(Double(t, d), Single(t1, d, 0, 0));
  }

  predicate Alike(t: Tree, u: Tree) {
    if t.Leaf? || u.Leaf? then t == u
    else ItemOf(t) == ItemOf(u) && InOrder(t.left) == InOrder(u.left) && InOrder(t.right) == InOrder(u.right)
  }

  lemma SameKeys(t: Tree, u: Tree)
    requires Alike(t, u)
    ensures InOrder(t) == InOrder(u)
  {}

  /** The balance factor of a node with height hd on side d and ho on the other. */
  function Tilt(d: Dir, hd: int, ho: int): int { if d == 0 then ho - hd else hd - ho }

  lemma NodeBalanced(d: Dir, a: Tree, b: Tree, ptr: int, bal: int, key: int)
    requires Balanced(a) && Balanced(b) && bal == Tilt(d, Height(a), Height(b)) && -1 <= bal <= 1
    ensures Balanced(Mk(d, a, b, ptr, bal, key))
    ensures Height(Mk(d, a, b, ptr, bal, key)) == 1 + Max(Height(a), Height(b))
  {}

  lemma KidsBalanced(t: Tree, d: Dir)
    requires t.Node? && Balanced(t)
    ensures Balanced(t.Kid(d)) && Balanced(t.Kid(Other(d)))
    ensures t.bal == Tilt(d, Height(t.Kid(d)), Height(t.Kid(Other(d)))) && -1 <= t.bal <= 1
    ensures Height(t) == 1 + Max(Height(t.Kid(d)), Height(t.Kid(Other(d))))
    ensures t.bal == Sign(d) ==> t.Kid(d).Node?
    ensures t.bal == Sign(Other(d)) ==> t.Kid(Other(d)).Node?
  {}

  lemma SingleBalanced(t: Tree, d: Dir, xbal: int, tbal: int, a: nat, b: nat, c: nat)
    requires t.Node? && t.Kid(d).Node?
    requires var x := t.Kid(d);
             && Balanced(x.Kid(d)) && Balanced(x.Kid(Other(d))) && Balanced(t.Kid(Other(d)))
             && Height(x.Kid(d)) == a && Height(x.Kid(Other(d))) == b && Height(t.Kid(Other(d))) == c
    requires tbal == Tilt(d, b, c) && -1 <= tbal <= 1
    requires xbal == Tilt(d, a, 1 + Max(b, c)) && -1 <= xbal <= 1
    ensures Balanced(Single(t, d, xbal, tbal))
    ensures Height(Single(t, d, xbal, tbal)) == 1 + Max(a, 1 + Max(b, c))
  {
    var x, o := t.Kid(d), Other(d);
    var t' := Mk(d, x.Kid(o), t.Kid(o), t.ptr, tbal, t.key);
    NodeBalanced(d, x.Kid(o), t.Kid(o), t.ptr, tbal, t.key);
    NodeBalanced(d, x.Kid(d), t', x.ptr, xbal, x.key);
  }

  lemma DoubleBalanced(t: Tree, d: Dir, h: nat)
    requires t.Node? && t.Kid(d).Node? && t.Kid(d).Kid(Other(d)).Node?
    requires var x := t.Kid(d); var w := x.Kid(Other(d));
             && Balanced(x.Kid(d)) && Height(x.Kid(d)) == h
             && Balanced(t.Kid(Other(d))) && Height(t.Kid(Other(d))) == h
             && Balanced(w) && Height(w) == h + 1
    ensures Balanced(Double(t, d)) && Height(Double(t, d)) == h + 2
  {
    var x, o := t.Kid(d), Other(d);
    var w := x.Kid(o);
    KidsBalanced(w, d);
    var xbal := if w.bal == Sign(d) || w.bal == 0 then 0 else Sign(d);
    var tbal := if w.bal == Sign(d) then Sign(o) else 0;
    NodeBalanced(d, x.Kid(d), w.Kid(d), x.ptr, xbal, x.key);
    NodeBalanced(d, w.Kid(o), t.Kid(o), t.ptr, tbal, t.key);
    NodeBalanced(d, Mk(d, x.Kid(d), w.Kid(d), x.ptr, xbal, x.key),
                 Mk(d, w.Kid(o), t.Kid(o), t.ptr, tbal, t.key), w.ptr, 0, w.key);
  }

  // ---- insertion ----

  datatype Grown = Grown(t: Tree, grew: bool)

  /** Side on which key k belongs below a node: an equal key goes left. */
  function Side(k: int, t: Tree): Dir
    requires t.Node?
  {
    if k > t.key then 1 else 0
  }

  /** t is an AVL node but for its kid on side d, which has grown by one since bal was set. */
  ghost predicate Overgrown(t: Tree, d: Dir) {
    && t.Node? && -1 <= t.bal <= 1
    && t.Kid(d).Node? && Balanced(t.Kid(d)) && Balanced(t.Kid(Other(d)))
    && t.bal == Tilt(d, Height(t.Kid(d)) - 1, Height(t.Kid(Other(d))))
    && (t.bal == Sign(d) ==> t.Kid(d).bal != 0)
  }

  /** The node t once its kid on side d has grown by one. The code would follow a null link where
      the kid or grandchild it rotates is missing; GrowthRaises shows that this never happens. */
  function AfterGrowth(t: Tree, d: Dir): Grown
    requires t.Node?
  {
    if t.bal == 0 then Grown(t.(bal := Sign(d)), true)
    else if t.bal == -Sign(d) then Grown(t.(bal := 0), false)
    else if !CanRotate(t, d, t.Kid(d).Node? && t.Kid(d).bal != Sign(d)) then Grown(t, false)
    else if t.Kid(d).bal == Sign(d) then Grown(Single(t, d, 0, 0), false)
    else Grown(Double(t, d), false)
  }

  /** The height once the kid on side d was one lower. */
  ghost function HeightBefore(t: Tree, d: Dir): int
    requires t.Node?
  {
    1 + var a, b := Height(t.Kid(d)) - 1, Height(t.Kid(Other(d))); if a > b then a else b
  }

  /** An insertion leaves an AVL tree, higher by one exactly when it says so. */
  ghost predicate Raises(h: int, r: Grown) {
    && r.t.Node? && Balanced(r.t)
    && Height(r.t) == h + (if r.grew then 1 else 0)
    && (r.grew && h > 0 ==> r.t.bal != 0)
  }

  lemma GrowthRotates(t: Tree, d: Dir)
    requires Overgrown(t, d) && t.bal == Sign(d)
    ensures Raises(HeightBefore(t, d), AfterGrowth(t, d))
  {
    var x, h := t.Kid(d), Height(t.Kid(Other(d)));
    KidsBalanced(x, d);
    if x.bal == Sign(d) {
      SingleBalanced(t, d, 0, 0, h + 1, h, h);
    } else {
      DoubleBalanced(t, d, h);
    }
  }

  lemma GrowthRaises(t: Tree, d: Dir)
    requires Overgrown(t, d)
    ensures Raises(HeightBefore(t, d), AfterGrowth(t, d))
  {
    if t.bal == Sign(d) {
      GrowthRotates(t, d);
    } else {
      var b := if t.bal == 0 then Sign(d) else 0;
      NodeBalanced(d, t.Kid(d), t.Kid(Other(d)), t.ptr, b, t.key);
    }
  }

  function Attach(t: Tree, d: Dir, r: Grown): Grown
    requires t.Node?
  {
    if r.grew then AfterGrowth(t.With(d, r.t), d) else Grown(t.With(d, r.t), false)
  }

  lemma AttachRaises(t: Tree, d: Dir, r: Grown)
    requires t.Node? && Balanced(t) && Raises(Height(t.Kid(d)), r)
    ensures Raises(Height(t), Attach(t, d, r))
  {
    KidsBalanced(t, d);
    var u := t.With(d, r.t);
    assert u.Kid(d) == r.t && u.Kid(Other(d)) == t.Kid(Other(d)) && u.bal == t.bal;
    if r.grew {
      GrowthRaises(u, d);
    } else {
      NodeBalanced(d, r.t, t.Kid(Other(d)), t.ptr, t.bal, t.key);
    }
  }

  /** Insertion of key k in a new node stored at n. */
  function Insert(t: Tree, k: int, n: int): Grown {
    if t.Leaf? then Grown(Node(Leaf, n, 0, k, Leaf), true)
    else Attach(t, Side(k, t), Insert(t.Kid(Side(k, t)), k, n))
  }

  /** Insertion keeps the AVL property; the height grows by one when it says so. */
  lemma {:induction false} InsertBalanced(t: Tree, k: int, n: int)
    requires Balanced(t)
    ensures Raises(Height(t), Insert(t, k, n))
  {
    if t.Node? {
      var d := Side(k, t);
      KidsBalanced(t, d);
      InsertBalanced(t.Kid(d), k, n);
      AttachRaises(t, d, Insert(t.Kid(d), k, n));
    }
  }

  // ---- deletion ----

  datatype Shrunk = Shrunk(t: Tree, shrank: bool)

  /** t is an AVL node but for its kid on side d, which has shrunk by one since bal was set. */
  ghost predicate Undergrown(t: Tree, d: Dir) {
    && t.Node? && -1 <= t.bal <= 1
    && Balanced(t.Kid(d)) && Balanced(t.Kid(Other(d)))
    && t.bal == Tilt(d, Height(t.Kid(d)) + 1, Height(t.Kid(Other(d))))
  }

  /** The node t once its kid on side d has shrunk by one. */
  function AfterShrink(t: Tree, d: Dir): Shrunk
    requires t.Node?
  {
    var o := Other(d);
    if t.bal == 0 then Shrunk(t.(bal := Sign(o)), false)
    else if t.bal == Sign(d) then Shrunk(t.(bal := 0), true)
    else if !CanRotate(t, o, t.Kid(o).Node? && t.Kid(o).bal == Sign(d)) then Shrunk(t, false)
    else if t.Kid(o).bal == Sign(d) then Shrunk(Double(t, o), true)
    else if t.Kid(o).bal == 0 then Shrunk(Single(t, o, Sign(d), Sign(o)), false)
    else Shrunk(Single(t, o, 0, 0), true)
  }

  /** A deletion leaves an AVL tree, lower by one exactly when it says so. */
  ghost predicate Lowers(h: int, r: Shrunk) {
    Balanced(r.t) && h == Height(r.t) + if r.shrank then 1 else 0
  }

  lemma ShrinkRotates(t: Tree, d: Dir)
    requires Undergrown(t, d) && t.bal == Sign(Other(d))
    ensures Lowers(Height(t.Kid(d)) + 3, AfterShrink(t, d))
  {
    var o, h := Other(d), Height(t.Kid(d));
    var x := t.Kid(o);
    KidsBalanced(x, o);
    if x.bal == Sign(d) {
      DoubleBalanced(t, o, h);
    } else if x.bal == 0 {
      SingleBalanced(t, o, Sign(d), Sign(o), h + 1, h + 1, h);
    } else {
      SingleBalanced(t, o, 0, 0, h + 1, h, h);
    }
  }

  lemma ShrinkLowers(t: Tree, d: Dir)
    requires Undergrown(t, d)
    ensures Lowers(1 + Max(Height(t.Kid(d)) + 1, Height(t.Kid(Other(d)))), AfterShrink(t, d))
  {
    var o := Other(d);
    if t.bal == Sign(o) {
      ShrinkRotates(t, d);
    } else {
      var b := if t.bal == 0 then Sign(o) else 0;
      NodeBalanced(d, t.Kid(d), t.Kid(o), t.ptr, b, t.key);
    }
  }

  function Replace(t: Tree, d: Dir, s: Shrunk): Shrunk
    requires t.Node?
  {
    if s.shrank then AfterShrink(t.With(d, s.t), d) else Shrunk(t.With(d, s.t), false)
  }

  lemma ReplaceLowers(t: Tree, d: Dir, s: Shrunk)
    requires t.Node? && Balanced(t) && Lowers(Height(t.Kid(d)), s)
    ensures Lowers(Height(t), Replace(t, d, s))
  {
    KidsBalanced(t, d);
    if s.shrank {
      ShrinkLowers(t.With(d, s.t), d);
    } else {
      NodeBalanced(d, s.t, t.Kid(Other(d)), t.ptr, t.bal, t.key);
    }
  }

  /** Removal of the leftmost node. */
  function DeleteMin(t: Tree): Shrunk
    requires t.Node?
  {
    if t.left.Leaf? then Shrunk(t.right, true) else Replace(t, 0, DeleteMin(t.left))
  }

  function Leftmost(t: Tree): (m: Tree)
    requires t.Node?
    ensures m.Node? && m.left.Leaf?
  {
    if t.left.Leaf? then t else Leftmost(t.left)
  }

  /** Removal of the root: its left side if it has no right one, else its successor takes its place. */
  function DeleteRoot(t: Tree): Shrunk
    requires t.Node?
  {
    if t.right.Leaf? then Shrunk(t.left, true)
    else Replace(t.(ptr := Leftmost(t.right).ptr, key := Leftmost(t.right).key), 1, DeleteMin(t.right))
  }

  predicate IsPath(t: Tree, ds: seq<Dir>) {
    ds != [] ==> t.Node? && IsPath(t.Kid(ds[0]), ds[1..])
  }

  function At(t: Tree, ds: seq<Dir>): Tree
    requires IsPath(t, ds)
  {
    if ds == [] then t else At(t.Kid(ds[0]), ds[1..])
  }

  lemma {:induction false} AtBalanced(t: Tree, ds: seq<Dir>)
    requires Balanced(t) && IsPath(t, ds)
    ensures Balanced(At(t, ds))
  {
    if ds != [] { AtBalanced(t.Kid(ds[0]), ds[1..]); }
  }

  /** Removal of the node at the end of a path. */
  function DeleteAt(t: Tree, ds: seq<Dir>): Shrunk
    requires IsPath(t, ds) && At(t, ds).Node?
  {
    if ds == [] then DeleteRoot(t) else Replace(t, ds[0], DeleteAt(t.Kid(ds[0]), ds[1..]))
  }

  lemma {:induction false} DeleteMinBalanced(t: Tree)
    requires t.Node? && Balanced(t)
    ensures Lowers(Height(t), DeleteMin(t))
  {
    if t.left.Node? {
      DeleteMinBalanced(t.left);
      ReplaceLowers(t, 0, DeleteMin(t.left));
    }
  }

  lemma DeleteRootBalanced(t: Tree)
    requires t.Node? && Balanced(t)
    ensures Lowers(Height(t), DeleteRoot(t))
  {
    if t.right.Node? {
      DeleteMinBalanced(t.right);
      ReplaceLowers(t.(ptr := Leftmost(t.right).ptr, key := Leftmost(t.right).key), 1, DeleteMin(t.right));
    }
  }

  /** Deletion keeps the AVL property; the height drops by one when it says so. */
  lemma {:induction false} DeleteBalanced(t: Tree, ds: seq<Dir>)
    requires IsPath(t, ds) && At(t, ds).Node? && Balanced(t)
    ensures Lowers(Height(t), DeleteAt(t, ds))
  {
    if ds == [] {
      DeleteRootBalanced(t);
    } else {
      KidsBalanced(t, ds[0]);
      DeleteBalanced(t.Kid(ds[0]), ds[1..]);
      ReplaceLowers(t, ds[0], DeleteAt(t.Kid(ds[0]), ds[1..]));
    }
  }
}
