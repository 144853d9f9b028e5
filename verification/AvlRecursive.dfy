/** The recursive tree, which stores heights instead of balance factors, and its agreement with the
    iterative one. A direction stands for its mirrored pairs of functions. */
module AvlRecursive {
  import opened AvlTree
  import opened AvlKeyRemove

  datatype HTree = HLeaf | HNode(left: HTree, ptr: int, h: nat, key: int, right: HTree) {
    function Kid(d: Dir): HTree
      requires HNode?
    {
      if d == 0 then left else right
    }

    function With(d: Dir, t: HTree): HTree
      requires HNode?
    {
      if d == 0 then this.(left := t) else this.(right := t)
    }

    /** The stored height, 0 for a null node. */
    function Stored(): nat { if HLeaf? then 0 else h }

    /** The node with its height computed from those of its kids. */
    function Computed(): HTree
      requires HNode?
    {
      this.(h := (if left.Stored() > right.Stored() then left.Stored() else right.Stored()) + 1)
    }
  }

  /** The rotation of the kid on side d above t. */
  function RotateSingle(t: HTree, d: Dir): (r: HTree)
    requires t.HNode? && t.Kid(d).HNode?
    ensures r.HNode?
  {
    var x := t.Kid(d);
    x.With(Other(d), t.With(d, x.Kid(Other(d))).Computed()).Computed()
  }

  function RotateDouble(t: HTree, d: Dir): (r: HTree)
    requires t.HNode? && t.Kid(d).HNode? && t.Kid(d).Kid(Other(d)).HNode?
    ensures r.HNode?
  {
    RotateSingle(t.With(d, RotateSingle(t.Kid(d), Other(d))), d)
  }

  /** Restores the balance of t after key k was inserted on side d. The code would follow a null link
      where the node to rotate is missing; by Agree this never happens. */
  function Restored(t: HTree, d: Dir, k: int): (r: HTree)
    requires t.HNode?
    ensures r.HNode?
  {
    var x, o := t.Kid(d), Other(d);
    if x.Stored() - t.Kid(o).Stored() < 2 || x.HLeaf? then t
    else if (if d == 0 then x.key > k else x.key < k) then RotateSingle(t, d)
    else if x.Kid(o).HNode? then RotateDouble(t, d)
    else t
  }

  function RecInsert(t: HTree, k: int, n: int): HTree {
    if t.HLeaf? then HNode(HLeaf, n, 1, k, HLeaf)
    else if t.key == k then t
    else
      var d: Dir := if t.key > k then 0 else 1;
      Restored(t.With(d, RecInsert(t.Kid(d), k, n)), d, k).Computed()
  }

  /** The same tree with heights stored. */
  function ToHeights(t: Tree): (r: HTree)
    ensures r.HNode? == t.Node? && r.Stored() == Height(t)
  {
    if t.Leaf? then HLeaf else HNode(ToHeights(t.left), t.ptr, Height(t), t.key, ToHeights(t.right))
  }

  /** The node t with its kids' heights stored, and some height h of its own. */
  function Hat(t: Tree, h: nat): (r: HTree)
    requires t.Node?
    ensures r.HNode? && r.Kid(0) == ToHeights(t.left) && r.Kid(1) == ToHeights(t.right)
    ensures r.Computed() == ToHeights(t)
  {
    HNode(ToHeights(t.left), t.ptr, h, t.key, ToHeights(t.right))
  }

  /** A rotation stores the right heights, whatever height was stored at the top. */
  lemma SingleAgrees(t: Tree, d: Dir, xbal: int, tbal: int, h: nat)
    requires t.Node? && t.Kid(d).Node?
    ensures RotateSingle(Hat(t, h), d) == ToHeights(Single(t, d, xbal, tbal))
  {
    var x, o := t.Kid(d), Other(d);
    var b := Mk(d, x.Kid(o), t.Kid(o), t.ptr, tbal, t.key);
    var u := Mk(d, x.Kid(d), b, x.ptr, xbal, x.key);
    assert Hat(t, h).With(d, ToHeights(x.Kid(o))) == Hat(b, h);
    assert ToHeights(x).With(o, ToHeights(b)) == Hat(u, Height(x));
  }

  lemma {:induction false} SameHeights(t: Tree, u: Tree)
    requires t.Node? && u.Node? && ItemOf(t) == ItemOf(u)
    requires ToHeights(t.left) == ToHeights(u.left) && ToHeights(t.right) == ToHeights(u.right)
    ensures ToHeights(t) == ToHeights(u)
  {
  }

  lemma DoubleAgrees(t: Tree, d: Dir, h: nat)
    requires t.Node? && t.Kid(d).Node? && t.Kid(d).Kid(Other(d)).Node?
    ensures RotateDouble(Hat(t, h), d) == ToHeights(Double(t, d))
  {
    var x := t.Kid(d);
    var t1 := t.With(d, Single(x, Other(d), 0, 0));
    SingleAgrees(x, Other(d), 0, 0, Height(x));
    var u := Hat(t, h);
    assert u.With(d, ToHeights(Single(x, Other(d), 0, 0))) == Hat(t1, h);
    SingleAgrees(t1, d, 0, 0, h);
    DoubleIsSingles(t, d);
  }

  lemma DoubleIsSingles(t: Tree, d: Dir)
    requires t.Node? && t.Kid(d).Node? && t.Kid(d).Kid(Other(d)).Node?
    ensures ToHeights(Single(t.With(d, Single(t.Kid(d), Other(d), 0, 0)), d, 0, 0)) == ToHeights(Double(t, d))
  {
    var s := Single(t.With(d, Single(t.Kid(d), Other(d), 0, 0)), d, 0, 0);
    var r := Double(t, d);
    SameHeights(s.left, r.left);
    SameHeights(s.right, r.right);
    SameHeights(s, r);
  }

  /** A subtree that grew, and was not empty, kept its root and leans to the side of the new key. */
  lemma GrownLeans(t: Tree, k: int, n: int)
    requires t.Node? && Balanced(t) && Insert(t, k, n).grew
    ensures Insert(t, k, n).t.Node? && Insert(t, k, n).t.key == t.key
    ensures Insert(t, k, n).t.bal == Sign(Side(k, t))
  {}

  /** Key k belongs on side d below the node t. */
  predicate Beyond(t: Tree, d: Dir, k: int)
    requires t.Node?
  {
    if d == 0 then t.key > k else t.key < k
  }

  /** Restoring the balance agrees with the growth of the iterative tree. */
  lemma GrowthAgrees(t: Tree, d: Dir, k: int, h: nat)
    requires Overgrown(t, d)
    requires t.bal == Sign(d) ==> (t.Kid(d).bal == Sign(d) <==> Beyond(t.Kid(d), d, k))
    ensures Restored(Hat(t, h), d, k).Computed() == ToHeights(AfterGrowth(t, d).t)
  {
    if t.bal == Sign(d) {
      RotationAgrees(t, d, k, h);
    } else {
      assert Restored(Hat(t, h), d, k) == Hat(t, h);
      SameHeights(t, AfterGrowth(t, d).t);
    }
  }

  lemma RotationAgrees(t: Tree, d: Dir, k: int, h: nat)
    requires Overgrown(t, d) && t.bal == Sign(d)
    requires t.Kid(d).bal == Sign(d) <==> Beyond(t.Kid(d), d, k)
    ensures Restored(Hat(t, h), d, k).Computed() == ToHeights(AfterGrowth(t, d).t)
  {
    var x, o := t.Kid(d), Other(d);
    var u := Hat(t, h);
    KidsBalanced(x, o);
    assert u.Kid(d) == ToHeights(x) && u.Kid(o) == ToHeights(t.Kid(o));
    assert u.Kid(d).Stored() - u.Kid(o).Stored() == 2;
    if x.bal == Sign(d) {
      SingleAgrees(t, d, 0, 0, h);
      TopComputed(Single(t, d, 0, 0));
    } else {
      assert u.Kid(d).Kid(o) == ToHeights(x.Kid(o));
      DoubleAgrees(t, d, h);
      TopComputed(Double(t, d));
    }
  }

  lemma TopComputed(t: Tree)
    requires t.Node?
    ensures ToHeights(t).Computed() == ToHeights(t)
  {
    assert ToHeights(t) == Hat(t, Height(t));
  }

  /** The node above, whether its kid grew or not. */
  lemma AttachAgrees(t: Tree, d: Dir, r: Grown, k: int)
    requires t.Node? && Balanced(t) && Raises(Height(t.Kid(d)), r)
    requires r.grew && t.bal == Sign(d) ==> (r.t.bal == Sign(d) <==> Beyond(r.t, d, k))
    ensures Restored(ToHeights(t).With(d, ToHeights(r.t)), d, k).Computed() == ToHeights(Attach(t, d, r).t)
  {
    var u := t.With(d, r.t);
    KidsBalanced(t, d);
    assert u.Kid(d) == r.t && u.Kid(Other(d)) == t.Kid(Other(d)) && u.bal == t.bal;
    assert ToHeights(t).With(d, ToHeights(r.t)) == Hat(u, Height(t));
    if r.grew {
      GrowthAgrees(u, d, k, Height(t));
    } else {
      var v := Hat(u, Height(t));
      assert v.Kid(d) == ToHeights(r.t) && v.Kid(Other(d)) == ToHeights(t.Kid(Other(d)));
      assert Restored(v, d, k) == v;
    }
  }

  /** The two insertions agree on every AVL tree that does not hold the key. */
  lemma {:induction false} Agree(t: Tree, k: int, n: int)
    requires Balanced(t) && !Present(t, k)
    ensures RecInsert(ToHeights(t), k, n) == ToHeights(Insert(t, k, n).t)
  {
    if t.Node? {
      var d := Side(k, t);
      var kid, r := t.Kid(d), Insert(t.Kid(d), k, n);
      KidsBalanced(t, d);
      Agree(kid, k, n);
      InsertBalanced(kid, k, n);
      if kid.Node? && r.grew { GrownLeans(kid, k, n); }
      AttachAgrees(t, d, r, k);
      assert ToHeights(t).Kid(d) == ToHeights(kid);
    }
  }

  /** A key that is there is left alone. */
  lemma {:induction false} AgreePresent(t: Tree, k: int, n: int)
    requires Balanced(t) && Present(t, k)
    ensures RecInsert(ToHeights(t), k, n) == ToHeights(t)
  {
    if t.key != k {
      var d := Side(k, t);
      KidsBalanced(t, d);
      AgreePresent(t.Kid(d), k, n);
      assert ToHeights(t).With(d, ToHeights(t.Kid(d))) == ToHeights(t);
    }
  }

  // ---- the recursive tree on its own ----

  /** Every stored height is right and the two sides differ by at most one. */
  predicate Exact(t: HTree) {
    t.HNode? ==>
      && Exact(t.left) && Exact(t.right)
      && t == t.Computed()
      && -1 <= t.right.Stored() - t.left.Stored() <= 1
  }

  function ToBalances(t: HTree): Tree {
    if t.HLeaf? then Leaf
    else Node(ToBalances(t.left), t.ptr, t.right.Stored() - t.left.Stored(), t.key, ToBalances(t.right))
  }

  /** The two forms of an AVL tree carry the same information. */
  lemma {:induction false} FormsMatch(t: HTree)
    requires Exact(t)
    ensures Balanced(ToBalances(t)) && ToHeights(ToBalances(t)) == t && Height(ToBalances(t)) == t.Stored()
  {
    if t.HNode? {
      FormsMatch(t.left);
      FormsMatch(t.right);
    }
  }

  lemma {:induction false} FormsMatchBack(t: Tree)
    requires Balanced(t)
    ensures Exact(ToHeights(t)) && ToBalances(ToHeights(t)) == t
  {
    if t.Node? {
      FormsMatchBack(t.left);
      FormsMatchBack(t.right);
    }
  }

  /** The recursive insertion keeps every height right and the tree balanced. */
  lemma RecInsertExact(t: HTree, k: int, n: int)
    requires Exact(t)
    ensures Exact(RecInsert(t, k, n))
  {
    var b := ToBalances(t);
    FormsMatch(t);
    if Present(b, k) {
      AgreePresent(b, k, n);
    } else {
      Agree(b, k, n);
      InsertBalanced(b, k, n);
      FormsMatchBack(Insert(b, k, n).t);
    }
  }

  /** The search loop. */
  method Get(t: HTree, k: int) returns (c: HTree)
    ensures c.HNode? <==> Present(ToBalances(t), k)
    ensures c.HNode? ==> ToBalances(c) == At(ToBalances(t), FindPath(ToBalances(t), k))
  {
    c := t;
    while c.HNode? && c.key != k
      invariant Present(ToBalances(c), k) <==> Present(ToBalances(t), k)
      invariant Present(ToBalances(c), k) ==>
                  At(ToBalances(c), FindPath(ToBalances(c), k)) == At(ToBalances(t), FindPath(ToBalances(t), k))
      decreases c
    {
      c := if k < c.key then c.left else c.right;
    }
  }
}
