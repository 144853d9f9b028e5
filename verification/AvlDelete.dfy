/** Deletion as the iterative code sees it: unlink a node with at most one kid, then go back up
    the path, rebalancing while the subtree below has shrunk. */
module AvlDelete {
  import opened AvlTree
  import opened AvlOrder
  import opened AvlHeap
  import opened AvlInsert

  /** Going back up the path ds with result r for the subtree at its end. */
  function Fold(t: Tree, ds: seq<Dir>, r: Shrunk): Shrunk
    requires IsPath(t, ds)
  {
    if ds == [] then r else Replace(t, ds[0], Fold(t.Kid(ds[0]), ds[1..], r))
  }

  /** Going back up from a subtree that has just shrunk. */
  function Unwind(t: Tree, ds: seq<Dir>): Shrunk
    requires IsPath(t, ds)
  {
    Fold(t, ds, Shrunk(At(t, ds), true))
  }

  lemma {:induction false} DeleteIsFold(t: Tree, ds: seq<Dir>)
    requires IsPath(t, ds) && At(t, ds).Node?
    ensures DeleteAt(t, ds) == Fold(t, ds, DeleteRoot(At(t, ds)))
  {
    if ds != [] { DeleteIsFold(t.Kid(ds[0]), ds[1..]); }
  }

  /** The subtree at the end of the path does not matter. */
  lemma {:induction false} FoldPut(t: Tree, ds: seq<Dir>, s: Tree, r: Shrunk)
    requires IsPath(t, ds)
    ensures IsPath(Put(t, ds, s), ds) && Fold(Put(t, ds, s), ds, r) == Fold(t, ds, r)
  {
    if ds != [] {
      FoldPut(t.Kid(ds[0]), ds[1..], s, r);
      WithTwice(t, ds[0], Put(t.Kid(ds[0]), ds[1..], s), Fold(t.Kid(ds[0]), ds[1..], r).t);
    }
  }

  lemma WithTwice(t: Tree, d: Dir, a: Tree, b: Tree)
    requires t.Node?
    ensures t.With(d, a).With(d, b) == t.With(d, b) && t.With(d, a).Kid(d) == a
  {}

  lemma {:induction false} FoldConcat(t: Tree, ds: seq<Dir>, es: seq<Dir>, r: Shrunk)
    requires IsPath(t, ds) && IsPath(At(t, ds), es)
    ensures IsPath(t, ds + es) && Fold(t, ds + es, r) == Fold(t, ds, Fold(At(t, ds), es, r))
  {
    PathConcat(t, ds, es);
    if ds != [] {
      assert (ds + es)[1..] == ds[1..] + es;
      FoldConcat(t.Kid(ds[0]), ds[1..], es, r);
    } else {
      assert ds + es == es;
    }
  }

  /** Stopping: a subtree that did not shrink only takes its place. */
  lemma {:induction false} FoldStops(t: Tree, ds: seq<Dir>, s: Tree)
    requires IsPath(t, ds)
    ensures Fold(t, ds, Shrunk(s, false)) == Shrunk(Put(t, ds, s), false)
  {
    if ds != [] { FoldStops(t.Kid(ds[0]), ds[1..], s); }
  }

  /** One step up the path: rebalance the node above, then stop or go on. */
  lemma UnwindStep(t: Tree, ds: seq<Dir>, d: Dir)
    requires IsPath(t, ds) && At(t, ds).Node?
    ensures IsPath(t, ds + [d])
    ensures var r := AfterShrink(At(t, ds), d);
            && IsPath(Put(t, ds, r.t), ds)
            && Unwind(t, ds + [d]) == if r.shrank then Unwind(Put(t, ds, r.t), ds) else Shrunk(Put(t, ds, r.t), false)
  {
    var u := At(t, ds);
    var r := AfterShrink(u, d);
    var kid := u.Kid(d);
    assert IsPath(u, [d]) && At(u, [d]) == kid by { assert [d][1..] == []; }
    PathConcat(t, ds, [d]);
    FoldConcat(t, ds, [d], Shrunk(kid, true));
    assert Fold(u, [d], Shrunk(kid, true)) == r by {
      assert [d][1..] == [];
      assert u.With(d, kid) == u;
    }
    PutPath(t, ds, r.t);
    if r.shrank {
      FoldPut(t, ds, r.t, r);
    } else {
      FoldStops(t, ds, r.t);
    }
  }

  // ---- the successor ----

  /** The path to the leftmost node. */
  function LeftPath(t: Tree): (ds: seq<Dir>)
    requires t.Node?
    ensures IsPath(t, ds) && At(t, ds) == Leftmost(t)
    ensures forall i :: 0 <= i < |ds| ==> ds[i] == 0
  {
    if t.left.Leaf? then [] else [0] + LeftPath(t.left)
  }

  lemma {:induction false} DeleteMinIsFold(t: Tree)
    requires t.Node?
    ensures DeleteMin(t) == Fold(t, LeftPath(t), Shrunk(Leftmost(t).right, true))
  {
    if t.left.Node? {
      assert LeftPath(t)[1..] == LeftPath(t.left);
      DeleteMinIsFold(t.left);
    }
  }

  /** The tree and the path once node u is unlinked: its left side, or its successor in its place. */
  function UnlinkedTree(u: Tree): Tree
    requires u.Node?
  {
    if u.right.Leaf? then u.left
    else
      var m := Leftmost(u.right);
      Node(u.left, m.ptr, u.bal, m.key, Put(u.right, LeftPath(u.right), m.right))
  }

  function UnlinkedPath(u: Tree): seq<Dir>
    requires u.Node?
  {
    if u.right.Leaf? then [] else [1] + LeftPath(u.right)
  }

  lemma UnlinkedUnwinds(u: Tree)
    requires u.Node?
    ensures IsPath(UnlinkedTree(u), UnlinkedPath(u))
    ensures DeleteRoot(u) == Unwind(UnlinkedTree(u), UnlinkedPath(u))
  {
    if u.right.Node? {
      var m, ls := Leftmost(u.right), LeftPath(u.right);
      var v := UnlinkedTree(u);
      PutPath(u.right, ls, m.right);
      FoldPut(u.right, ls, m.right, Shrunk(m.right, true));
      DeleteMinIsFold(u.right);
      assert ([1] + ls)[1..] == ls;
      WithTwice(u.(ptr := m.ptr, key := m.key), 1, v.right, DeleteMin(u.right).t);
    }
  }

  /** Unlinking anywhere in the tree. */
  lemma DeleteUnwinds(t: Tree, ds: seq<Dir>)
    requires IsPath(t, ds) && At(t, ds).Node?
    ensures var u := At(t, ds); var c, e := Put(t, ds, UnlinkedTree(u)), ds + UnlinkedPath(u);
            IsPath(c, e) && DeleteAt(t, ds) == Unwind(c, e)
  {
    var u := At(t, ds);
    var v, es := UnlinkedTree(u), UnlinkedPath(u);
    var c := Put(t, ds, v);
    DeleteIsFold(t, ds);
    UnlinkedUnwinds(u);
    PutPath(t, ds, v);
    PathConcat(c, ds, es);
    FoldConcat(c, ds, es, Shrunk(At(v, es), true));
    FoldPut(t, ds, v, DeleteRoot(u));
  }

  // ---- the balances while going up ----

  /** Height of t before the subtree at ds shrank. */
  function HeightWas(t: Tree, ds: seq<Dir>): nat
    requires IsPath(t, ds)
  {
    if ds == [] then Height(t) + 1
    else 1 + Max(HeightWas(t.Kid(ds[0]), ds[1..]), Height(t.Kid(Other(ds[0]))))
  }

  /** An AVL tree but for the subtree at ds, which has shrunk without its ancestors knowing. */
  predicate Pending(t: Tree, ds: seq<Dir>)
    requires IsPath(t, ds)
  {
    if ds == [] then Balanced(t)
    else
      var d := ds[0];
      && Pending(t.Kid(d), ds[1..])
      && Balanced(t.Kid(Other(d)))
      && t.bal == Tilt(d, HeightWas(t.Kid(d), ds[1..]), Height(t.Kid(Other(d))))
      && -1 <= t.bal <= 1
  }

  lemma {:induction false} PendingAt(t: Tree, ds: seq<Dir>, d: Dir)
    requires IsPath(t, ds) && IsPath(t, ds + [d]) && Pending(t, ds + [d])
    ensures Undergrown(At(t, ds), d)
  {
    PathPrefix(t, ds, d);
    if ds != [] {
      assert (ds + [d])[1..] == ds[1..] + [d];
      PendingAt(t.Kid(ds[0]), ds[1..], d);
    } else {
      assert (ds + [d])[1..] == [];
    }
  }

  /** After a rebalancing that shrank the node above, the next ancestors are pending. */
  lemma {:induction false} PendingStep(t: Tree, ds: seq<Dir>, d: Dir)
    requires IsPath(t, ds) && IsPath(t, ds + [d]) && Pending(t, ds + [d]) && At(t, ds).Node?
    requires AfterShrink(At(t, ds), d).shrank
    ensures var c := Put(t, ds, AfterShrink(At(t, ds), d).t);
            IsPath(c, ds) && Pending(c, ds) && HeightWas(c, ds) == HeightWas(t, ds + [d])
  {
    var r := AfterShrink(At(t, ds), d);
    PutPath(t, ds, r.t);
    if ds != [] {
      assert (ds + [d])[1..] == ds[1..] + [d];
      PendingStep(t.Kid(ds[0]), ds[1..], d);
    } else {
      assert (ds + [d])[1..] == [];
      PendingAt(t, ds, d);
      ShrinkLowers(t, d);
    }
  }

  lemma {:induction false} LeftPending(t: Tree)
    requires t.Node? && Balanced(t)
    ensures var c := Put(t, LeftPath(t), Leftmost(t).right);
            IsPath(c, LeftPath(t)) && Pending(c, LeftPath(t)) && HeightWas(c, LeftPath(t)) == Height(t)
  {
    PutPath(t, LeftPath(t), Leftmost(t).right);
    if t.left.Node? {
      assert LeftPath(t)[1..] == LeftPath(t.left);
      LeftPending(t.left);
    }
  }

  lemma UnlinkedPending(u: Tree)
    requires u.Node? && Balanced(u)
    ensures IsPath(UnlinkedTree(u), UnlinkedPath(u)) && Pending(UnlinkedTree(u), UnlinkedPath(u))
    ensures HeightWas(UnlinkedTree(u), UnlinkedPath(u)) == Height(u)
  {
    UnlinkedUnwinds(u);
    if u.right.Node? {
      LeftPending(u.right);
      assert ([1] + LeftPath(u.right))[1..] == LeftPath(u.right);
    }
  }

  lemma {:induction false} PutPending(t: Tree, ds: seq<Dir>, v: Tree, es: seq<Dir>)
    requires IsPath(t, ds) && Balanced(t) && IsPath(v, es) && Pending(v, es) && HeightWas(v, es) == Height(At(t, ds))
    ensures IsPath(Put(t, ds, v), ds + es) && Pending(Put(t, ds, v), ds + es)
    ensures HeightWas(Put(t, ds, v), ds + es) == Height(t)
  {
    PutPath(t, ds, v);
    PathConcat(Put(t, ds, v), ds, es);
    if ds != [] {
      var d, c := ds[0], Put(t, ds, v);
      assert (ds + es)[1..] == ds[1..] + es && (ds + es)[0] == d;
      KidsBalanced(t, d);
      PutPending(t.Kid(d), ds[1..], v, es);
      assert c.Kid(d) == Put(t.Kid(d), ds[1..], v) && c.Kid(Other(d)) == t.Kid(Other(d)) && c.bal == t.bal;
    } else {
      assert ds + es == es;
    }
  }

  /** The unlinked tree is an AVL tree but for the shrunk end of the path. */
  lemma DeletePending(t: Tree, ds: seq<Dir>)
    requires IsPath(t, ds) && At(t, ds).Node? && Balanced(t)
    ensures var u := At(t, ds); var c, e := Put(t, ds, UnlinkedTree(u)), ds + UnlinkedPath(u);
            IsPath(c, e) && Pending(c, e)
  {
    var u := At(t, ds);
    AtBalanced(t, ds);
    UnlinkedPending(u);
    PutPending(t, ds, UnlinkedTree(u), UnlinkedPath(u));
  }

  // ---- the nodes ----

  lemma {:induction false} FoldInOrder(t: Tree, ds: seq<Dir>, r: Shrunk)
    requires IsPath(t, ds)
    ensures InOrder(Fold(t, ds, r).t) == InOrder(Put(t, ds, r.t))
  {
    if ds != [] {
      FoldInOrder(t.Kid(ds[0]), ds[1..], r);
      ReplaceInOrder(t, ds[0], Fold(t.Kid(ds[0]), ds[1..], r));
    }
  }

  lemma {:induction false} PutAt(t: Tree, ds: seq<Dir>)
    requires IsPath(t, ds)
    ensures Put(t, ds, At(t, ds)) == t
  {
    if ds != [] { PutAt(t.Kid(ds[0]), ds[1..]); }
  }

  lemma UnwindInOrder(t: Tree, ds: seq<Dir>)
    requires IsPath(t, ds)
    ensures InOrder(Unwind(t, ds).t) == InOrder(t)
  {
    FoldInOrder(t, ds, Shrunk(At(t, ds), true));
    PutAt(t, ds);
  }
}
