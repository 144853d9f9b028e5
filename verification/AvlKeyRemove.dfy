/** Removal of a key, as the caller of AbstractTree::remove does it. Its path of pointers starts at the
    real root instead of the pseudo-root. */
module AvlKeyRemove {
  import opened AvlTree
  import opened AvlOrder
  import opened AvlHeap
  import opened AvlInsert
  import opened AvlDelete
  import opened AvlGenTree
  import opened AvlGenRemove

  /** The search of key k meets it. */
  predicate Present(t: Tree, k: int) {
    t.Node? && (t.key == k || Present(t.Kid(Side(k, t)), k))
  }

  /** The path to the first node met with key k. */
  function FindPath(t: Tree, k: int): (ds: seq<Dir>)
    requires Present(t, k)
    ensures IsPath(t, ds) && At(t, ds).Node? && At(t, ds).key == k
  {
    if t.key == k then [] else [Side(k, t)] + FindPath(t.Kid(Side(k, t)), k)
  }

  predicate HasKey(s: seq<Item>, k: int) {
    exists i :: 0 <= i < |s| && s[i].key == k
  }

  lemma HasKeyParts(a: seq<Item>, x: Item, b: seq<Item>, k: int)
    ensures HasKey(a + [x] + b, k) <==> HasKey(a, k) || x.key == k || HasKey(b, k)
    ensures Sorted(a + [x] + b) && HasKey(a, k) ==> k <= x.key
    ensures Sorted(a + [x] + b) && HasKey(b, k) ==> x.key <= k
  {
    var s := a + [x] + b;
    assert s[|a|] == x;
    assert forall i :: 0 <= i < |a| ==> s[i] == a[i];
    assert forall i :: 0 <= i < |b| ==> s[|a| + 1 + i] == b[i];
    if i :| 0 <= i < |s| && s[i].key == k {
      if i > |a| { assert b[i - |a| - 1].key == k; }
    }
  }

  /** In a sorted tree the search meets every key that is there. */
  lemma {:induction false} PresentIff(t: Tree, k: int)
    requires Sorted(InOrder(t))
    ensures Present(t, k) <==> HasKey(InOrder(t), k)
  {
    if t.Node? {
      SortedKids(t);
      HasKeyParts(InOrder(t.left), ItemOf(t), InOrder(t.right), k);
      PresentIff(t.Kid(Side(k, t)), k);
    }
  }

  /** The tree after the caller's removal of k: its path of pointers starts at the real root, so the
      climb never reaches the root's own balance. */
  function Removed(t: Tree, k: int): Tree
    requires Present(t, k)
  {
    var ds := FindPath(t, k);
    if ds == [] then DeleteAt(t, ds).t else t.With(ds[0], DeleteAt(t.Kid(ds[0]), ds[1..]).t)
  }

  /** One step of the search. */
  lemma {:induction false} FindStep(t: Tree, k: int, ds: seq<Dir>)
    requires Present(t, k) && IsPath(t, ds) && Present(At(t, ds), k) && At(t, ds).key != k
    requires FindPath(t, k) == ds + FindPath(At(t, ds), k)
    ensures var d := Side(k, At(t, ds));
            && IsPath(t, ds + [d]) && At(t, ds + [d]) == At(t, ds).Kid(d)
            && FindPath(t, k) == ds + [d] + FindPath(At(t, ds + [d]), k)
            && PathPtrs(t, ds + [d]) == PathPtrs(t, ds) + [At(t, ds).ptr]
  {
    var d := Side(k, At(t, ds));
    PathPtrsStep(t, ds, d);
    PathPrefix(t, ds, d);
    Regroup(ds, d, FindPath(At(t, ds).Kid(d), k));
  }

  lemma Regroup<T>(a: seq<T>, x: T, b: seq<T>)
    ensures a + ([x] + b) == a + [x] + b
  {}

  /** A kid replaced below the root. */
  lemma RootKeeps(h: seq<Cell>, h': seq<Cell>, t: Tree, d: Dir, c: Tree)
    requires Holds(h, t) && t.Node? && Hangs(h', t.ptr, d, c) && Ptrs(c) <= Ptrs(t.Kid(d))
    requires OnlyBelow(h, h', Ptrs(t.Kid(d)), t.ptr, d, Root(c))
    ensures Holds(h', t.With(d, c))
  {
    StoredKid(h, t, d);
    StoredKid(h, t, Other(d));
    StoredBound(h, t);
    Frame(h, h', t.Kid(Other(d)), Ptrs(t.Kid(d)) + {t.ptr});
  }

  lemma DeletePtrs(t: Tree, ds: seq<Dir>)
    requires IsPath(t, ds) && At(t, ds).Node? && NoDup(t)
    ensures NoDup(DeleteAt(t, ds).t) && Ptrs(DeleteAt(t, ds).t) == Ptrs(t) - {At(t, ds).ptr}
  {
    var c, e := Put(t, ds, UnlinkedTree(At(t, ds))), ds + UnlinkedPath(At(t, ds));
    DeleteUnwinds(t, ds);
    UnlinkedPtrs(t, ds);
    UnwindInOrder(c, e);
    SamePtrs(c, DeleteAt(t, ds).t);
  }

  /** Removes key k. On success the cells hold Removed(t, k); the failure is an access at index -1 of
      the path array, made exactly when the key is that of a root with a right kid. */
  method Remove(g: AbstractTree, k: int, ghost t: Tree) returns (ok: bool)
    requires Holds(g.h, t) && SidesBalanced(t) && Present(t, k)
    modifies g
    ensures ok <==> !(t.key == k && t.right.Node?)
    ensures ok ==> Holds(g.h, Removed(t, k)) && g.cnt == old(g.cnt) - 1
  {
    var pa: seq<int>, da: seq<Dir>, p := [], [], g.h[0].left;
    AtStored(g.h, t, []);
    while g.h[p].key != k
      invariant g.h == old(g.h) && g.cnt == old(g.cnt)
      invariant IsPath(t, da) && Present(At(t, da), k) && Stored(g.h, At(t, da))
      invariant FindPath(t, k) == da + FindPath(At(t, da), k)
      invariant p == Root(At(t, da)) && pa == PathPtrs(t, da)
      decreases Height(At(t, da))
    {
      var d: Dir := if k > g.h[p].key then 1 else 0;
      FindStep(t, k, da);
      pa := pa + [p];
      da := da + [d];
      p := g.h[p].Link(d);
      AtStored(g.h, t, da);
    }
    assert da == FindPath(t, k);
    if pa == [] {
      if g.h[p].right != NIL { return false; }
      RemoveRoot(g, p, t);
    } else {
      RemoveSide(g, pa, da, p, t);
    }
    g.cnt := g.cnt - 1;
    return true;
  }

  /** Removes the root, which has no right kid. */
  method RemoveRoot(g: AbstractTree, p: int, ghost t: Tree)
    requires Holds(g.h, t) && t.Node? && t.right.Leaf? && p == t.ptr
    modifies g`h
    ensures Holds(g.h, DeleteAt(t, []).t)
  {
    StoredKid(g.h, t, 0);
    g.SetLink(0, 0, g.h[p].left);
    StoredBound(old(g.h), t);
    Frame(old(g.h), g.h, t.left, {0});
  }

  /** Removes node p of a side of the root: the climb ends below the root. */
  method RemoveSide(g: AbstractTree, pa: seq<int>, da: seq<Dir>, p: int, ghost t: Tree)
    requires Holds(g.h, t) && SidesBalanced(t) && da != [] && IsPath(t, da) && At(t, da).Node? && At(t, da).ptr == p
    requires pa == PathPtrs(t, da)
    modifies g`h
    ensures Holds(g.h, t.With(da[0], DeleteAt(t.Kid(da[0]), da[1..]).t))
  {
    ghost var s, ds := t.Kid(da[0]), da[1..];
    StoredKid(g.h, t, da[0]);
    assert da == [da[0]] + ds;
    RemoveNode(g, pa, da, p, t.ptr, da[0], s, ds);
    DeletePtrs(s, ds);
    RootKeeps(old(g.h), g.h, t, da[0], DeleteAt(s, ds).t);
  }

  // ---- when that removal keeps the tree balanced ----

  /** Node t becomes lower when its side d does. */
  predicate LosesHeight(t: Tree, d: Dir)
    requires t.Node?
  {
    t.bal == Sign(d) || (t.bal == Sign(Other(d)) && t.Kid(Other(d)).Node? && t.Kid(Other(d)).bal != 0)
  }

  /** Every node of the path does. */
  predicate AllLose(t: Tree, ds: seq<Dir>)
    requires IsPath(t, ds)
  {
    ds != [] ==> LosesHeight(t, ds[0]) && AllLose(t.Kid(ds[0]), ds[1..])
  }

  lemma ReplaceShrinks(t: Tree, d: Dir, s: Shrunk)
    requires t.Node? && Balanced(t)
    ensures Replace(t, d, s).shrank <==> s.shrank && LosesHeight(t, d)
  {
    KidsBalanced(t, d);
    if t.bal == Sign(Other(d)) { KidsBalanced(t.Kid(Other(d)), d); }
  }

  lemma {:induction false} DeleteMinShrinks(t: Tree)
    requires t.Node? && Balanced(t)
    ensures DeleteMin(t).shrank <==> AllLose(t, LeftPath(t))
  {
    if t.left.Node? {
      assert LeftPath(t)[1..] == LeftPath(t.left);
      DeleteMinShrinks(t.left);
      ReplaceShrinks(t, 0, DeleteMin(t.left));
    }
  }

  lemma {:induction false} DeletedPath(t: Tree, ds: seq<Dir>)
    requires IsPath(t, ds) && At(t, ds).Node?
    ensures IsPath(t, ds + UnlinkedPath(At(t, ds)))
  {
    var u := At(t, ds);
    if u.right.Node? { assert UnlinkedPath(u)[1..] == LeftPath(u.right); }
    PathConcat(t, ds, UnlinkedPath(u));
  }

  /** A removal lowers the tree exactly when every node down to the one unlinked loses height. */
  lemma {:induction false} DeleteShrinks(t: Tree, ds: seq<Dir>)
    requires IsPath(t, ds) && At(t, ds).Node? && Balanced(t)
    ensures IsPath(t, ds + UnlinkedPath(At(t, ds)))
    ensures DeleteAt(t, ds).shrank <==> AllLose(t, ds + UnlinkedPath(At(t, ds)))
  {
    DeletedPath(t, ds);
    var es := UnlinkedPath(At(t, ds));
    if ds != [] {
      KidsBalanced(t, ds[0]);
      DeleteShrinks(t.Kid(ds[0]), ds[1..]);
      ReplaceShrinks(t, ds[0], DeleteAt(t.Kid(ds[0]), ds[1..]));
      assert (ds + es)[1..] == ds[1..] + es && (ds + es)[0] == ds[0];
    } else {
      assert ds + es == es;
      RootShrinks(t);
    }
  }

  lemma RootShrinks(t: Tree)
    requires t.Node? && Balanced(t)
    ensures IsPath(t, UnlinkedPath(t)) && (DeleteAt(t, []).shrank <==> AllLose(t, UnlinkedPath(t)))
  {
    DeletedPath(t, []);
    assert [] + UnlinkedPath(t) == UnlinkedPath(t);
    if t.right.Node? {
      assert UnlinkedPath(t)[1..] == LeftPath(t.right);
      KidsBalanced(t, 1);
      DeleteMinShrinks(t.right);
      ReplaceShrinks(t.(ptr := Leftmost(t.right).ptr, key := Leftmost(t.right).key), 1, DeleteMin(t.right));
    }
  }

  /** The root keeps a stale balance exactly when all nodes below it, down to the one unlinked, lose height. */
  predicate RootStale(t: Tree, k: int)
    requires Present(t, k)
  {
    var ds := FindPath(t, k);
    DeletedPath(t, ds);
    ds != [] && AllLose(t.Kid(ds[0]), (ds + UnlinkedPath(At(t, ds)))[1..])
  }

  /** The removal of a key removes its first node and nothing else. */
  lemma RemovedInOrder(t: Tree, k: int)
    requires Present(t, k)
    ensures InOrder(Removed(t, k)) == RemoveItem(InOrder(t), Pos(t, FindPath(t, k)))
    ensures InOrder(t)[Pos(t, FindPath(t, k))].key == k
  {
    var ds := FindPath(t, k);
    DeleteInOrder(t, ds);
    if ds != [] { RemovedBelow(t, ds); }
  }

  lemma RemovedBelow(t: Tree, ds: seq<Dir>)
    requires ds != [] && IsPath(t, ds) && At(t, ds).Node?
    ensures InOrder(t.With(ds[0], DeleteAt(t.Kid(ds[0]), ds[1..]).t)) == RemoveItem(InOrder(t), Pos(t, ds))
  {
    var s, rest := t.Kid(ds[0]), ds[1..];
    DeleteInOrder(s, rest);
    KidRemoves(t, ds[0], DeleteAt(s, rest).t, Pos(s, rest));
  }

  /** A kid that may have become lower below an unchanged balance. */
  lemma KidLowered(t: Tree, d: Dir, s: Shrunk)
    requires t.Node? && Balanced(t) && Lowers(Height(t.Kid(d)), s)
    ensures Balanced(t.With(d, s.t)) <==> !s.shrank
  {
    KidsBalanced(t, d);
    var r := t.With(d, s.t);
    assert r.Kid(d) == s.t && r.Kid(Other(d)) == t.Kid(Other(d)) && r.bal == t.bal;
    if Balanced(r) {
      KidsBalanced(r, d);
    } else if !s.shrank {
      NodeBalanced(d, s.t, t.Kid(Other(d)), t.ptr, t.bal, t.key);
    }
  }

  /** It keeps the AVL property if and only if the root's balance does not become stale. */
  lemma RemovedBalanced(t: Tree, k: int)
    requires Balanced(t) && Present(t, k)
    ensures Balanced(Removed(t, k)) <==> !RootStale(t, k)
  {
    var ds := FindPath(t, k);
    if ds == [] {
      DeleteBalanced(t, ds);
    } else {
      var s, rest := t.Kid(ds[0]), ds[1..];
      DeletedPath(t, ds);
      var es := UnlinkedPath(At(t, ds));
      assert (ds + es)[1..] == rest + es;
      KidsBalanced(t, ds[0]);
      DeleteShrinks(s, rest);
      DeleteBalanced(s, rest);
      KidLowered(t, ds[0], DeleteAt(s, rest));
    }
  }

  /** The smallest tree on which it fails: a root with two kids, one of which is removed. */
  lemma RootGoesStale()
    ensures var t := Node(Node(Leaf, 2, 0, 10, Leaf), 1, 0, 20, Node(Leaf, 3, 0, 30, Leaf));
            Balanced(t) && Present(t, 10) && !Balanced(Removed(t, 10))
  {
    var s := Node(Leaf, 2, 0, 10, Leaf);
    var t := Node(s, 1, 0, 20, Node(Leaf, 3, 0, 30, Leaf));
    assert Side(10, t) == 0 && Present(s, 10);
    assert FindPath(s, 10) == [];
    assert FindPath(t, 10) == [0];
    var ds: seq<Dir> := [0];
    assert ds[1..] == [];
    assert DeleteAt(s, []) == Shrunk(Leaf, true);
    assert Removed(t, 10) == t.With(0, Leaf);
  }

  // ---- after such a removal ----

  /** The sides of the root stay balanced, so the removals that follow work as well. */
  lemma RemovedSides(t: Tree, k: int)
    requires SidesBalanced(t) && Present(t, k) && !(t.key == k && t.right.Node?)
    ensures SidesBalanced(Removed(t, k))
  {
    var ds := FindPath(t, k);
    if ds != [] { DeleteBalanced(t.Kid(ds[0]), ds[1..]); }
  }

  /** A tree of one node. */
  predicate OneNode(t: Tree) { t.Node? && t.left.Leaf? && t.right.Leaf? }

  /** Only the removal of the single node leaves nothing. */
  lemma LeavesNothing(t: Tree, ds: seq<Dir>)
    requires IsPath(t, ds) && At(t, ds).Node?
    ensures DeleteAt(t, ds).t.Leaf? <==> OneNode(t)
  {
    DeleteInOrder(t, ds);
    var r := DeleteAt(t, ds).t;
    assert |InOrder(r)| == |InOrder(t)| - 1;
    assert t.left.Node? ==> |InOrder(t.left)| >= 1;
    assert t.right.Node? ==> |InOrder(t.right)| >= 1;
  }

  /** An AVL tree takes the insertion of key j after the removal of k exactly when the removal did not empty
      the side of j while the root was heavier there. */
  lemma InsertAfterRemove(t: Tree, k: int, j: int)
    requires Balanced(t) && Present(t, k) && !(t.key == k && t.right.Node?)
    ensures Insertable(Removed(t, k), j) <==>
              !(t.key != k && Side(j, t) == Side(k, t) && t.bal == Sign(Side(k, t)) && OneNode(t.Kid(Side(k, t))))
  {
    var ds, r := FindPath(t, k), Removed(t, k);
    RemovedSides(t, k);
    if ds == [] {
      BalancedInsertable(r, j);
    } else {
      KidsBalanced(t, Side(j, t));
      LeavesNothing(t.Kid(ds[0]), ds[1..]);
    }
  }

  /** Adding 20 and 30, removing 30 and adding 25: the root counts 25 on a side it takes for heavier, and the
      double rotation follows the empty link of its new kid. */
  lemma NullFollowed()
    ensures var r := Node(Leaf, 1, 1, 20, Leaf);
            && Insert(Insert(Leaf, 20, 1).t, 30, 2).t == r.With(1, Node(Leaf, 2, 0, 30, Leaf))
            && Present(r.With(1, Node(Leaf, 2, 0, 30, Leaf)), 30) && Removed(r.With(1, Node(Leaf, 2, 0, 30, Leaf)), 30) == r
            && SidesBalanced(r) && !Insertable(r, 25)
    ensures var u := Bump(Put(Node(Leaf, 1, 1, 20, Leaf), [1], NewLeaf(25, 3)), [1]);
            u.bal == 2 && u.right.bal == 0 && u.right.left.Leaf?
  {
    var r, kid := Node(Leaf, 1, 1, 20, Leaf), Node(Leaf, 2, 0, 30, Leaf);
    var t := r.With(1, kid);
    var ds: seq<Dir> := [1];
    assert ds[1..] == [];
    assert Insert(Leaf, 30, 2).t == kid && Insert(Leaf, 20, 1).t == r.(bal := 0);
    assert Present(kid, 30) && FindPath(kid, 30) == [] && FindPath(t, 30) == [1];
    assert DeleteAt(kid, []) == Shrunk(Leaf, true);
    assert Put(r, ds, NewLeaf(25, 3)) == r.With(1, NewLeaf(25, 3));
    assert Bump(NewLeaf(25, 3), []) == NewLeaf(25, 3);
  }
}
