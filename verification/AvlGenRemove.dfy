/** Removal from the iterative tree. */
module AvlGenRemove {
  import opened AvlTree
  import opened AvlOrder
  import opened AvlHeap
  import opened AvlInsert
  import opened AvlDelete
  import opened AvlGenTree

  /** The nodes a path goes through, its end excluded. */
  function PathPtrs(t: Tree, ds: seq<Dir>): (ps: seq<int>)
    requires IsPath(t, ds)
    ensures |ps| == |ds|
  {
    if ds == [] then [] else [t.ptr] + PathPtrs(t.Kid(ds[0]), ds[1..])
  }

  lemma {:induction false} PathPtrsConcat(t: Tree, ds: seq<Dir>, es: seq<Dir>)
    requires IsPath(t, ds) && IsPath(At(t, ds), es)
    ensures IsPath(t, ds + es) && PathPtrs(t, ds + es) == PathPtrs(t, ds) + PathPtrs(At(t, ds), es)
  {
    PathConcat(t, ds, es);
    if ds != [] {
      assert (ds + es)[1..] == ds[1..] + es;
      PathPtrsConcat(t.Kid(ds[0]), ds[1..], es);
    } else {
      assert ds + es == es;
    }
  }

  lemma PathPtrsStep(t: Tree, ds: seq<Dir>, d: Dir)
    requires IsPath(t, ds) && At(t, ds).Node?
    ensures IsPath(t, ds + [d]) && PathPtrs(t, ds + [d]) == PathPtrs(t, ds) + [At(t, ds).ptr]
  {
    assert [d][1..] == [];
    assert IsPath(At(t, ds), [d]);
    assert PathPtrs(At(t, ds), [d]) == [At(t, ds).ptr];
    PathPtrsConcat(t, ds, [d]);
  }

  lemma {:induction false} PathPtrsPut(t: Tree, ds: seq<Dir>, s: Tree)
    requires IsPath(t, ds)
    ensures IsPath(Put(t, ds, s), ds) && PathPtrs(Put(t, ds, s), ds) == PathPtrs(t, ds)
  {
    if ds != [] { PathPtrsPut(t.Kid(ds[0]), ds[1..], s); }
  }

  lemma {:induction false} AboveIsLast(t: Tree, ds: seq<Dir>, top: int)
    requires IsPath(t, ds)
    ensures Above(t, ds, top) == ([top] + PathPtrs(t, ds))[|ds|]
  {
    if ds != [] { AboveIsLast(t.Kid(ds[0]), ds[1..], t.ptr); }
  }

  /** The tree c hangs from the link of cell hook on side dh. */
  ghost predicate Hangs(h: seq<Cell>, hook: int, dh: Dir, c: Tree) {
    && 0 <= hook < |h| && hook !in Ptrs(c)
    && h[hook].Link(dh) == Root(c) && Stored(h, c) && NoDup(c)
  }

  lemma HangsAbove(h: seq<Cell>, hook: int, dh: Dir, c: Tree, e: seq<Dir>)
    requires Hangs(h, hook, dh, c) && IsPath(c, e)
    ensures var z := Above(c, e, hook);
            0 <= z < |h| && z !in Ptrs(At(c, e)) && h[z].Link(LastDir(e, dh)) == Root(At(c, e))
    ensures Stored(h, At(c, e)) && NoDup(At(c, e)) && Ptrs(At(c, e)) <= Ptrs(c)
    ensures Above(c, e, hook) in Ptrs(c) + {hook}
  {
    AtPtrs(c, e);
    AtStored(h, c, e);
    if e != [] {
      AboveLinks(h, c, e, hook);
      AboveTop(c, e, hook, 0);
    }
  }

  /** A new subtree at e, linked from the node above it. */
  lemma PutHangs(h: seq<Cell>, h': seq<Cell>, hook: int, dh: Dir, c: Tree, e: seq<Dir>, r: Tree)
    requires Hangs(h, hook, dh, c) && IsPath(c, e) && |h'| == |h|
    requires Stored(h', r) && NoDup(Put(c, e, r)) && Ptrs(Put(c, e, r)) <= Ptrs(c)
    requires var z := Above(c, e, hook);
             && AgreeOutside(h, h', Ptrs(At(c, e)) + {z})
             && 0 <= z < |h| && h'[z] == h[z].WithLink(LastDir(e, dh), Root(r))
    ensures Hangs(h', hook, dh, Put(c, e, r))
    ensures AgreeOutside(h, h', Ptrs(c) + {hook})
    ensures h'[hook] == h[hook].WithLink(dh, Root(Put(c, e, r)))
  {
    var z := Above(c, e, hook);
    HangsAbove(h, hook, dh, c, e);
    Splice(h, h', c, e, r, Ptrs(At(c, e)) + {z}, hook);
    PutRoot(c, e, r);
    if e != [] {
      AtPtrs(c, e);
      AboveTop(c, e, hook, 0);
    }
  }

  /** In a node whose side d has shrunk, the links a rotation follows are there. */
  lemma ShrinkThere(u: Tree, d: Dir)
    requires Undergrown(u, d) && u.bal == Sign(Other(d))
    ensures u.Kid(Other(d)).Node? && CanRotate(u, Other(d), u.Kid(Other(d)).bal == Sign(d))
  {
    KidsBalanced(u.Kid(Other(d)), d);
  }

  lemma StoredBalance(h: seq<Cell>, u: Tree, b: int)
    requires Stored(h, u) && NoDup(u) && u.Node?
    ensures 0 <= u.ptr < |h| && Stored(h[u.ptr := h[u.ptr].(bal := b)], u.(bal := b))
  {
    var h' := h[u.ptr := h[u.ptr].(bal := b)];
    assert AgreeOutside(h, h', {u.ptr});
    Frame(h, h', u.left, {u.ptr});
    Frame(h, h', u.right, {u.ptr});
  }

  /** Rebalances y after its side d has shrunk; stop tells that its height did not change. */
  method ShrinkNode(g: AbstractTree, y: int, d: Dir, z: int, dz: Dir, ghost u: Tree) returns (stop: bool)
    requires Stored(g.h, u) && NoDup(u) && u.Node? && u.ptr == y && Undergrown(u, d)
    requires 0 <= z < |g.h| && z !in Ptrs(u) && g.h[z].Link(dz) == y
    modifies g`h
    ensures |g.h| == |old(g.h)| && stop == !AfterShrink(u, d).shrank
    ensures Stored(g.h, AfterShrink(u, d).t) && AgreeOutside(old(g.h), g.h, Ptrs(u) + {z})
    ensures g.h[z] == old(g.h)[z].WithLink(dz, Root(AfterShrink(u, d).t))
  {
    var o := Other(d);
    ghost var b := u.bal - Sign(d);
    ghost var v := u.(bal := b);
    stop := false;
    StoredBalance(g.h, u, b);
    g.SetBalance(y, g.h[y].bal - Sign(d));
    if g.h[y].bal == Sign(o) {
      stop := true;
    } else if g.h[y].bal == 2 * Sign(o) {
      ShrinkThere(u, d);
      StoredKid(g.h, v, o);
      StoredKid(g.h, u.Kid(o), d);
      stop := ShrinkRotate(g, y, d, z, dz, v);
    }
  }

  /** The rotation of ShrinkNode. */
  method ShrinkRotate(g: AbstractTree, y: int, d: Dir, z: int, dz: Dir, ghost v: Tree) returns (stop: bool)
    requires Stored(g.h, v) && NoDup(v) && v.Node? && v.ptr == y && v.Kid(Other(d)).Node?
    requires CanRotate(v, Other(d), v.Kid(Other(d)).bal == Sign(d))
    requires 0 <= z < |g.h| && z !in Ptrs(v)
    modifies g`h
    ensures var r := AfterShrink(v.(bal := Sign(Other(d))), d);
            && |g.h| == |old(g.h)| && stop == !r.shrank
            && Stored(g.h, r.t) && AgreeOutside(old(g.h), g.h, Ptrs(v) + {z})
            && g.h[z] == old(g.h)[z].WithLink(dz, Root(r.t))
  {
    var w;
    w, stop := ShrinkTop(g, y, d, v);
    ghost var h1 := g.h;
    g.SetLink(z, dz, w);
    Frame(h1, g.h, AfterShrink(v.(bal := Sign(Other(d))), d).t, {z});
  }

  /** Rotates the side that is too high above y. */
  method ShrinkTop(g: AbstractTree, y: int, d: Dir, ghost v: Tree) returns (w: int, stop: bool)
    requires Stored(g.h, v) && NoDup(v) && v.Node? && v.ptr == y && v.Kid(Other(d)).Node?
    requires CanRotate(v, Other(d), v.Kid(Other(d)).bal == Sign(d))
    modifies g`h
    ensures var r := AfterShrink(v.(bal := Sign(Other(d))), d);
            && |g.h| == |old(g.h)| && stop == !r.shrank && w == Root(r.t) && Ptrs(r.t) == Ptrs(v)
            && Stored(g.h, r.t) && AgreeOutside(old(g.h), g.h, Ptrs(v))
  {
    var o := Other(d);
    StoredKid(g.h, v, o);
    StoredKid(g.h, v.Kid(o), d);
    ShrinkPtrs(v, d);
    var x := g.h[y].Link(o);
    stop := g.h[x].bal == 0;
    if g.h[x].bal == Sign(d) {
      w := g.RotateDouble(y, o, v);
    } else if g.h[x].bal == 0 {
      w := g.RotateSingle(y, o, Sign(d), Sign(o), v);
    } else {
      w := g.RotateSingle(y, o, 0, 0, v);
    }
  }

  /** The rotation keeps the nodes. */
  lemma ShrinkPtrs(v: Tree, d: Dir)
    requires NoDup(v) && v.Node? && v.Kid(Other(d)).Node?
    requires CanRotate(v, Other(d), v.Kid(Other(d)).bal == Sign(d))
    ensures Ptrs(AfterShrink(v.(bal := Sign(Other(d))), d).t) == Ptrs(v)
  {
    var o := Other(d);
    var x := v.Kid(o);
    if x.bal == Sign(d) {
      DoubleInOrder(v, o);
    } else if x.bal == 0 {
      SingleInOrder(v, o, Sign(d), Sign(o));
    } else {
      SingleInOrder(v, o, 0, 0);
    }
    SamePtrs(v, AfterShrink(v.(bal := Sign(o)), d).t);
  }

  // ---- going back up the path ----

  lemma {:induction false} PutInOrder(t: Tree, ds: seq<Dir>, r: Tree)
    requires IsPath(t, ds) && InOrder(r) == InOrder(At(t, ds))
    ensures InOrder(Put(t, ds, r)) == InOrder(t)
  {
    if ds != [] { PutInOrder(t.Kid(ds[0]), ds[1..], r); }
  }

  /** What the loop knows of the node above the shrunk subtree. */
  lemma NodeAbove(h: seq<Cell>, hook: int, dh: Dir, c: Tree, es: seq<Dir>, d: Dir)
    requires Hangs(h, hook, dh, c) && IsPath(c, es + [d]) && Pending(c, es + [d])
    ensures IsPath(c, es) && At(c, es).Node? && PathPtrs(c, es + [d]) == PathPtrs(c, es) + [At(c, es).ptr]
    ensures var u, z := At(c, es), Above(c, es, hook);
            && Undergrown(u, d) && Stored(h, u) && NoDup(u)
            && 0 <= z < |h| && z !in Ptrs(u) && h[z].Link(LastDir(es, dh)) == u.ptr
            && z == ([hook] + PathPtrs(c, es))[|es|]
  {
    PathPrefix(c, es, d);
    PendingAt(c, es, d);
    HangsAbove(h, hook, dh, c, es);
    PathPtrsStep(c, es, d);
    AboveIsLast(c, es, hook);
  }

  /** The state once that node is rebalanced. */
  lemma NodeShrunk(h: seq<Cell>, h': seq<Cell>, hook: int, dh: Dir, c: Tree, es: seq<Dir>, d: Dir)
    requires Hangs(h, hook, dh, c) && IsPath(c, es + [d]) && Pending(c, es + [d]) && |h'| == |h|
    requires IsPath(c, es) && At(c, es).Node?
    requires var r, z := AfterShrink(At(c, es), d).t, Above(c, es, hook);
             && 0 <= z < |h| && Stored(h', r) && AgreeOutside(h, h', Ptrs(At(c, es)) + {z})
             && h'[z] == h[z].WithLink(LastDir(es, dh), Root(r))
    ensures var r := AfterShrink(At(c, es), d); var c' := Put(c, es, r.t);
            && Hangs(h', hook, dh, c') && AgreeOutside(h, h', Ptrs(c) + {hook})
            && h'[hook] == h[hook].WithLink(dh, Root(c'))
            && Ptrs(c') == Ptrs(c) && IsPath(c', es) && PathPtrs(c', es) == PathPtrs(c, es)
            && (r.shrank ==> Pending(c', es) && Unwind(c', es) == Unwind(c, es + [d]))
            && (!r.shrank ==> Unwind(c, es + [d]) == Shrunk(c', false))
  {
    var r := AfterShrink(At(c, es), d);
    ShrinkInOrder(At(c, es), d);
    PutInOrder(c, es, r.t);
    SamePtrs(c, Put(c, es, r.t));
    PutHangs(h, h', hook, dh, c, es, r.t);
    PathPtrsPut(c, es, r.t);
    UnwindStep(c, es, d);
    if r.shrank { PendingStep(c, es, d); }
  }

  /** The changes from h to h': cells of ps and the link of hook on side dh, now to root. */
  ghost predicate OnlyBelow(h: seq<Cell>, h': seq<Cell>, ps: set<int>, hook: int, dh: Dir, root: int) {
    && |h'| == |h| && AgreeOutside(h, h', ps + {hook}) && hook !in ps
    && 0 <= hook < |h| && h'[hook] == h[hook].WithLink(dh, root)
  }

  /** The state of the climb: the part e of the path is still to go. */
  ghost predicate Climbing(h: seq<Cell>, hook: int, dh: Dir, c: Tree, e: seq<Dir>, pa: seq<int>, da: seq<Dir>) {
    && Hangs(h, hook, dh, c) && IsPath(c, e) && Pending(c, e)
    && |e| < |pa| == |da|
    && pa[..|e| + 1] == [hook] + PathPtrs(c, e) && da[..|e| + 1] == [dh] + e
  }

  /** Where the path of a climb leads. */
  lemma ClimbEnds(h: seq<Cell>, hook: int, dh: Dir, c: Tree, es: seq<Dir>, d: Dir, pa: seq<int>, da: seq<Dir>)
    requires Climbing(h, hook, dh, c, es + [d], pa, da)
    ensures var k := |es| + 1;
            && IsPath(c, es) && At(c, es).Node? && da[k] == d && da[k - 1] == LastDir(es, dh)
            && pa[k] == At(c, es).ptr && pa[k - 1] == Above(c, es, hook)
            && pa[..k] == [hook] + PathPtrs(c, es) && da[..k] == [dh] + es
  {
    var k := |es| + 1;
    NodeAbove(h, hook, dh, c, es, d);
    assert pa[k] == pa[..k + 1][k] && pa[k - 1] == pa[..k + 1][k - 1];
    assert da[k] == da[..k + 1][k] && da[k - 1] == da[..k + 1][k - 1];
    assert pa[..k] == pa[..k + 1][..k] && da[..k] == da[..k + 1][..k];
  }

  /** One step of the climb, at level k of the path. */
  method ClimbStep(g: AbstractTree, pa: seq<int>, da: seq<Dir>, k: nat,
                   ghost hook: int, ghost dh: Dir, ghost c: Tree, ghost es: seq<Dir>, ghost d: Dir)
    returns (stop: bool, ghost c': Tree)
    requires Climbing(g.h, hook, dh, c, es + [d], pa, da) && k == |es| + 1
    modifies g`h
    ensures Hangs(g.h, hook, dh, c') && Ptrs(c') == Ptrs(c)
    ensures OnlyBelow(old(g.h), g.h, Ptrs(c), hook, dh, Root(c'))
    ensures stop ==> Unwind(c, es + [d]).t == c'
    ensures !stop ==> Climbing(g.h, hook, dh, c', es, pa, da) && Unwind(c', es) == Unwind(c, es + [d])
  {
    ghost var h := g.h;
    NodeAbove(h, hook, dh, c, es, d);
    ClimbEnds(h, hook, dh, c, es, d, pa, da);
    stop := ShrinkNode(g, pa[k], da[k], pa[k - 1], da[k - 1], At(c, es));
    NodeShrunk(h, g.h, hook, dh, c, es, d);
    c' := Put(c, es, AfterShrink(At(c, es), d).t);
  }

  /** Rebalances the nodes of the path from its end while subtrees shrink. */
  method GoUp(g: AbstractTree, pa: seq<int>, da: seq<Dir>, ghost hook: int, ghost dh: Dir, ghost c0: Tree, ghost e0: seq<Dir>)
    requires Hangs(g.h, hook, dh, c0) && IsPath(c0, e0) && Pending(c0, e0)
    requires pa == [hook] + PathPtrs(c0, e0) && da == [dh] + e0
    modifies g`h
    ensures Hangs(g.h, hook, dh, Unwind(c0, e0).t)
    ensures OnlyBelow(old(g.h), g.h, Ptrs(c0), hook, dh, Root(Unwind(c0, e0).t))
  {
    var k := |pa| - 1;
    ghost var c, e := c0, e0;
    assert pa[..k + 1] == pa && da[..k + 1] == da;
    while k > 0
      invariant k == |e| && Climbing(g.h, hook, dh, c, e, pa, da) && Ptrs(c) == Ptrs(c0)
      invariant Unwind(c, e) == Unwind(c0, e0)
      invariant OnlyBelow(old(g.h), g.h, Ptrs(c0), hook, dh, Root(c))
    {
      ghost var es, d := e[..k - 1], e[k - 1];
      assert e == es + [d];
      var stop;
      stop, c := ClimbStep(g, pa, da, k, hook, dh, c, es, d);
      e := es;
      k := k - 1;
      if stop { return; }
    }
  }

  // ---- unlinking ----

  /** The nodes of the tree whose node at ds is unlinked. */
  lemma UnlinkedPtrs(s: Tree, ds: seq<Dir>)
    requires IsPath(s, ds) && At(s, ds).Node? && NoDup(s)
    ensures var c := Put(s, ds, UnlinkedTree(At(s, ds)));
            NoDup(c) && Ptrs(c) == Ptrs(s) - {At(s, ds).ptr}
  {
    var u := At(s, ds);
    var c := Put(s, ds, UnlinkedTree(u));
    DeleteUnwinds(s, ds);
    UnwindInOrder(c, ds + UnlinkedPath(u));
    DeleteInOrder(s, ds);
    InOrderPtrs(s);
    RemoveDistinct(InOrder(s), Pos(s, ds));
    InOrderPtrs(c);
  }

  lemma RemoveDistinct(s: seq<Item>, i: nat)
    requires i < |s| && Distinct(s)
    ensures Distinct(RemoveItem(s, i)) && PtrsOf(RemoveItem(s, i)) == PtrsOf(s) - {s[i].ptr}
  {
    var a, x, b := s[..i], [s[i]], s[i + 1..];
    assert s == a + x + b;
    PtrsConcat(a, x);
    PtrsConcat(a + x, b);
    PtrsConcat(a, b);
    DistinctConcat(a, x);
    DistinctConcat(a + x, b);
    DistinctConcat(a, b);
    assert PtrsOf(x) == {s[i].ptr} by { assert x[0].ptr in PtrsOf(x); }
  }

  /** The nodes along UnlinkedPath: the successor in the place of u, then those above its old place. */
  function UnlinkedNodes(u: Tree): seq<int>
    requires u.Node?
  {
    if u.right.Leaf? then [] else [Leftmost(u.right).ptr] + PathPtrs(u.right, LeftPath(u.right))
  }

  /** The path of the unlinked tree and its nodes. */
  lemma UnlinkedPathPtrs(s: Tree, ds: seq<Dir>)
    requires IsPath(s, ds) && At(s, ds).Node?
    ensures var u := At(s, ds); var c, e := Put(s, ds, UnlinkedTree(u)), ds + UnlinkedPath(u);
            && IsPath(c, e)
            && PathPtrs(c, e) == PathPtrs(s, ds) + UnlinkedNodes(u)
  {
    var u := At(s, ds);
    var v := UnlinkedTree(u);
    UnlinkedUnwinds(u);
    PutPath(s, ds, v);
    PathPtrsPut(s, ds, v);
    PathPtrsConcat(Put(s, ds, v), ds, UnlinkedPath(u));
    if u.right.Node? {
      var lp := LeftPath(u.right);
      PathPtrsPut(u.right, lp, Leftmost(u.right).right);
      assert ([1] + lp)[1..] == lp;
    }
  }

  /** The cells once the successor m of node u has taken its place; r is the node above m. */
  function SuccessorCells(h: seq<Cell>, p: int, m: int, r: int): seq<Cell>
    requires Valid(h, p) && Valid(h, m) && Valid(h, r)
  {
    if h[p].right == m then h[m := h[m].(left := h[p].left, bal := h[p].bal)]
    else h[r := h[r].(left := h[m].right)][m := h[m].(left := h[p].left, right := h[p].right, bal := h[p].bal)]
  }

  lemma {:induction false} LeftmostStored(h: seq<Cell>, t: Tree)
    requires Stored(h, t) && NoDup(t) && t.Node?
    ensures var m, lp := Leftmost(t), LeftPath(t);
            && m.ptr in Ptrs(t) && 1 <= m.ptr < |h| && h[m.ptr] == Cell(NIL, Root(m.right), m.bal, m.key)
            && Stored(h, m.right) && m.ptr !in Ptrs(m.right) && Ptrs(m.right) <= Ptrs(t)
            && (lp == [] <==> m.ptr == t.ptr)
            && (lp != [] ==> 1 <= Above(t, lp, 0) < |h| && Above(t, lp, 0) in Ptrs(t)
                             && Above(t, lp, 0) !in Ptrs(m) && LastDir(lp, 0) == 0)
  {
    var lp := LeftPath(t);
    AtStored(h, t, lp);
    AtPtrs(t, lp);
    StoredKid(h, Leftmost(t), 1);
    if lp != [] {
      AboveLinks(h, t, lp, 0);
      LeftPathInside(t);
    }
  }

  lemma LeftPathInside(t: Tree)
    requires t.Node? && NoDup(t)
    ensures Leftmost(t).ptr in Ptrs(t) && (t.left.Node? ==> Leftmost(t).ptr in Ptrs(t.left))
  {
    AtPtrs(t, LeftPath(t));
    if t.left.Node? { AtPtrs(t.left, LeftPath(t.left)); }
  }

  /** The right side without its leftmost node. */
  lemma LeftmostCut(h: seq<Cell>, h': seq<Cell>, t: Tree)
    requires Stored(h, t) && NoDup(t) && t.Node? && t.left.Node?
    requires var m, r := Leftmost(t), Above(t, LeftPath(t), 0);
             && AgreeOutside(h, h', {m.ptr, r}) && 0 <= r < |h| && h'[r] == h[r].(left := Root(m.right))
    ensures Stored(h', Put(t, LeftPath(t), Leftmost(t).right))
  {
    var m, lp := Leftmost(t), LeftPath(t);
    LeftmostStored(h, t);
    Frame(h, h', m.right, {m.ptr, Above(t, lp, 0)});
    Splice(h, h', t, lp, m.right, {m.ptr, Above(t, lp, 0)}, 0);
  }

  lemma SuccessorStored(h: seq<Cell>, h': seq<Cell>, u: Tree)
    requires Stored(h, u) && NoDup(u) && u.Node? && u.right.Node?
    requires var m, r := Leftmost(u.right).ptr, Above(u.right, LeftPath(u.right), u.ptr);
             Valid(h, u.ptr) && Valid(h, m) && Valid(h, r) && h' == SuccessorCells(h, u.ptr, m, r)
    ensures Stored(h', UnlinkedTree(u)) && AgreeOutside(h, h', Ptrs(u))
  {
    var m, lp := Leftmost(u.right), LeftPath(u.right);
    StoredKid(h, u, 0);
    LeftPathInside(u.right);
    LeftmostStored(h, u.right);
    if lp == [] {
      Frame(h, h', u.left, {m.ptr});
      Frame(h, h', m.right, {m.ptr});
    } else {
      AboveTop(u.right, lp, u.ptr, 0);
      var r := Above(u.right, lp, 0);
      assert m.ptr != r by { assert m.ptr in Ptrs(m); }
      LeftmostCut(h, h', u.right);
      Frame(h, h', u.left, {m.ptr, r});
      PutRoot(u.right, lp, m.right);
    }
  }

  /** One step of the walk to the leftmost node. */
  lemma LeftStep(t: Tree, lp: seq<Dir>)
    requires t.Node? && IsPath(t, lp) && At(t, lp).Node? && LeftPath(t) == lp + LeftPath(At(t, lp))
    requires At(t, lp).left.Node?
    ensures IsPath(t, lp + [0]) && At(t, lp + [0]) == At(t, lp).left
    ensures LeftPath(t) == lp + [0] + LeftPath(At(t, lp + [0]))
    ensures PathPtrs(t, lp + [0]) == PathPtrs(t, lp) + [At(t, lp).ptr]
  {
    PathPtrsStep(t, lp, 0);
    PathPrefix(t, lp, 0);
  }

  /** Walks from the right kid r to the node above the leftmost one, recording the path. */
  method ToSuccessor(g: AbstractTree, pa: seq<int>, da: seq<Dir>, r0: int, ghost t: Tree)
    returns (s: int, r: int, pa': seq<int>, da': seq<Dir>)
    requires Stored(g.h, t) && t.Node? && t.left.Node? && r0 == t.ptr
    ensures s == Leftmost(t).ptr && r == Above(t, LeftPath(t), 0)
    ensures pa' == pa + PathPtrs(t, LeftPath(t)) && da' == da + LeftPath(t)
  {
    pa', da', r := pa, da, r0;
    s := g.h[r].left;
    ghost var lp: seq<Dir> := [];
    while true
      invariant IsPath(t, lp) && At(t, lp).Node? && At(t, lp).left.Node? && r == At(t, lp).ptr
      invariant LeftPath(t) == lp + LeftPath(At(t, lp))
      invariant pa' == pa + PathPtrs(t, lp) && da' == da + lp
      decreases Height(At(t, lp))
    {
      LeftBelow(g.h, t, lp);
      da' := da' + [0];
      pa' := pa' + [r];
      s := g.h[r].left;
      lp := lp + [0];
      if g.h[s].left == NIL {
        assert lp + [] == lp;
        break;
      }
      r := s;
    }
  }

  /** The cells on the way to the leftmost node: r is the one at lp, s the next. */
  lemma LeftBelow(h: seq<Cell>, t: Tree, lp: seq<Dir>)
    requires Stored(h, t) && t.Node? && IsPath(t, lp) && At(t, lp).Node? && At(t, lp).left.Node?
    requires LeftPath(t) == lp + LeftPath(At(t, lp))
    ensures var r, lq := At(t, lp).ptr, lp + [0];
            && 0 <= r < |h| && IsPath(t, lq) && At(t, lq) == At(t, lp).left && At(t, lq).Node?
            && LeftPath(t) == lq + LeftPath(At(t, lq))
            && PathPtrs(t, lq) == PathPtrs(t, lp) + [r] && r == Above(t, lq, 0)
    ensures var s := At(t, lp).left.ptr;
            h[At(t, lp).ptr].left == s && 0 <= s < |h| && (h[s].left == NIL <==> At(t, lp).left.left.Leaf?)
    ensures Height(At(t, lp).left) < Height(At(t, lp))
  {
    LeftStep(t, lp);
    AtStored(h, t, lp);
    AtStored(h, t, lp + [0]);
    assert PathPtrs(t, lp + [0])[|lp|] == At(t, lp).ptr;
    AboveIsLast(t, lp + [0], 0);
    StoredBound(h, At(t, lp).left.left);
  }

  /** The successor of u and the node above it, as the cells show them. */
  lemma SuccessorThere(h: seq<Cell>, u: Tree)
    requires Stored(h, u) && NoDup(u) && u.Node? && u.right.Node?
    ensures var m, r := Leftmost(u.right).ptr, Above(u.right, LeftPath(u.right), u.ptr);
            && 1 <= m < |h| && 1 <= r < |h| && m in Ptrs(u) && r in Ptrs(u) && m != u.ptr && m != r
            && (u.right.left.Leaf? ==> m == u.right.ptr)
            && (u.right.left.Node? ==> m != u.right.ptr && r != u.ptr && r == Above(u.right, LeftPath(u.right), 0))
            && Root(UnlinkedTree(u)) == m
  {
    var lp := LeftPath(u.right);
    StoredKid(h, u, 1);
    LeftPathInside(u.right);
    LeftmostStored(h, u.right);
    if lp != [] {
      AboveTop(u.right, lp, u.ptr, 0);
      assert Leftmost(u.right).ptr in Ptrs(Leftmost(u.right));
    }
  }

  /** The cells once node p, whose successor is m with r above it, is unlinked from z. */
  function UnlinkCells(h: seq<Cell>, p: int, z: int, dz: Dir, m: int, r: int): seq<Cell>
    requires Valid(h, p) && Valid(h, z) && (h[p].right != NIL ==> Valid(h, m) && Valid(h, r))
  {
    if h[p].right == NIL then h[z := h[z].WithLink(dz, h[p].left)]
    else var h1 := SuccessorCells(h, p, m, r); h1[z := h1[z].WithLink(dz, m)]
  }

  lemma UnlinkedHangs(h: seq<Cell>, h': seq<Cell>, hook: int, dh: Dir, s: Tree, ds: seq<Dir>)
    requires Hangs(h, hook, dh, s) && IsPath(s, ds) && At(s, ds).Node?
    requires var u := At(s, ds); var z := Above(s, ds, hook);
             && Valid(h, u.ptr) && Valid(h, z) && h[u.ptr].right == Root(u.right)
             && (if u.right.Leaf? then h' == UnlinkCells(h, u.ptr, z, LastDir(ds, dh), 0, 0)
                 else var m, r := Leftmost(u.right).ptr, Above(u.right, LeftPath(u.right), u.ptr);
                      Valid(h, m) && Valid(h, r) && h' == UnlinkCells(h, u.ptr, z, LastDir(ds, dh), m, r))
    ensures var c := Put(s, ds, UnlinkedTree(At(s, ds)));
            Hangs(h', hook, dh, c) && OnlyBelow(h, h', Ptrs(s), hook, dh, Root(c))
  {
    var u, z := At(s, ds), Above(s, ds, hook);
    var v := UnlinkedTree(u);
    HangsAbove(h, hook, dh, s, ds);
    StoredKid(h, u, 0);
    UnlinkedPtrs(s, ds);
    UnlinkedPtrs(u, []);
    if u.right.Leaf? {
      Frame(h, h', v, {z});
    } else {
      var h1 := SuccessorCells(h, u.ptr, Leftmost(u.right).ptr, Above(u.right, LeftPath(u.right), u.ptr));
      SuccessorThere(h, u);
      SuccessorStored(h, h1, u);
      Frame(h1, h', v, {z});
    }
    PutHangs(h, h', hook, dh, s, ds, v);
  }

  /** Puts the successor of u in its place, below the last node of the path, and extends the path. */
  method TakeSuccessor(g: AbstractTree, pa: seq<int>, da: seq<Dir>, p: int, ghost u: Tree)
    returns (pa': seq<int>, da': seq<Dir>)
    requires Stored(g.h, u) && NoDup(u) && u.Node? && u.ptr == p && u.right.Node?
    requires |pa| == |da| > 0 && 0 <= pa[|pa| - 1] < |g.h| && pa[|pa| - 1] !in Ptrs(u)
    modifies g`h
    ensures var m, r := Leftmost(u.right).ptr, Above(u.right, LeftPath(u.right), u.ptr);
            && Valid(old(g.h), p) && Valid(old(g.h), m) && Valid(old(g.h), r) && old(g.h)[p].right == u.right.ptr
            && g.h == UnlinkCells(old(g.h), p, pa[|pa| - 1], da[|da| - 1], m, r)
            && pa' == pa + UnlinkedNodes(u) && da' == da + UnlinkedPath(u)
  {
    ghost var h := g.h;
    var k := |pa|;
    StoredKid(h, u, 1);
    StoredKid(h, u.right, 0);
    StoredBound(h, u.right);
    SuccessorThere(h, u);
    var r := g.h[p].right;
    if g.h[r].left == NIL {
      RaiseRight(g, p, r, pa[k - 1], da[k - 1]);
      da' := da + [1];
      pa' := pa + [r];
    } else {
      // the slot k of the path is for the successor
      var m, q, pa1, da1 := ToSuccessor(g, pa + [NIL], da + [0], r, u.right);
      MoveSuccessor(g, p, m, q, pa[k - 1], da[k - 1]);
      da' := da1[k := 1];
      pa' := pa1[k := m];
      FillSlot(da, 0, LeftPath(u.right), 1);
      FillSlot(pa, NIL, PathPtrs(u.right, LeftPath(u.right)), m);
    }
  }

  lemma FillSlot<T>(a: seq<T>, x: T, b: seq<T>, y: T)
    ensures (a + [x] + b)[|a| := y] == a + ([y] + b)
  {}

  /** Moves the right kid r of p, without left kid, to the place of p below z. */
  method RaiseRight(g: AbstractTree, p: int, r: int, z: int, dz: Dir)
    requires Valid(g.h, p) && Valid(g.h, r) && Valid(g.h, z)
    requires r != p && z != r && z != p && g.h[p].right == r && r != NIL
    modifies g`h
    ensures g.h == UnlinkCells(old(g.h), p, z, dz, r, p)
  {
    g.SetLink(r, 0, g.h[p].left);
    g.SetBalance(r, g.h[p].bal);
    g.SetLink(z, dz, r);
  }

  /** Moves node m, with r above it, to the place of p below z. */
  method MoveSuccessor(g: AbstractTree, p: int, m: int, r: int, z: int, dz: Dir)
    requires Valid(g.h, p) && Valid(g.h, m) && Valid(g.h, r) && Valid(g.h, z)
    requires m != p && m != r && p != r && z != m && z != r && z != p && g.h[p].right != m && g.h[p].right != NIL
    modifies g`h
    ensures g.h == UnlinkCells(old(g.h), p, z, dz, m, r)
  {
    g.SetLink(m, 0, g.h[p].left);
    g.SetLink(r, 0, g.h[m].right);
    g.SetLink(m, 1, g.h[p].right);
    g.SetBalance(m, g.h[p].bal);
    g.SetLink(z, dz, m);
  }

  /** What the caller of the unlinking has found: node u at ds, and z above it. */
  lemma NodeFound(h: seq<Cell>, hook: int, dh: Dir, s: Tree, ds: seq<Dir>)
    requires Hangs(h, hook, dh, s) && IsPath(s, ds) && At(s, ds).Node?
    ensures var u, z := At(s, ds), Above(s, ds, hook);
            && Stored(h, u) && NoDup(u) && 1 <= u.ptr < |h|
            && h[u.ptr].left == Root(u.left) && h[u.ptr].right == Root(u.right) && (u.right.Node? ==> u.right.ptr != NIL)
            && Valid(h, z) && z !in Ptrs(u)
            && z == ([hook] + PathPtrs(s, ds))[|ds|] && LastDir(ds, dh) == ([dh] + ds)[|ds|]
  {
    var u := At(s, ds);
    HangsAbove(h, hook, dh, s, ds);
    StoredKid(h, u, 0);
    StoredBound(h, u.right);
    AboveIsLast(s, ds, hook);
  }

  lemma Associate<T>(x: T, a: seq<T>, b: seq<T>)
    ensures [x] + (a + b) == [x] + a + b
  {}

  /** Unlinks the node p at the end of the path, its successor taking its place if it has one, and
      extends the path down to the place that shrank. */
  method Unlink(g: AbstractTree, pa: seq<int>, da: seq<Dir>, p: int,
                ghost hook: int, ghost dh: Dir, ghost s: Tree, ghost ds: seq<Dir>)
    returns (pa': seq<int>, da': seq<Dir>)
    requires Hangs(g.h, hook, dh, s) && IsPath(s, ds) && At(s, ds).Node? && At(s, ds).ptr == p
    requires pa == [hook] + PathPtrs(s, ds) && da == [dh] + ds
    modifies g`h
    ensures var u := At(s, ds); var c, e := Put(s, ds, UnlinkedTree(u)), ds + UnlinkedPath(u);
            && IsPath(c, e) && pa' == [hook] + PathPtrs(c, e) && da' == [dh] + e
            && Hangs(g.h, hook, dh, c) && OnlyBelow(old(g.h), g.h, Ptrs(s), hook, dh, Root(c))
  {
    ghost var h, u := g.h, At(s, ds);
    var k := |pa|;
    NodeFound(h, hook, dh, s, ds);
    pa', da' := pa, da;
    if g.h[p].right == NIL {
      g.SetLink(pa[k - 1], da[k - 1], g.h[p].left);
    } else {
      pa', da' := TakeSuccessor(g, pa, da, p, u);
    }
    UnlinkedHangs(h, g.h, hook, dh, s, ds);
    UnlinkedPathPtrs(s, ds);
    Associate(hook, PathPtrs(s, ds), UnlinkedNodes(u));
    Associate(dh, ds, UnlinkedPath(u));
  }

  /** Removes node p at the end of a path that starts at the cell hook: the subtree hanging there becomes
      that of DeleteAt, and no other link or balance changes. */
  method RemoveNode(g: AbstractTree, pa: seq<int>, da: seq<Dir>, p: int,
                    ghost hook: int, ghost dh: Dir, ghost s: Tree, ghost ds: seq<Dir>)
    requires Hangs(g.h, hook, dh, s) && Balanced(s) && IsPath(s, ds) && At(s, ds).Node? && At(s, ds).ptr == p
    requires pa == [hook] + PathPtrs(s, ds) && da == [dh] + ds
    modifies g`h
    ensures Hangs(g.h, hook, dh, DeleteAt(s, ds).t)
    ensures OnlyBelow(old(g.h), g.h, Ptrs(s), hook, dh, Root(DeleteAt(s, ds).t))
  {
    ghost var u := At(s, ds);
    ghost var c, e := Put(s, ds, UnlinkedTree(u)), ds + UnlinkedPath(u);
    DeleteUnwinds(s, ds);
    DeletePending(s, ds);
    UnlinkedPtrs(s, ds);
    var pa', da' := Unlink(g, pa, da, p, hook, dh, s, ds);
    GoUp(g, pa', da', hook, dh, c, e);
  }

  /** Removes node p of the whole tree, the path starting at the pseudo-root: the cells then hold the tree
      of DeleteAt. */
  method RemoveAt(g: AbstractTree, pa: seq<int>, da: seq<Dir>, p: int, ghost t: Tree, ghost ds: seq<Dir>)
    requires Holds(g.h, t) && Balanced(t) && IsPath(t, ds) && At(t, ds).Node? && At(t, ds).ptr == p
    requires pa == [0] + PathPtrs(t, ds) && da == [0] + ds
    modifies g`h
    ensures Holds(g.h, DeleteAt(t, ds).t)
  {
    StoredBound(g.h, t);
    RemoveNode(g, pa, da, p, 0, 0, t, ds);
  }
}
