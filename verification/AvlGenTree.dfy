/** The iterative tree: node links and balances updated in place, with the path of the search
    kept in arrays. */
module AvlGenTree {
  import opened AvlTree
  import opened AvlOrder
  import opened AvlHeap
  import opened AvlInsert

  /** The cells hold exactly the tree t below the pseudo-root. */
  ghost predicate Holds(h: seq<Cell>, t: Tree) {
    |h| >= 1 && h[0].left == Root(t) && Stored(h, t) && NoDup(t)
  }

  lemma StoredKid(h: seq<Cell>, t: Tree, d: Dir)
    requires Stored(h, t) && NoDup(t) && t.Node?
    ensures 1 <= t.ptr < |h| && h[t.ptr].Link(d) == Root(t.Kid(d)) && h[t.ptr].bal == t.bal
    ensures Stored(h, t.Kid(d)) && NoDup(t.Kid(d)) && t.ptr !in Ptrs(t.Kid(d))
    ensures Ptrs(t.Kid(d)) !! Ptrs(t.Kid(Other(d)))
    ensures Ptrs(t) == {t.ptr} + Ptrs(t.Kid(d)) + Ptrs(t.Kid(Other(d)))
  {}

  function Valid(h: seq<Cell>, p: int): bool { 0 <= p < |h| }

  /** The cells after rotating x, on side d of y, above y. */
  function SingleCells(h: seq<Cell>, y: int, x: int, d: Dir, xbal: int, ybal: int): seq<Cell>
    requires Valid(h, x) && Valid(h, y)
  {
    h[y := h[y].WithLink(d, h[x].Link(Other(d))).(bal := ybal)]
     [x := h[x].WithLink(Other(d), y).(bal := xbal)]
  }

  /** The cells after rotating w, the inner kid of x on side d of y, above both. */
  ghost predicate DoubleCells(h: seq<Cell>, h': seq<Cell>, y: int, x: int, w: int, d: Dir) {
    && |h'| == |h| && Valid(h, x) && Valid(h, y) && Valid(h, w) && AgreeOutside(h, h', {y, x, w})
    && h'[x] == h[x].WithLink(Other(d), h[w].Link(d)).(bal := if h[w].bal == Sign(d) || h[w].bal == 0 then 0 else Sign(d))
    && h'[y] == h[y].WithLink(d, h[w].Link(Other(d))).(bal := if h[w].bal == Sign(d) then Sign(Other(d)) else 0)
    && h'[w] == h[w].WithLink(d, x).WithLink(Other(d), y).(bal := 0)
  }

  lemma SingleStored(h: seq<Cell>, h': seq<Cell>, s: Tree, d: Dir, xbal: int, ybal: int)
    requires Stored(h, s) && NoDup(s) && s.Node? && CanRotate(s, d, false)
    requires Valid(h, s.ptr) && Valid(h, s.Kid(d).ptr) && h' == SingleCells(h, s.ptr, s.Kid(d).ptr, d, xbal, ybal)
    ensures Stored(h', Single(s, d, xbal, ybal)) && AgreeOutside(h, h', Ptrs(s))
  {
    var y, x, o := s, s.Kid(d), Other(d);
    StoredKid(h, y, d);
    StoredKid(h, y, o);
    StoredKid(h, x, d);
    StoredKid(h, x, o);
    var ps := {y.ptr, x.ptr};
    assert AgreeOutside(h, h', ps);
    Frame(h, h', y.Kid(o), ps);
    Frame(h, h', x.Kid(d), ps);
    Frame(h, h', x.Kid(o), ps);
  }

  /** The links of a double rotation. */
  ghost predicate DoubleLinked(h: seq<Cell>, h': seq<Cell>, y: int, x: int, w: int, d: Dir) {
    && |h'| == |h| && Valid(h, x) && Valid(h, y) && Valid(h, w) && AgreeOutside(h, h', {y, x, w})
    && h'[x] == h[x].WithLink(Other(d), h[w].Link(d)) && h'[y] == h[y].WithLink(d, h[w].Link(Other(d)))
    && h'[w] == h[w].WithLink(d, x).WithLink(Other(d), y)
  }

  /** The four subtrees that a double rotation moves are where they were. */
  lemma DoubleFrame(h: seq<Cell>, h': seq<Cell>, s: Tree, d: Dir)
    requires Stored(h, s) && NoDup(s) && s.Node? && CanRotate(s, d, true)
    requires AgreeOutside(h, h', {s.ptr, s.Kid(d).ptr, s.Kid(d).Kid(Other(d)).ptr})
    ensures var x, o := s.Kid(d), Other(d); var w := x.Kid(o);
            Stored(h', s.Kid(o)) && Stored(h', x.Kid(d)) && Stored(h', w.Kid(d)) && Stored(h', w.Kid(o))
  {
    var x, o := s.Kid(d), Other(d);
    var w := x.Kid(o);
    var ps := {s.ptr, x.ptr, w.ptr};
    StoredKid(h, s, d);
    StoredKid(h, s, o);
    StoredKid(h, x, d);
    StoredKid(h, x, o);
    StoredKid(h, w, d);
    StoredKid(h, w, o);
    Frame(h, h', s.Kid(o), ps);
    Frame(h, h', x.Kid(d), ps);
    Frame(h, h', w.Kid(d), ps);
    Frame(h, h', w.Kid(o), ps);
  }

  lemma DoubleStored(h: seq<Cell>, h': seq<Cell>, s: Tree, d: Dir)
    requires Stored(h, s) && NoDup(s) && s.Node? && CanRotate(s, d, true)
    requires DoubleCells(h, h', s.ptr, s.Kid(d).ptr, s.Kid(d).Kid(Other(d)).ptr, d)
    ensures Stored(h', Double(s, d)) && AgreeOutside(h, h', Ptrs(s))
  {
    DoubleFrame(h, h', s, d);
    StoredKid(h, s, d);
    StoredKid(h, s.Kid(d), Other(d));
  }

  class AbstractTree {
    var h: seq<Cell>
    var cnt: int

    constructor ()
      ensures Holds(h, Leaf) && cnt == 0
    {
      h := [Cell(NIL, NIL, 0, 0)];
      cnt := 0;
    }

    method SetLink(p: int, d: Dir, q: int)
      requires 0 <= p < |h|
      modifies `h
      ensures h == old(h)[p := old(h)[p].WithLink(d, q)]
    {
      h := h[p := h[p].WithLink(d, q)];
    }

    method SetBalance(p: int, b: int)
      requires 0 <= p < |h|
      modifies `h
      ensures h == old(h)[p := old(h)[p].(bal := b)]
    {
      h := h[p := h[p].(bal := b)];
    }

    /** Rotates the kid x of y on side d above y. */
    method RotateSingle(y: int, d: Dir, xbal: int, ybal: int, ghost s: Tree) returns (w: int)
      requires Stored(h, s) && NoDup(s) && s.Node? && s.ptr == y && CanRotate(s, d, false)
      modifies `h
      ensures w == Root(Single(s, d, xbal, ybal)) && |h| == |old(h)|
      ensures Stored(h, Single(s, d, xbal, ybal)) && AgreeOutside(old(h), h, Ptrs(s))
    {
      StoredKid(h, s, d);
      StoredKid(h, s.Kid(d), Other(d));
      var x := h[y].Link(d);
      w := x;
      SetLink(y, d, h[x].Link(Other(d)));
      SetLink(x, Other(d), y);
      SetBalance(x, xbal);
      SetBalance(y, ybal);
      SingleStored(old(h), h, s, d, xbal, ybal);
    }

    /** Links the inner kid w of x, on side d of y, above both. */
    method Relink(y: int, x: int, w: int, d: Dir)
      requires Valid(h, x) && Valid(h, y) && Valid(h, w) && x != y && x != w && y != w
      modifies `h
      ensures DoubleLinked(old(h), h, y, x, w, d)
    {
      var o := Other(d);
      SetLink(x, o, h[w].Link(d));
      SetLink(w, d, x);
      SetLink(y, d, h[w].Link(o));
      SetLink(w, o, y);
    }

    /** Rotates the inner grandchild w of y on side d above y. */
    method RotateDouble(y: int, d: Dir, ghost s: Tree) returns (w: int)
      requires Stored(h, s) && NoDup(s) && s.Node? && s.ptr == y && CanRotate(s, d, true)
      modifies `h
      ensures w == Root(Double(s, d)) && |h| == |old(h)|
      ensures Stored(h, Double(s, d)) && AgreeOutside(old(h), h, Ptrs(s))
    {
      StoredKid(h, s, d);
      StoredKid(h, s.Kid(d), Other(d));
      StoredKid(h, s.Kid(d).Kid(Other(d)), d);
      var x, o := h[y].Link(d), Other(d);
      w := h[x].Link(o);
      Relink(y, x, w, d);
      if h[w].bal == Sign(d) {
        SetBalance(x, 0);
        SetBalance(y, Sign(o));
      } else if h[w].bal == 0 {
        SetBalance(x, 0);
        SetBalance(y, 0);
      } else {
        SetBalance(x, Sign(d));
        SetBalance(y, 0);
      }
      SetBalance(w, 0);
      DoubleStored(old(h), h, s, d);
    }

    /** Adjusts the balances from y down to the new node, following da. */
    method AdjustBalances(da: seq<Dir>, y: int, node: int, ghost s: Tree)
      requires Stored(h, s) && NoDup(s) && IsPath(s, da) && Root(s) == y
      requires At(s, da).Node? && Root(At(s, da)) == node
      modifies `h
      ensures Stored(h, Bump(s, da)) && AgreeOutside(old(h), h, Ptrs(s)) && |h| == |old(h)|
    {
      var p, k := y, 0;
      while p != node
        invariant 0 <= k <= |da| && IsPath(s, da[..k]) && |h| == |old(h)|
        invariant p == Root(At(s, da[..k])) && (k == |da| ==> p == node)
        invariant Stored(h, Bump(s, da[..k])) && AgreeOutside(old(h), h, Ptrs(s))
        decreases |da| - k
      {
        ghost var ds, d := da[..k], da[k];
        assert da[..k + 1] == ds + [d];
        assert da == (ds + [d]) + da[k + 1..];
        PathSplit(s, ds + [d], da[k + 1..]);
        BumpStored(h, s, ds, d);
        SetBalance(p, h[p].bal + Sign(da[k]));
        PathPrefix(s, ds, d);
        p := h[p].Link(da[k]);
        k := k + 1;
        if k == |da| { assert da[..k] == da; }
      }
      assert da == da[..k] + da[k..];
      if k < |da| { PrefixDistinct(s, da[..k], da[k..]); }
      assert da[..k] == da;
    }

    /** The rotation at y, if any, and the link from z to the new top. */
    method Rebalance(y: int, z: int, ghost u: Tree, ghost d: Dir)
      requires Stored(h, u) && NoDup(u) && u.Node? && u.ptr == y && -2 <= u.bal <= 2
      requires u.bal == 2 || u.bal == -2 ==>
                 u.bal == 2 * Sign(d) && CanRotate(u, d, u.Kid(d).Node? && u.Kid(d).bal != Sign(d))
      requires 0 <= z < |h| && z !in Ptrs(u)
      modifies `h
      ensures Stored(h, RotateAt(u, d)) && |h| == |old(h)|
      ensures AgreeOutside(old(h), h, Ptrs(u) + {z})
      ensures var w := Root(RotateAt(u, d)); var c := old(h)[z];
              h[z] == if w == y then c else c.WithLink(if y != c.left then 1 else 0, w)
    {
      StoredKid(h, u, 0);
      if h[y].bal == -2 || h[y].bal == 2 {
        var e: Dir := if h[y].bal == -2 then 0 else 1;
        var x := h[y].Link(e);
        StoredKid(h, u, e);
        StoredKid(h, u.Kid(e), 0);
        var w;
        ghost var r := RotateAt(u, e);
        if h[x].bal == Sign(e) {
          SingleInOrder(u, e, 0, 0);
          w := RotateSingle(y, e, 0, 0, u);
        } else {
          DoubleInOrder(u, e);
          StoredKid(h, u.Kid(e), Other(e));
          w := RotateDouble(y, e, u);
        }
        SamePtrs(u, r);
        ghost var h1 := h;
        SetLink(z, if y != h[z].left then 1 else 0, w);
        Frame(h1, h, r, {z});
      }
    }

    /** Links a new node below q, then adjusts and rebalances from y. */
    method InsertNode(da: seq<Dir>, dir: Dir, node: int, q: int, y: int, z: int,
                      ghost t: Tree, ghost key: int, ghost dy: seq<Dir>)
      requires Holds(h, t) && Insertable(t, key) && Searched(t, key, dy, da)
      requires 1 <= node < |h| && node !in Ptrs(t) && h[node] == Cell(NIL, NIL, 0, key)
      requires y == Root(At(t, dy)) && z == Above(t, dy, 0)
      requires IsPath(t, dy + da) && q == Above(t, dy + da, 0) && dir == LastDir(dy + da, 0)
      modifies this
      ensures Holds(h, Insert(t, key, node).t) && cnt == old(cnt) + 1 && |h| == |old(h)|
    {
      cnt := cnt + 1;
      ghost var h0, s := h, At(t, dy);
      if t.Node? { SearchedBelow(h, t, key, dy, da, node); } else { EmptyLinked(h, t, key, dy, da, node); }
      SetLink(q, dir, node);
      if y == NIL { return; }
      GrowAt(da, node, y, z, s, key);
      InsertedHolds(h0, h, t, key, dy, da, node);
    }

    /** Adds an item, even if its key is already there. */
    method Add(item: int, ghost t: Tree)
      requires Holds(h, t) && Insertable(t, item)
      modifies this
      ensures Holds(h, Insert(t, item, |old(h)|).t) && cnt == old(cnt) + 1
    {
      var da: seq<Dir> := [];
      var z := 0;
      var y := h[0].left;
      var q, p := z, y;
      var dir: Dir := 0;
      ghost var dy: seq<Dir> := [];
      while p != NIL
        invariant h == old(h) && cnt == old(cnt)
        invariant IsPath(t, dy) && IsPath(At(t, dy), da) && SearchedTo(t, item, dy, da)
        invariant IsPath(t, dy + da) && p == Root(At(t, dy + da)) && q == Above(t, dy + da, 0)
        invariant dir == LastDir(dy + da, 0)
        invariant y == Root(At(t, dy)) && z == Above(t, dy, 0)
        decreases Height(At(t, dy + da))
      {
        ghost var path := dy + da;
        AtStored(h, t, path);
        if h[p].bal != 0 {
          z := q;
          y := p;
          da := [];
          dy := path;
          assert dy + da == path;
        }
        dir := if item > h[p].key then 1 else 0;
        SearchStep(t, item, dy, da);
        assert (dy + da) + [dir] == dy + (da + [dir]);
        da := da + [dir];
        q := p;
        p := h[p].Link(dir);
      }
      AtStored(h, t, dy + da);
      KeyPathEnds(t, item, dy + da);
      var node := |h|;
      h := h + [Cell(NIL, NIL, 0, item)];
      Frame(old(h), h, t, {});
      StoredBound(old(h), t);
      InsertNode(da, dir, node, q, y, z, t, item, dy);
    }

    /** Adjusts and rebalances from y once the new node is linked below it. */
    method GrowAt(da: seq<Dir>, node: int, y: int, z: int, ghost s: Tree, ghost key: int)
      requires s.Node? && s.ptr == y && Insertable(s, key) && NoDup(s) && node !in Ptrs(s)
      requires da == KeyPath(s, key) && ZeroBelow(s, da)
      requires Stored(h, Put(s, da, NewLeaf(key, node)))
      requires 0 <= z < |h| && z !in Ptrs(s) && z != node
      modifies `h
      ensures |h| == |old(h)| && Stored(h, Insert(s, key, node).t)
      ensures AgreeOutside(old(h), h, Ptrs(s) + {node, z})
      ensures var w := Root(Insert(s, key, node).t); var c := old(h)[z];
              h[z] == if w == y then c else c.WithLink(if y != c.left then 1 else 0, w)
    {
      ghost var s1 := Put(s, da, NewLeaf(key, node));
      Stages(s, key, node);
      AdjustBalances(da, y, node, s1);
      RotationThere(s, key, node);
      Rebalance(y, z, Bump(s1, da), da[0]);
    }
  }

  lemma {:induction false} PathSplit(t: Tree, ds: seq<Dir>, es: seq<Dir>)
    requires IsPath(t, ds + es)
    ensures IsPath(t, ds)
  {
    if ds != [] {
      assert (ds + es)[1..] == ds[1..] + es;
      PathSplit(t.Kid(ds[0]), ds[1..], es);
    }
  }

  /** A node strictly above another one on a path is another node. */
  lemma PrefixDistinct(t: Tree, ds: seq<Dir>, es: seq<Dir>)
    requires NoDup(t) && IsPath(t, ds + es) && es != [] && IsPath(t, ds) && At(t, ds + es).Node?
    ensures Root(At(t, ds)) != Root(At(t, ds + es))
  {
    PathConcat(t, ds, es);
    var s := At(t, ds);
    AtPtrs(t, ds);
    AtPtrs(s.Kid(es[0]), es[1..]);
    assert At(s, es).ptr in Ptrs(At(s, es));
  }

  /** The node that the next step of the adjustment changes. */
  lemma BumpHere(h: seq<Cell>, s: Tree, ds: seq<Dir>, d: Dir)
    requires NoDup(s) && IsPath(s, ds + [d]) && IsPath(s, ds) && Stored(h, Bump(s, ds))
    ensures var b, a := Bump(s, ds), At(s, ds);
            && IsPath(b, ds) && At(b, ds) == a && NoDup(b)
            && a.Node? && Stored(h, a) && NoDup(a) && Ptrs(a) <= Ptrs(s)
            && 1 <= a.ptr < |h| && a.ptr in Ptrs(s) && h[a.ptr].Link(d) == Root(a.Kid(d))
            && Bump(s, ds + [d]) == Put(b, ds, a.(bal := a.bal + Sign(d)))
  {
    var b, a := Bump(s, ds), At(s, ds);
    BumpStep(s, ds, d);
    BumpPath(s, ds, ds);
    BumpInOrder(s, ds);
    SamePtrs(s, b);
    AtPtrs(b, ds);
    AtStored(h, b, ds);
    StoredKid(h, a, d);
  }

  /** One step of the adjustment, on the cells. */
  lemma BumpStored(h: seq<Cell>, s: Tree, ds: seq<Dir>, d: Dir)
    requires NoDup(s) && IsPath(s, ds + [d]) && IsPath(s, ds) && Stored(h, Bump(s, ds))
    ensures var p := Root(At(s, ds));
            && 1 <= p < |h| && p in Ptrs(s) && At(s, ds).Node?
            && h[p].Link(d) == Root(At(s, ds).Kid(d))
            && Stored(h[p := h[p].(bal := h[p].bal + Sign(d))], Bump(s, ds + [d]))
  {
    BumpHere(h, s, ds, d);
    var b, a := Bump(s, ds), At(s, ds);
    var h' := h[a.ptr := h[a.ptr].(bal := a.bal + Sign(d))];
    var a' := a.(bal := a.bal + Sign(d));
    assert AgreeOutside(h, h', {a.ptr});
    Frame(h, h', a.left, {a.ptr});
    Frame(h, h', a.right, {a.ptr});
    if ds != [] { AboveLinks(h, b, ds, 0); }
    Splice(h, h', b, ds, a', {a.ptr}, 0);
  }

  lemma {:induction false} AtStored(h: seq<Cell>, t: Tree, ds: seq<Dir>)
    requires Stored(h, t) && IsPath(t, ds)
    ensures Stored(h, At(t, ds))
  {
    if ds != [] { AtStored(h, t.Kid(ds[0]), ds[1..]); }
  }

  // ---- facts about the searched path ----

  /** What the search of a key hands to the insertion: y is the deepest node of the path with a
      non-zero balance, or the root, z the node above y and q the last node of the path. */
  ghost predicate Searched(t: Tree, key: int, dy: seq<Dir>, da: seq<Dir>) {
    && KeyPath(t, key) == dy + da
    && IsPath(t, dy) && IsPath(At(t, dy), da)
    && ZeroBelow(At(t, dy), da)
    && (dy != [] ==> At(t, dy).Node? && At(t, dy).bal != 0)
  }

  lemma {:induction false} KeyPathBelow(t: Tree, key: int, dy: seq<Dir>, da: seq<Dir>)
    requires IsPath(t, dy) && KeyPath(t, key) == dy + da
    ensures KeyPath(At(t, dy), key) == da
    ensures dy <= KeyPath(t, key)
  {
    if dy != [] {
      assert (dy + da)[1..] == dy[1..] + da;
      KeyPathBelow(t.Kid(dy[0]), key, dy[1..], da);
    } else {
      assert dy + da == da;
    }
  }

  lemma {:induction false} AboveConcat(t: Tree, ds: seq<Dir>, es: seq<Dir>, top: int)
    requires IsPath(t, ds) && IsPath(At(t, ds), es) && es != []
    ensures IsPath(t, ds + es)
    ensures Above(t, ds + es, top) == Above(At(t, ds), es, top) && LastDir(ds + es, 0) == LastDir(es, 0)
  {
    PathConcat(t, ds, es);
    if ds != [] {
      assert (ds + es)[1..] == ds[1..] + es;
      AboveConcat(t.Kid(ds[0]), ds[1..], es, t.ptr);
      AboveTop(At(t, ds), es, t.ptr, top);
    } else {
      assert ds + es == es;
    }
  }

  /** The other link of the node above does not lead to the same node. */
  lemma {:induction false} AboveSide(h: seq<Cell>, t: Tree, ds: seq<Dir>, top: int)
    requires IsPath(t, ds) && ds != [] && Stored(h, t) && NoDup(t) && At(t, ds).Node?
    ensures 1 <= Above(t, ds, top) < |h|
    ensures h[Above(t, ds, top)].Link(LastDir(ds, 0)) == Root(At(t, ds))
    ensures h[Above(t, ds, top)].Link(Other(LastDir(ds, 0))) != Root(At(t, ds))
  {
    var d := ds[0];
    if |ds| > 1 {
      AboveSide(h, t.Kid(d), ds[1..], t.ptr);
    } else {
      var a, b := t.Kid(d), t.Kid(Other(d));
      assert a.ptr in Ptrs(a) && (b.Node? ==> b.ptr in Ptrs(b));
    }
  }

  lemma InsertDistinct(s: seq<Item>, i: nat, x: Item)
    requires i <= |s| && Distinct(s) && x.ptr !in PtrsOf(s)
    ensures Distinct(InsertItem(s, i, x)) && PtrsOf(InsertItem(s, i, x)) == PtrsOf(s) + {x.ptr}
  {
    var a, b := s[..i], s[i..];
    assert s == a + b && [x][0] == x;
    assert PtrsOf([x]) == {x.ptr} by { assert [x][0].ptr in PtrsOf([x]); }
    PtrsConcat(a, b);
    PtrsConcat(a, [x]);
    PtrsConcat(a + [x], b);
    DistinctConcat(a, b);
    DistinctConcat(a, [x]);
    DistinctConcat(a + [x], b);
  }

  lemma InsertNoDup(t: Tree, key: int, n: int)
    requires NoDup(t) && n !in Ptrs(t)
    ensures NoDup(Insert(t, key, n).t) && Ptrs(Insert(t, key, n).t) == Ptrs(t) + {n}
  {
    InOrderPtrs(t);
    InsertInOrder(t, key, n);
    InsertDistinct(InOrder(t), Rank(t, key), Item(n, key));
    InOrderPtrs(Insert(t, key, n).t);
  }

  lemma RotateAtInOrder(u: Tree, d: Dir)
    requires u.Node?
    ensures InOrder(RotateAt(u, d)) == InOrder(u)
  {
    if u.bal == 2 * Sign(d) && CanRotate(u, d, u.Kid(d).Node? && u.Kid(d).bal != Sign(d)) {
      if u.Kid(d).bal == Sign(d) { SingleInOrder(u, d, 0, 0); } else { DoubleInOrder(u, d); }
    }
  }

  /** The stages of an insertion below y: the linked leaf, the adjusted balances, the result. */
  lemma Stages(s: Tree, key: int, n: int)
    requires s.Node? && Insertable(s, key) && NoDup(s) && n !in Ptrs(s) && ZeroBelow(s, KeyPath(s, key))
    ensures var da := KeyPath(s, key); var s1 := Put(s, da, NewLeaf(key, n));
            && IsPath(s1, da) && At(s1, da) == NewLeaf(key, n)
            && NoDup(s1) && Ptrs(s1) == Ptrs(s) + {n} && Root(s1) == s.ptr
            && NoDup(Bump(s1, da)) && Ptrs(Bump(s1, da)) == Ptrs(s1)
            && RotateAt(Bump(s1, da), da[0]) == Insert(s, key, n).t
  {
    var da := KeyPath(s, key);
    var s1 := Put(s, da, NewLeaf(key, n));
    PutPath(s, da, NewLeaf(key, n));
    InsertAtY(s, key, n);
    InsertNoDup(s, key, n);
    RotateAtInOrder(Bump(s1, da), da[0]);
    BumpInOrder(s1, da);
    SamePtrs(s1, Insert(s, key, n).t);
    SamePtrs(s1, Bump(s1, da));
  }

  lemma LinkStored(h: seq<Cell>, s: Tree, da: seq<Dir>, key: int, node: int)
    requires Stored(h, s) && NoDup(s) && IsPath(s, da) && da != [] && At(s, da).Leaf?
    requires 1 <= node < |h| && node !in Ptrs(s) && h[node] == Cell(NIL, NIL, 0, key)
    ensures var q := Above(s, da, 0);
            && 1 <= q < |h| && q in Ptrs(s)
            && Stored(h[q := h[q].WithLink(LastDir(da, 0), node)], Put(s, da, NewLeaf(key, node)))
  {
    AtPtrs(s, da);
    AboveLinks(h, s, da, 0);
    var q := Above(s, da, 0);
    var h' := h[q := h[q].WithLink(LastDir(da, 0), node)];
    Splice(h, h', s, da, NewLeaf(key, node), {q}, 0);
  }

  /** The first node of a tree. */
  lemma EmptyLinked(h: seq<Cell>, t: Tree, key: int, dy: seq<Dir>, da: seq<Dir>, node: int)
    requires Holds(h, t) && !t.Node? && Searched(t, key, dy, da)
    requires 1 <= node < |h| && h[node] == Cell(NIL, NIL, 0, key)
    ensures dy == da == [] && Root(At(t, dy)) == NIL && Above(t, dy + da, 0) == 0
    ensures Holds(h[0 := h[0].WithLink(LastDir(dy + da, 0), node)], Insert(t, key, node).t)
  {
    assert dy + da == [];
    InsertNoDup(t, key, node);
  }

  /** What holds of the tree holds of the subtree the insertion changes. */
  lemma InsertableAt(t: Tree, key: int, dy: seq<Dir>, da: seq<Dir>)
    requires Insertable(t, key) && Searched(t, key, dy, da)
    ensures Insertable(At(t, dy), key)
  {
    if dy != [] {
      AtBalanced(t.Kid(dy[0]), dy[1..]);
      BalancedInsertable(At(t, dy), key);
    }
  }

  /** In a tree with balanced sides the rotation follows links that are there exactly in these trees. */
  lemma InsertableExact(t: Tree, key: int, dy: seq<Dir>, da: seq<Dir>, n: int)
    requires t.Node? && SidesBalanced(t) && Searched(t, key, dy, da)
    ensures da != [] && At(t, dy).Node?
    ensures var u := Put(At(t, dy), da, NewLeaf(key, n));
            && IsPath(u, da)
            && (Insertable(t, key) <==>
                  (Bump(u, da).bal == 2 * Sign(da[0]) ==>
                    CanRotate(Bump(u, da), da[0], Bump(u, da).Kid(da[0]).Node? && Bump(u, da).Kid(da[0]).bal != Sign(da[0]))))
  {
    KeyPathBelow(t, key, dy, da);
    PutPath(At(t, dy), da, NewLeaf(key, n));
    if Insertable(t, key) {
      InsertableAt(t, key, dy, da);
      RotationThere(At(t, dy), key, n);
    } else {
      var d := Side(key, t);
      assert dy + da == [d] + KeyPath(t.Kid(d), key) == [d];
      assert dy == [] && da == [d];
    }
  }

  /** The state of an insertion below y once the new node is linked. */
  lemma SearchedBelow(h: seq<Cell>, t: Tree, key: int, dy: seq<Dir>, da: seq<Dir>, node: int)
    requires Holds(h, t) && Insertable(t, key) && t.Node? && Searched(t, key, dy, da)
    requires 1 <= node < |h| && node !in Ptrs(t) && h[node] == Cell(NIL, NIL, 0, key)
    ensures At(t, dy).Node? && da == KeyPath(At(t, dy), key) && da != []
    ensures Insertable(At(t, dy), key) && NoDup(At(t, dy)) && Ptrs(At(t, dy)) <= Ptrs(t)
    ensures IsPath(t, dy + da) && Above(t, dy + da, 0) == Above(At(t, dy), da, 0)
    ensures LastDir(dy + da, 0) == LastDir(da, 0)
    ensures var s, q := At(t, dy), Above(t, dy + da, 0);
            && 1 <= q < |h| && q in Ptrs(s)
            && Stored(h[q := h[q].WithLink(LastDir(dy + da, 0), node)], Put(s, da, NewLeaf(key, node)))
    ensures 0 <= Above(t, dy, 0) < |h| && Above(t, dy, 0) !in Ptrs(At(t, dy)) && Above(t, dy, 0) != node
  {
    var s := At(t, dy);
    KeyPathBelow(t, key, dy, da);
    AtPtrs(t, dy);
    AtStored(h, t, dy);
    InsertableAt(t, key, dy, da);
    AboveConcat(t, dy, da, 0);
    LinkStored(h, s, da, key, node);
    StoredBound(h, t);
  }

  /** The insertion below y, put in its place, is that in the whole tree. */
  lemma InsertIsPut(t: Tree, key: int, dy: seq<Dir>, da: seq<Dir>, node: int)
    requires Insertable(t, key) && NoDup(t) && Searched(t, key, dy, da) && node !in Ptrs(t)
    requires t.Node? && At(t, dy).Node? && da == KeyPath(At(t, dy), key)
    ensures Insert(t, key, node).t == Put(t, dy, Insert(At(t, dy), key, node).t) && NoDup(Insert(t, key, node).t)
  {
    InsertableAt(t, key, dy, da);
    InsertAtY(At(t, dy), key, node);
    KeyPathBelow(t, key, dy, da);
    InsertAbove(t, key, node, dy);
    InsertNoDup(t, key, node);
  }

  /** The rebalanced subtree in its place is the whole insertion. */
  lemma InsertedHolds(h: seq<Cell>, h': seq<Cell>, t: Tree, key: int, dy: seq<Dir>, da: seq<Dir>, node: int)
    requires Holds(h, t) && Insertable(t, key) && t.Node? && Searched(t, key, dy, da) && node !in Ptrs(t)
    requires 1 <= node < |h| && |h'| == |h|
    requires At(t, dy).Node? && da == KeyPath(At(t, dy), key)
    requires var s, z := At(t, dy), Above(t, dy, 0); var r := Insert(s, key, node).t;
             && 0 <= z < |h|
             && Stored(h', r) && AgreeOutside(h, h', Ptrs(s) + {node, z})
             && h'[z] == if Root(r) == Root(s) then h[z]
                         else h[z].WithLink(if Root(s) != h[z].left then 1 else 0, Root(r))
    ensures Holds(h', Insert(t, key, node).t)
  {
    var s, z := At(t, dy), Above(t, dy, 0);
    var r := Insert(s, key, node).t;
    InsertIsPut(t, key, dy, da, node);
    StoredBound(h, t);
    AtPtrs(t, dy);
    PutHolds(h, h', t, dy, r, Ptrs(s) + {node, z});
  }

  /** A new subtree in the place of the one at dy, linked from the node above. */
  lemma PutHolds(h: seq<Cell>, h': seq<Cell>, t: Tree, dy: seq<Dir>, r: Tree, ps: set<int>)
    requires Holds(h, t) && IsPath(t, dy) && At(t, dy).Node? && |h'| == |h|
    requires Stored(h', r) && AgreeOutside(h, h', ps) && 0 <= Above(t, dy, 0) < |h|
    requires ps * Ptrs(t) <= Ptrs(At(t, dy)) + {Above(t, dy, 0)}
    requires dy != [] ==> 0 !in ps
    requires var y, z := Root(At(t, dy)), Above(t, dy, 0);
             h'[z] == if Root(r) == y then h[z] else h[z].WithLink(if y != h[z].left then 1 else 0, Root(r))
    requires NoDup(Put(t, dy, r))
    ensures Holds(h', Put(t, dy, r))
  {
    if dy != [] { AboveSide(h, t, dy, 0); }
    StoredBound(h, t);
    Splice(h, h', t, dy, r, ps, 0);
    PutRoot(t, dy, r);
  }

  /** The path da below y so far follows the key, through balances 0 only. */
  ghost predicate SearchedTo(t: Tree, key: int, dy: seq<Dir>, da: seq<Dir>)
    requires IsPath(t, dy) && IsPath(At(t, dy), da)
  {
    && dy + da <= KeyPath(t, key)
    && ZeroBelow(At(t, dy), da)
    && (dy != [] ==> At(t, dy).Node? && At(t, dy).bal != 0)
  }

  lemma {:induction false} KeyPathStep(t: Tree, key: int, ds: seq<Dir>)
    requires IsPath(t, ds) && ds <= KeyPath(t, key) && At(t, ds).Node?
    ensures var d := Side(key, At(t, ds));
            ds + [d] <= KeyPath(t, key) && IsPath(t, ds + [d]) && At(t, ds + [d]) == At(t, ds).Kid(d)
  {
    var d := Side(key, At(t, ds));
    if ds != [] {
      assert (ds + [d])[1..] == ds[1..] + [d];
      KeyPathStep(t.Kid(ds[0]), key, ds[1..]);
    } else {
      assert (ds + [d])[1..] == [];
    }
  }

  lemma {:induction false} KeyPathEnds(t: Tree, key: int, ds: seq<Dir>)
    requires IsPath(t, ds) && ds <= KeyPath(t, key) && At(t, ds).Leaf?
    ensures ds == KeyPath(t, key)
  {
    if ds != [] {
      KeyPathEnds(t.Kid(ds[0]), key, ds[1..]);
    }
  }

  lemma {:induction false} ZeroExtend(t: Tree, ds: seq<Dir>, d: Dir)
    requires IsPath(t, ds) && IsPath(t, ds + [d]) && ZeroPath(t, ds) && At(t, ds).Node? && At(t, ds).bal == 0
    ensures ZeroPath(t, ds + [d])
  {
    if ds != [] {
      assert (ds + [d])[1..] == ds[1..] + [d];
      ZeroExtend(t.Kid(ds[0]), ds[1..], d);
    } else {
      assert (ds + [d])[1..] == [];
    }
  }

  /** One step of the search. */
  lemma SearchStep(t: Tree, key: int, dy: seq<Dir>, da: seq<Dir>)
    requires IsPath(t, dy) && IsPath(At(t, dy), da) && SearchedTo(t, key, dy, da)
    requires IsPath(t, dy + da) && At(t, dy + da).Node? && (da != [] ==> At(t, dy + da).bal == 0)
    ensures var d := Side(key, At(t, dy + da)); var da' := da + [d];
            && dy + da' == (dy + da) + [d]
            && IsPath(At(t, dy), da') && SearchedTo(t, key, dy, da')
            && IsPath(t, dy + da') && At(t, dy + da') == At(t, dy + da).Kid(d)
            && Above(t, dy + da', 0) == At(t, dy + da).ptr && LastDir(dy + da', 0) == d
  {
    var d := Side(key, At(t, dy + da));
    var s := At(t, dy);
    assert dy + (da + [d]) == (dy + da) + [d];
    KeyPathStep(t, key, dy + da);
    PathConcat(t, dy, da);
    PathConcat(t, dy, da + [d]);
    AboveConcat(t, dy + da, [d], 0);
    if da != [] {
      assert (da + [d])[1..] == da[1..] + [d];
      ZeroExtend(s.Kid(da[0]), da[1..], d);
    } else {
      assert (da + [d])[1..] == [];
    }
  }
}
