/** Trees stored in an arena of linked cells. Cell 0 is the pseudo-root: the root pointer of the
    tree object read as a node, whose left link is the root. */
module AvlHeap {
  import opened AvlTree

  const NIL := -1

  datatype Cell = Cell(left: int, right: int, bal: int, key: int) {
    function Link(d: Dir): int { if d == 0 then left else right }
    function WithLink(d: Dir, p: int): Cell { if d == 0 then this.(left := p) else this.(right := p) }
  }

  function Root(t: Tree): int { if t.Leaf? then NIL else t.ptr }

  /** The cells of t hold its links, balances and keys. */
  predicate Stored(h: seq<Cell>, t: Tree) {
    t.Node? ==>
      && 1 <= t.ptr < |h|
      && h[t.ptr] == Cell(Root(t.left), Root(t.right), t.bal, t.key)
      && Stored(h, t.left)
      && Stored(h, t.right)
  }

  function Ptrs(t: Tree): set<int> {
    if t.Leaf? then {} else {t.ptr} + Ptrs(t.left) + Ptrs(t.right)
  }

  /** No cell is used twice. */
  predicate NoDup(t: Tree) {
    t.Node? ==>
      && NoDup(t.left) && NoDup(t.right)
      && t.ptr !in Ptrs(t.left) && t.ptr !in Ptrs(t.right)
      && Ptrs(t.left) !! Ptrs(t.right)
  }

  /** h' has every cell of h outside ps. */
  ghost predicate AgreeOutside(h: seq<Cell>, h': seq<Cell>, ps: set<int>) {
    && |h| <= |h'|
    && forall p :: 0 <= p < |h| && p !in ps ==> h'[p] == h[p]
  }

  lemma {:induction false} Frame(h: seq<Cell>, h': seq<Cell>, t: Tree, ps: set<int>)
    requires Stored(h, t) && AgreeOutside(h, h', ps) && Ptrs(t) !! ps
    ensures Stored(h', t)
  {
    if t.Node? {
      Frame(h, h', t.left, ps);
      Frame(h, h', t.right, ps);
    }
  }

  lemma {:induction false} StoredBound(h: seq<Cell>, t: Tree)
    requires Stored(h, t)
    ensures forall p :: p in Ptrs(t) ==> 1 <= p < |h|
  {
    if t.Node? {
      StoredBound(h, t.left);
      StoredBound(h, t.right);
    }
  }

  // ---- the cells of a tree are those of its in-order sequence ----

  function PtrsOf(s: seq<Item>): set<int> {
    set i | 0 <= i < |s| :: s[i].ptr
  }

  ghost predicate Distinct(s: seq<Item>) {
    forall i, j :: 0 <= i < j < |s| ==> s[i].ptr != s[j].ptr
  }

  lemma PtrsConcat(a: seq<Item>, b: seq<Item>)
    ensures PtrsOf(a + b) == PtrsOf(a) + PtrsOf(b)
  {
    forall p | p in PtrsOf(a) + PtrsOf(b) ensures p in PtrsOf(a + b) {
      if p in PtrsOf(a) {
        var i :| 0 <= i < |a| && a[i].ptr == p;
        assert (a + b)[i].ptr == p;
      } else {
        var i :| 0 <= i < |b| && b[i].ptr == p;
        assert (a + b)[|a| + i].ptr == p;
      }
    }
  }

  lemma DistinctConcat(a: seq<Item>, b: seq<Item>)
    ensures Distinct(a + b) <==> Distinct(a) && Distinct(b) && PtrsOf(a) !! PtrsOf(b)
  {
    var s := a + b;
    assert forall i :: 0 <= i < |a| ==> s[i] == a[i];
    assert forall i :: 0 <= i < |b| ==> s[|a| + i] == b[i];
    if Distinct(s) {
      forall i, j | 0 <= i < |a| && 0 <= j < |b| ensures a[i].ptr != b[j].ptr {
        assert s[i].ptr != s[|a| + j].ptr;
      }
      forall i, j | 0 <= i < j < |b| ensures b[i].ptr != b[j].ptr {
        assert s[|a| + i].ptr != s[|a| + j].ptr;
      }
    }
    if Distinct(a) && Distinct(b) && PtrsOf(a) !! PtrsOf(b) {
      forall i, j | 0 <= i < j < |s| ensures s[i].ptr != s[j].ptr {
        if i < |a| <= j {
          assert s[i].ptr in PtrsOf(a) && b[j - |a|].ptr in PtrsOf(b);
        } else if |a| <= i {
          assert s[i] == b[i - |a|] && s[j] == b[j - |a|];
        }
      }
    }
  }

  lemma {:induction false} InOrderPtrs(t: Tree)
    ensures PtrsOf(InOrder(t)) == Ptrs(t)
    ensures Distinct(InOrder(t)) <==> NoDup(t)
  {
    if t.Node? {
      var a, x, b := InOrder(t.left), [ItemOf(t)], InOrder(t.right);
      InOrderPtrs(t.left);
      InOrderPtrs(t.right);
      PtrsConcat(a, x);
      PtrsConcat(a + x, b);
      DistinctConcat(a, x);
      DistinctConcat(a + x, b);
      assert PtrsOf(x) == {t.ptr} by { assert x[0].ptr in PtrsOf(x); }
      assert Distinct(x);
    }
  }

  lemma SamePtrs(t: Tree, u: Tree)
    requires InOrder(t) == InOrder(u)
    ensures Ptrs(t) == Ptrs(u) && (NoDup(t) <==> NoDup(u))
  {
    InOrderPtrs(t);
    InOrderPtrs(u);
  }

  // ---- replacing the subtree at the end of a path ----

  function Put(t: Tree, ds: seq<Dir>, s: Tree): Tree
    requires IsPath(t, ds)
  {
    if ds == [] then s else t.With(ds[0], Put(t.Kid(ds[0]), ds[1..], s))
  }

  /** Address of the node above the end of a path; above the root stands the pseudo-root. */
  function Above(t: Tree, ds: seq<Dir>, top: int): int
    requires IsPath(t, ds)
  {
    if ds == [] then top else Above(t.Kid(ds[0]), ds[1..], t.ptr)
  }

  function LastDir(ds: seq<Dir>, top: Dir): Dir {
    if ds == [] then top else ds[|ds| - 1]
  }

  lemma {:induction false} AtPtrs(t: Tree, ds: seq<Dir>)
    requires IsPath(t, ds)
    ensures Ptrs(At(t, ds)) <= Ptrs(t)
    ensures NoDup(t) ==> NoDup(At(t, ds))
    ensures ds != [] ==> Above(t, ds, 0) in Ptrs(t)
    ensures ds != [] && NoDup(t) ==> Above(t, ds, 0) !in Ptrs(At(t, ds))
  {
    if ds != [] {
      AtPtrs(t.Kid(ds[0]), ds[1..]);
      if ds[1..] != [] { AboveTop(t.Kid(ds[0]), ds[1..], t.ptr, 0); }
    }
  }

  lemma AboveTop(t: Tree, ds: seq<Dir>, a: int, b: int)
    requires IsPath(t, ds) && ds != []
    ensures Above(t, ds, a) == Above(t, ds, b)
  {}

  /** The node above the end of a path links to it. */
  lemma {:induction false} AboveLinks(h: seq<Cell>, t: Tree, ds: seq<Dir>, top: int)
    requires IsPath(t, ds) && ds != [] && Stored(h, t)
    ensures 1 <= Above(t, ds, top) < |h|
    ensures h[Above(t, ds, top)].Link(LastDir(ds, 0)) == Root(At(t, ds))
  {
    if |ds| > 1 { AboveLinks(h, t.Kid(ds[0]), ds[1..], t.ptr); }
  }

  lemma PutRoot(t: Tree, ds: seq<Dir>, s: Tree)
    requires IsPath(t, ds)
    ensures Root(Put(t, ds, s)) == if ds == [] then Root(s) else Root(t)
  {}

  /** Storing s where the subtree at ds stood and relinking the node above stores the whole tree. */
  lemma {:induction false} Splice(h: seq<Cell>, h': seq<Cell>, t: Tree, ds: seq<Dir>, s: Tree, ps: set<int>, top: int)
    requires Stored(h, t) && NoDup(t) && IsPath(t, ds) && Stored(h', s)
    requires AgreeOutside(h, h', ps)
    requires ps * Ptrs(t) <= Ptrs(At(t, ds)) + (if ds == [] then {} else {Above(t, ds, top)})
    requires ds != [] ==>
               var a := Above(t, ds, top);
               0 <= a < |h| && h'[a] == h[a].WithLink(LastDir(ds, 0), Root(s))
    ensures Stored(h', Put(t, ds, s))
  {
    if ds != [] {
      var d, rest := ds[0], ds[1..];
      var kid := t.Kid(d);
      AtPtrs(kid, rest);
      if rest == [] {
        assert Ptrs(t.Kid(Other(d))) !! ps;
      } else {
        AboveTop(kid, rest, t.ptr, 0);
        assert LastDir(rest, 0) == LastDir(ds, 0);
        assert h'[t.ptr] == h[t.ptr];
        PutRoot(kid, rest, s);
      }
      assert ps * Ptrs(kid) <= ps * Ptrs(t);
      Splice(h, h', kid, rest, s, ps, t.ptr);
      Frame(h, h', t.Kid(Other(d)), ps);
    }
  }
}
