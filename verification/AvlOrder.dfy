/** What insertion and deletion do to the in-order sequence of nodes. */
module AvlOrder {
  import opened AvlTree

  /** Position of a new key k in the in-order sequence. */
  function Rank(t: Tree, k: int): (r: nat)
    ensures r <= |InOrder(t)|
  {
    if t.Leaf? then 0
    else if Side(k, t) == 0 then Rank(t.left, k)
    else |InOrder(t.left)| + 1 + Rank(t.right, k)
  }

  function InsertItem(s: seq<Item>, i: nat, x: Item): seq<Item>
    requires i <= |s|
  {
    s[..i] + [x] + s[i..]
  }

  function RemoveItem(s: seq<Item>, i: nat): seq<Item>
    requires i < |s|
  {
    s[..i] + s[i + 1..]
  }

  lemma InsertLeft(a: seq<Item>, y: Item, b: seq<Item>, i: nat, x: Item)
    requires i <= |a|
    ensures InsertItem(a, i, x) + [y] + b == InsertItem(a + [y] + b, i, x)
  {}

  lemma InsertRight(a: seq<Item>, y: Item, b: seq<Item>, i: nat, x: Item)
    requires i <= |b|
    ensures a + [y] + InsertItem(b, i, x) == InsertItem(a + [y] + b, |a| + 1 + i, x)
  {}

  lemma RemoveLeft(a: seq<Item>, y: Item, b: seq<Item>, i: nat)
    requires i < |a|
    ensures RemoveItem(a, i) + [y] + b == RemoveItem(a + [y] + b, i)
  {}

  lemma RemoveRight(a: seq<Item>, y: Item, b: seq<Item>, i: nat)
    requires i < |b|
    ensures a + [y] + RemoveItem(b, i) == RemoveItem(a + [y] + b, |a| + 1 + i)
  {}

  lemma GrowthInOrder(t: Tree, d: Dir)
    requires t.Node?
    ensures InOrder(AfterGrowth(t, d).t) == InOrder(t)
  {
    if t.bal != 0 && t.bal != -Sign(d) && CanRotate(t, d, t.Kid(d).Node? && t.Kid(d).bal != Sign(d)) {
      if t.Kid(d).bal == Sign(d) { SingleInOrder(t, d, 0, 0); } else { DoubleInOrder(t, d); }
    }
  }

  lemma ShrinkInOrder(t: Tree, d: Dir)
    requires t.Node?
    ensures InOrder(AfterShrink(t, d).t) == InOrder(t)
  {
    var o := Other(d);
    if t.bal != 0 && t.bal != Sign(d) && CanRotate(t, o, t.Kid(o).Node? && t.Kid(o).bal == Sign(d)) {
      if t.Kid(o).bal == Sign(d) {
        DoubleInOrder(t, o);
      } else if t.Kid(o).bal == 0 {
        SingleInOrder(t, o, Sign(d), Sign(o));
      } else {
        SingleInOrder(t, o, 0, 0);
      }
    }
  }

  lemma AttachInOrder(t: Tree, d: Dir, r: Grown)
    requires t.Node?
    ensures InOrder(Attach(t, d, r).t) == InOrder(t.With(d, r.t))
  {
    if r.grew { GrowthInOrder(t.With(d, r.t), d); }
  }

  /** A node whose kid on side d had x inserted at i. */
  lemma KidInserts(t: Tree, d: Dir, u: Tree, i: nat, x: Item)
    requires t.Node? && i <= |InOrder(t.Kid(d))|
    requires InOrder(u) == InsertItem(InOrder(t.Kid(d)), i, x)
    ensures InOrder(t.With(d, u)) == InsertItem(InOrder(t), if d == 0 then i else |InOrder(t.left)| + 1 + i, x)
  {
    if d == 0 {
      InsertLeft(InOrder(t.left), ItemOf(t), InOrder(t.right), i, x);
    } else {
      InsertRight(InOrder(t.left), ItemOf(t), InOrder(t.right), i, x);
    }
  }

  /** Insertion adds the new node at its rank and nothing else. */
  lemma {:induction false} InsertInOrder(t: Tree, k: int, n: int)
    ensures InOrder(Insert(t, k, n).t) == InsertItem(InOrder(t), Rank(t, k), Item(n, k))
  {
    if t.Node? {
      var d := Side(k, t);
      InsertInOrder(t.Kid(d), k, n);
      AttachInOrder(t, d, Insert(t.Kid(d), k, n));
      KidInserts(t, d, Insert(t.Kid(d), k, n).t, Rank(t.Kid(d), k), Item(n, k));
    } else {
      assert InOrder(t) == [];
    }
  }

  ghost predicate Sorted(s: seq<Item>) {
    forall i, j :: 0 <= i < j < |s| ==> s[i].key <= s[j].key
  }

  /** In a sorted tree the rank separates the smaller keys from the others. */
  lemma {:induction false} RankSeparates(t: Tree, k: int)
    requires Sorted(InOrder(t))
    ensures forall i :: 0 <= i < Rank(t, k) ==> InOrder(t)[i].key < k
    ensures forall i :: Rank(t, k) <= i < |InOrder(t)| ==> k <= InOrder(t)[i].key
  {
    if t.Node? {
      SortedKids(t);
      var s, m := InOrder(t), |InOrder(t.left)|;
      assert s[m] == ItemOf(t);
      assert forall i :: 0 <= i < m ==> s[i] == InOrder(t.left)[i];
      assert forall i :: m < i < |s| ==> s[i] == InOrder(t.right)[i - m - 1];
      if Side(k, t) == 0 {
        RankSeparates(t.left, k);
      } else {
        RankSeparates(t.right, k);
      }
    }
  }

  lemma SortedKids(t: Tree)
    requires t.Node? && Sorted(InOrder(t))
    ensures Sorted(InOrder(t.left)) && Sorted(InOrder(t.right))
  {
    SortedParts(InOrder(t.left), ItemOf(t), InOrder(t.right));
  }

  lemma SortedParts(a: seq<Item>, x: Item, b: seq<Item>)
    requires Sorted(a + [x] + b)
    ensures Sorted(a) && Sorted(b)
  {
    var s := a + [x] + b;
    assert forall i :: 0 <= i < |a| ==> a[i] == s[i];
    forall i, j | 0 <= i < j < |b| ensures b[i].key <= b[j].key {
      assert s[|a| + 1 + i] == b[i] && s[|a| + 1 + j] == b[j];
    }
  }

  /** So insertion keeps the keys sorted. */
  lemma InsertSorted(t: Tree, k: int, n: int)
    requires Sorted(InOrder(t))
    ensures Sorted(InOrder(Insert(t, k, n).t))
  {
    InsertInOrder(t, k, n);
    RankSeparates(t, k);
    InsertBetween(InOrder(t), Rank(t, k), Item(n, k));
  }

  lemma InsertBetween(s: seq<Item>, r: nat, x: Item)
    requires r <= |s| && Sorted(s)
    requires forall i :: 0 <= i < r ==> s[i].key < x.key
    requires forall i :: r <= i < |s| ==> x.key <= s[i].key
    ensures Sorted(InsertItem(s, r, x))
  {
    var u := InsertItem(s, r, x);
    forall i, j | 0 <= i < j < |u| ensures u[i].key <= u[j].key {
      assert u[i] == if i < r then s[i] else if i == r then x else s[i - 1];
      assert u[j] == if j < r then s[j] else if j == r then x else s[j - 1];
    }
  }

  /** Position of the node at the end of a path. */
  function Pos(t: Tree, ds: seq<Dir>): (r: nat)
    requires IsPath(t, ds) && At(t, ds).Node?
    ensures r < |InOrder(t)|
  {
    if ds == [] then |InOrder(t.left)|
    else if ds[0] == 0 then Pos(t.left, ds[1..])
    else |InOrder(t.left)| + 1 + Pos(t.right, ds[1..])
  }

  lemma ReplaceInOrder(t: Tree, d: Dir, s: Shrunk)
    requires t.Node?
    ensures InOrder(Replace(t, d, s).t) == InOrder(t.With(d, s.t))
  {
    if s.shrank { ShrinkInOrder(t.With(d, s.t), d); }
  }

  lemma {:induction false} DeleteMinInOrder(t: Tree)
    requires t.Node?
    ensures InOrder(t) != [] && InOrder(t)[0] == ItemOf(Leftmost(t))
    ensures InOrder(DeleteMin(t).t) == InOrder(t)[1..]
  {
    var a, b := InOrder(t.left), InOrder(t.right);
    if t.left.Leaf? {
      assert InOrder(t) == [ItemOf(t)] + b;
    } else {
      DeleteMinInOrder(t.left);
      ReplaceInOrder(t, 0, DeleteMin(t.left));
      RemoveLeft(a, ItemOf(t), b, 0);
      assert RemoveItem(a, 0) == a[1..] && RemoveItem(InOrder(t), 0) == InOrder(t)[1..];
    }
  }

  lemma RemoveMiddle(a: seq<Item>, x: Item, b: seq<Item>)
    ensures RemoveItem(a + [x] + b, |a|) == a + b
  {}

  lemma HeadFirst(a: seq<Item>, b: seq<Item>)
    requires b != []
    ensures a + [b[0]] + b[1..] == a + b
  {}

  lemma DeleteRootInOrder(t: Tree)
    requires t.Node?
    ensures InOrder(DeleteRoot(t).t) == RemoveItem(InOrder(t), |InOrder(t.left)|)
  {
    var a, b := InOrder(t.left), InOrder(t.right);
    RemoveMiddle(a, ItemOf(t), b);
    if t.right.Leaf? {
      assert a + b == a;
    } else {
      SuccessorInOrder(t);
      HeadFirst(a, b);
    }
  }

  lemma SuccessorInOrder(t: Tree)
    requires t.Node? && t.right.Node?
    ensures var b := InOrder(t.right);
            b != [] && InOrder(DeleteRoot(t).t) == InOrder(t.left) + [b[0]] + b[1..]
  {
    var m, s := Leftmost(t.right), DeleteMin(t.right);
    var t' := t.(ptr := m.ptr, key := m.key);
    DeleteMinInOrder(t.right);
    ReplaceInOrder(t', 1, s);
  }

  /** A node whose kid on side d had item i removed. */
  lemma KidRemoves(t: Tree, d: Dir, u: Tree, i: nat)
    requires t.Node? && i < |InOrder(t.Kid(d))| && InOrder(u) == RemoveItem(InOrder(t.Kid(d)), i)
    ensures InOrder(t.With(d, u)) == RemoveItem(InOrder(t), if d == 0 then i else |InOrder(t.left)| + 1 + i)
  {
    if d == 0 {
      RemoveLeft(InOrder(t.left), ItemOf(t), InOrder(t.right), i);
    } else {
      RemoveRight(InOrder(t.left), ItemOf(t), InOrder(t.right), i);
    }
  }

  /** Deletion removes the node at the end of the path and nothing else. */
  lemma {:induction false} DeleteInOrder(t: Tree, ds: seq<Dir>)
    requires IsPath(t, ds) && At(t, ds).Node?
    ensures InOrder(t)[Pos(t, ds)] == ItemOf(At(t, ds))
    ensures InOrder(DeleteAt(t, ds).t) == RemoveItem(InOrder(t), Pos(t, ds))
  {
    if ds == [] {
      DeleteRootInOrder(t);
    } else {
      var d, s := ds[0], DeleteAt(t.Kid(ds[0]), ds[1..]);
      DeleteInOrder(t.Kid(d), ds[1..]);
      ReplaceInOrder(t, d, s);
      KidRemoves(t, d, s.t, Pos(t.Kid(d), ds[1..]));
    }
  }
}
