/** Insertion as the iterative code sees it: link a leaf, adjust balances from the deepest
    unbalanced node y of the search path, rotate at most once at y. */
module AvlInsert {
  import opened AvlTree
  import opened AvlHeap

  /** The search path of a new key. */
  function KeyPath(t: Tree, k: int): (ds: seq<Dir>)
    ensures IsPath(t, ds) && At(t, ds).Leaf?
  {
    if t.Leaf? then [] else [Side(k, t)] + KeyPath(t.Kid(Side(k, t)), k)
  }

  /** Every node on the path has balance 0. */
  predicate ZeroPath(t: Tree, ds: seq<Dir>)
    requires IsPath(t, ds)
  {
    ds != [] ==> t.bal == 0 && ZeroPath(t.Kid(ds[0]), ds[1..])
  }

  /** Every node on the path but the first has balance 0. */
  predicate ZeroBelow(t: Tree, ds: seq<Dir>)
    requires IsPath(t, ds)
  {
    ds != [] ==> ZeroPath(t.Kid(ds[0]), ds[1..])
  }

  /** The balances along the path, moved towards the side it takes. */
  function Bump(t: Tree, ds: seq<Dir>): Tree
    requires IsPath(t, ds)
  {
    if ds == [] then t
    else t.(bal := t.bal + Sign(ds[0])).With(ds[0], Bump(t.Kid(ds[0]), ds[1..]))
  }

  function NewLeaf(k: int, n: int): Tree { Node(Leaf, n, 0, k, Leaf) }

  lemma {:induction false} PutPath(t: Tree, ds: seq<Dir>, s: Tree)
    requires IsPath(t, ds)
    ensures IsPath(Put(t, ds, s), ds) && At(Put(t, ds, s), ds) == s
  {
    if ds != [] { PutPath(t.Kid(ds[0]), ds[1..], s); }
  }

  /** Below the deepest unbalanced node, insertion is linking and adjusting. */
  lemma {:induction false} InsertZero(t: Tree, k: int, n: int)
    requires ZeroPath(t, KeyPath(t, k))
    ensures var ds := KeyPath(t, k); var u := Put(t, ds, NewLeaf(k, n));
            IsPath(u, ds) && Insert(t, k, n) == Grown(Bump(u, ds), true)
  {
    var ds := KeyPath(t, k);
    PutPath(t, ds, NewLeaf(k, n));
    if t.Node? {
      assert ds[1..] == KeyPath(t.Kid(ds[0]), k);
      InsertZero(t.Kid(ds[0]), k, n);
    }
  }

  /** The rotation at y, when its balance leaves -1..1. */
  function RotateAt(u: Tree, d: Dir): Tree
    requires u.Node?
  {
    if u.bal != 2 * Sign(d) || !CanRotate(u, d, u.Kid(d).Node? && u.Kid(d).bal != Sign(d)) then u
    else if u.Kid(d).bal == Sign(d) then Single(u, d, 0, 0)
    else Double(u, d)
  }

  lemma InsertAtY(t: Tree, k: int, n: int)
    requires t.Node? && Insertable(t, k) && ZeroBelow(t, KeyPath(t, k))
    ensures var ds := KeyPath(t, k); var u := Put(t, ds, NewLeaf(k, n));
            IsPath(u, ds) && Insert(t, k, n).t == RotateAt(Bump(u, ds), ds[0])
    ensures Insert(t, k, n).grew <==> t.bal == 0
  {
    var ds := KeyPath(t, k);
    var d := ds[0];
    PutPath(t, ds, NewLeaf(k, n));
    assert ds[1..] == KeyPath(t.Kid(d), k);
    InsertZero(t.Kid(d), k, n);
    RotationThere(t, k, n);
  }

  /** Above a subtree that did not grow, nothing changes. */
  lemma {:induction false} InsertAbove(t: Tree, k: int, n: int, dy: seq<Dir>)
    requires IsPath(t, dy) && dy <= KeyPath(t, k)
    requires dy != [] ==> !Insert(At(t, dy), k, n).grew
    ensures Insert(t, k, n).t == Put(t, dy, Insert(At(t, dy), k, n).t)
    ensures dy != [] ==> !Insert(t, k, n).grew
  {
    if dy != [] {
      assert dy[0] == Side(k, t);
      assert dy[1..] <= KeyPath(t.Kid(dy[0]), k);
      InsertAbove(t.Kid(dy[0]), k, n, dy[1..]);
    }
  }

  lemma {:induction false} BumpPath(t: Tree, ds: seq<Dir>, es: seq<Dir>)
    requires IsPath(t, ds) && ds <= es && IsPath(t, es)
    ensures IsPath(Bump(t, ds), es) && IsPath(Bump(t, ds), ds)
    ensures At(Bump(t, ds), ds) == At(t, ds)
  {
    if ds != [] {
      assert ds[1..] <= es[1..];
      BumpPath(t.Kid(ds[0]), ds[1..], es[1..]);
    } else {
      assert Bump(t, ds) == t;
    }
  }

  lemma {:induction false} PathPrefix(t: Tree, ds: seq<Dir>, d: Dir)
    requires IsPath(t, ds + [d])
    ensures IsPath(t, ds) && At(t, ds).Node? && At(t, ds + [d]) == At(t, ds).Kid(d)
  {
    if ds != [] {
      assert (ds + [d])[1..] == ds[1..] + [d];
      PathPrefix(t.Kid(ds[0]), ds[1..], d);
    } else {
      assert (ds + [d])[1..] == [];
    }
  }

  /** Adjusting one more node of the path. */
  lemma {:induction false} BumpStep(t: Tree, ds: seq<Dir>, d: Dir)
    requires IsPath(t, ds + [d])
    ensures IsPath(t, ds) && At(t, ds).Node? && IsPath(Bump(t, ds), ds)
    ensures Bump(t, ds + [d])
            == Put(Bump(t, ds), ds, At(t, ds).(bal := At(t, ds).bal + Sign(d)))
  {
    PathPrefix(t, ds, d);
    BumpPath(t, ds, ds);
    if ds != [] {
      assert (ds + [d])[1..] == ds[1..] + [d];
      BumpStep(t.Kid(ds[0]), ds[1..], d);
    } else {
      assert (ds + [d])[1..] == [];
    }
  }

  lemma {:induction false} BumpInOrder(t: Tree, ds: seq<Dir>)
    requires IsPath(t, ds)
    ensures InOrder(Bump(t, ds)) == InOrder(t)
  {
    if ds != [] { BumpInOrder(t.Kid(ds[0]), ds[1..]); }
  }

  lemma {:induction false} PathConcat(t: Tree, ds: seq<Dir>, es: seq<Dir>)
    requires IsPath(t, ds)
    ensures IsPath(t, ds + es) <==> IsPath(At(t, ds), es)
    ensures IsPath(t, ds + es) ==> At(t, ds + es) == At(At(t, ds), es)
  {
    if ds != [] {
      assert (ds + es)[1..] == ds[1..] + es;
      PathConcat(t.Kid(ds[0]), ds[1..], es);
    } else {
      assert ds + es == es;
    }
  }

  /** A tree whose root may have a balance that is not the difference of its sides' heights. */
  predicate SidesBalanced(t: Tree) {
    t.Node? ==> Balanced(t.left) && Balanced(t.right) && -1 <= t.bal <= 1
  }

  /** The insertion of a key does not take the root for heavier on a side that is empty. */
  predicate Insertable(t: Tree, k: int) {
    SidesBalanced(t) && (t.Node? ==> t.Kid(Side(k, t)).Node? || t.bal != Sign(Side(k, t)))
  }

  lemma BalancedInsertable(t: Tree, k: int)
    requires Balanced(t)
    ensures Insertable(t, k)
  {
    if t.Node? { KidsBalanced(t, Side(k, t)); }
  }

  /** Linking below y keeps the path, and the kid rotated at y is there. */
  lemma RotationThere(t: Tree, k: int, n: int)
    requires t.Node? && Insertable(t, k) && ZeroBelow(t, KeyPath(t, k))
    ensures var ds := KeyPath(t, k); var u := Put(t, ds, NewLeaf(k, n));
            IsPath(u, ds) && (Bump(u, ds).bal == 2 * Sign(ds[0]) ==>
              CanRotate(Bump(u, ds), ds[0], Bump(u, ds).Kid(ds[0]).Node? && Bump(u, ds).Kid(ds[0]).bal != Sign(ds[0])))
  {
    var ds := KeyPath(t, k);
    var d := ds[0];
    var kid := t.Kid(d);
    PutPath(t, ds, NewLeaf(k, n));
    assert ds[1..] == KeyPath(kid, k);
    InsertZero(kid, k, n);
    InsertBalanced(kid, k, n);
    var x := Insert(kid, k, n).t;
    KidsBalanced(x, d);
  }
}
