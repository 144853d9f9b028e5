/** Connected components by depth-first search, for any symmetric relation. */
module ClusterSearch {
  import opened Collections

  /** Nodes 0..n and their neighbours. */
  datatype Graph = Graph(n: nat, near: (int, int) -> bool)

  ghost predicate Symmetric(g: Graph) {
    forall x, y :: g.near(x, y) ==> g.near(y, x)
  }

  // ---- chains of neighbours ----

  /** The blocks given by their indices, each a neighbour of the next. */
  ghost predicate Chain(g: Graph, p: seq<int>) {
    && p != []
    && (forall i :: 0 <= i < |p| ==> 0 <= p[i] < g.n)
    && (forall i, j :: 0 <= i && j == i + 1 && j < |p| ==> g.near(p[i], p[j]))
  }

  ghost predicate Connected(g: Graph, x: int, y: int) {
    exists p :: Chain(g, p) && p[0] == x && p[|p| - 1] == y
  }

  lemma ConnectedSelf(g: Graph, x: int)
    requires 0 <= x < g.n
    ensures Connected(g, x, x)
  {
    assert Chain(g, [x]);
  }

  lemma ConnectedStep(g: Graph, x: int, y: int, z: int)
    requires 0 <= x < g.n && 0 <= y < g.n && g.near(x, y) && Connected(g, y, z)
    ensures Connected(g, x, z)
  {
    var p :| Chain(g, p) && p[0] == y && p[|p| - 1] == z;
    var q := [x] + p;
    assert forall i :: 1 <= i < |q| ==> q[i] == p[i - 1];
    assert Chain(g, q);
  }

  /** A set of blocks with all their neighbours has all the blocks connected to its own. */
  ghost predicate Closed(g: Graph, s: set<int>) {
    forall x, y :: 0 <= x < g.n && 0 <= y < g.n && x in s && g.near(x, y) ==> y in s
  }

  lemma {:induction false} ClosedChain(g: Graph, s: set<int>, p: seq<int>, i: nat)
    requires Closed(g, s) && Chain(g, p) && p[0] in s && i < |p|
    ensures p[i] in s
  {
    if i > 0 {
      ClosedChain(g, s, p, i - 1);
      assert g.near(p[i - 1], p[i]);
    }
  }

  lemma ClosedConnected(g: Graph, s: set<int>, x: int, y: int)
    requires Closed(g, s) && x in s && Connected(g, x, y)
    ensures y in s
  {
    var p :| Chain(g, p) && p[0] == x && p[|p| - 1] == y;
    ClosedChain(g, s, p, |p| - 1);
  }

  lemma {:induction false} Backwards(g: Graph, p: seq<int>)
    requires Chain(g, p) && Symmetric(g)
    ensures Connected(g, p[|p| - 1], p[0])
  {
    if |p| == 1 {
      ConnectedSelf(g, p[0]);
    } else {
      var q := p[..|p| - 1];
      assert Chain(g, q);
      Backwards(g, q);
      assert g.near(p[|p| - 2], p[|p| - 1]);
      ConnectedStep(g, p[|p| - 1], q[|q| - 1], p[0]);
    }
  }

  lemma ConnectedBack(g: Graph, x: int, y: int)
    requires Connected(g, x, y) && Symmetric(g)
    ensures Connected(g, y, x)
  {
    var p :| Chain(g, p) && p[0] == x && p[|p| - 1] == y;
    Backwards(g, p);
  }

  // ---- the search ----

  function UsedSet(used: seq<bool>): set<int> { set i | 0 <= i < |used| && used[i] }

  function Elems(s: seq<int>): set<int> { set i | 0 <= i < |s| :: s[i] }

  /** The blocks of a search started at x: connected to x, new, each once, now used. */
  ghost predicate Found(g: Graph, x: int, before: set<int>, after: set<int>, list: seq<int>) {
    && NoRepeat(list) && Elems(list) !! before && after == before + Elems(list)
    && forall y :: y in Elems(list) ==> 0 <= y < g.n && Connected(g, x, y)
  }

  /** All neighbours of the blocks of the list but x, and those of x below n, are used. */
  ghost predicate Done(g: Graph, x: int, n: int, after: set<int>, list: seq<int>) {
    forall y, z :: y in Elems(list) && 0 <= y < g.n && 0 <= z < g.n && g.near(y, z) && (y != x || z < n) ==> z in after
  }

  lemma ElemsConcat(a: seq<int>, b: seq<int>)
    ensures Elems(a + b) == Elems(a) + Elems(b)
    ensures NoRepeat(a) && NoRepeat(b) && Elems(a) !! Elems(b) ==> NoRepeat(a + b)
  {
    var s := a + b;
    assert forall i :: 0 <= i < |a| ==> s[i] == a[i] && s[i] in Elems(a);
    assert forall i :: 0 <= i < |b| ==> s[|a| + i] == b[i] && s[|a| + i] in Elems(b);
    forall i | 0 <= i < |s| ensures s[i] in Elems(a) + Elems(b) { if i >= |a| { assert s[i] == b[i - |a|]; } }
    if NoRepeat(a) && NoRepeat(b) && Elems(a) !! Elems(b) {
      forall i, j | 0 <= i < j < |s| ensures s[i] != s[j] {
        if j >= |a| { assert s[j] == b[j - |a|]; }
        if i >= |a| { assert s[i] == b[i - |a|]; }
      }
    }
  }

  lemma FoundMore(g: Graph, x: int, u0: set<int>, u1: set<int>, list: seq<int>, y: int, u2: set<int>, more: seq<int>)
    requires 0 <= x < g.n && 0 <= y < g.n && g.near(x, y)
    requires Found(g, x, u0, u1, list) && Found(g, y, u1, u2, more)
    ensures Found(g, x, u0, u2, list + more)
  {
    ElemsConcat(list, more);
    forall z | z in Elems(more) ensures Connected(g, x, z) { ConnectedStep(g, x, y, z); }
  }

  lemma DoneMore(g: Graph, x: int, y: int, u1: set<int>, list: seq<int>, u2: set<int>, more: seq<int>)
    requires Done(g, x, y, u1, list) && Done(g, y, g.n, u2, more) && u1 <= u2 && y in u2
    ensures Done(g, x, y + 1, u2, list + more)
  {
    ElemsConcat(list, more);
  }

  lemma UsedMore(used: seq<bool>, x: int)
    requires 0 <= x < |used| && !used[x]
    ensures UsedSet(used[x := true]) == UsedSet(used) + {x} && x !in UsedSet(used)
    ensures |UsedSet(used[x := true])| == |UsedSet(used)| + 1
  {}

  function Indices(n: nat): (s: set<int>)
    ensures |s| == n && forall i :: i in s <==> 0 <= i < n
  {
    if n == 0 then {} else Indices(n - 1) + {n - 1}
  }

  /** How many blocks are not used. */
  function Unused(used: seq<bool>): nat {
    SubsetCount(UsedSet(used), Indices(|used|));
    |used| - |UsedSet(used)|
  }

  lemma UnusedFewer(a: seq<bool>, b: seq<bool>)
    requires |a| == |b| && UsedSet(a) <= UsedSet(b)
    ensures Unused(b) <= Unused(a)
    ensures (exists x :: x in UsedSet(b) && x !in UsedSet(a)) ==> Unused(b) < Unused(a)
  {
    SubsetCount(UsedSet(a), UsedSet(b));
    if x :| x in UsedSet(b) && x !in UsedSet(a) {
      SubsetCount(UsedSet(a) + {x}, UsedSet(b));
    }
  }

  /** The search from x, its neighbours below n being done: from the flags u to the flags v. */
  ghost predicate Search(g: Graph, x: int, n: int, u: seq<bool>, v: seq<bool>, list: seq<int>) {
    && 0 <= x < g.n == |u| == |v| && x in Elems(list)
    && Found(g, x, UsedSet(u), UsedSet(v), list) && Done(g, x, n, UsedSet(v), list)
    && Unused(v) < Unused(u)
  }

  lemma SearchStart(g: Graph, x: int, u: seq<bool>)
    requires 0 <= x < g.n == |u| && !u[x]
    ensures Search(g, x, 0, u, u[x := true], [x])
  {
    UsedMore(u, x);
    ConnectedSelf(g, x);
    assert [x][0] in Elems([x]);
    UnusedFewer(u, u[x := true]);
  }

  lemma SearchSkip(g: Graph, x: int, y: int, u: seq<bool>, v: seq<bool>, list: seq<int>)
    requires Search(g, x, y, u, v, list) && 0 <= y < g.n
    requires v[y] || y == x || !g.near(x, y)
    ensures Search(g, x, y + 1, u, v, list)
  {}

  lemma SearchMore(g: Graph, x: int, y: int, u: seq<bool>, v: seq<bool>, list: seq<int>,
                   w: seq<bool>, more: seq<int>)
    requires Search(g, x, y, u, v, list) && Search(g, y, g.n, v, w, more) && g.near(x, y)
    ensures Search(g, x, y + 1, u, w, list + more)
  {
    FoundMore(g, x, UsedSet(u), UsedSet(v), list, y, UsedSet(w), more);
    DoneMore(g, x, y, UsedSet(v), list, UsedSet(w), more);
    ElemsConcat(list, more);
  }

  lemma Associate(a: seq<int>, b: seq<int>, c: seq<int>)
    ensures a + b + c == a + (b + c)
  {}

  /** Adds to accu block x and the unused blocks that chains of unused blocks link to it. */
  method Visit(g: Graph, x: int, used: array<bool>, accu: seq<int>) returns (accu': seq<int>, ghost list: seq<int>)
    requires used.Length == g.n && 0 <= x < g.n && !used[x]
    modifies used
    ensures accu' == accu + list && Search(g, x, g.n, old(used[..]), used[..], list)
    decreases Unused(used[..])
  {
    ghost var u := used[..];
    SearchStart(g, x, u);
    accu', list := accu + [x], [x];
    used[x] := true;
    assert used[..] == u[x := true];
    var i := 0;
    while i < g.n
      invariant 0 <= i <= g.n && accu' == accu + list && Search(g, x, i, u, used[..], list)
    {
      if !used[i] && i != x && g.near(x, i) {
        ghost var v := used[..];
        ghost var more;
        accu', more := Visit(g, i, used, accu');
        SearchMore(g, x, i, u, v, list, used[..], more);
        Associate(accu, list, more);
        list := list + more;
      } else {
        SearchSkip(g, x, i, u, used[..], list);
      }
      i := i + 1;
    }
  }

  // ---- the partition ----

  /** The clusters have exactly the nodes of s, each once. */
  ghost predicate Covers(s: set<int>, clusters: seq<seq<int>>) {
    && (forall x :: x in s <==> InSome(clusters, x))
    && (forall c :: 0 <= c < |clusters| ==> clusters[c] != [] && NoRepeat(clusters[c]))
    && (forall c, d :: 0 <= c < d < |clusters| ==> Elems(clusters[c]) !! Elems(clusters[d]))
  }

  ghost predicate InSome(clusters: seq<seq<int>>, x: int) {
    exists c :: 0 <= c < |clusters| && x in Elems(clusters[c])
  }

  /** The nodes of a cluster are connected to its nodes and to no other. */
  ghost predicate Component(g: Graph, cluster: seq<int>) {
    forall x, y :: x in Elems(cluster) ==> (y in Elems(cluster) <==> Connected(g, x, y))
  }

  ghost predicate Components(g: Graph, clusters: seq<seq<int>>) {
    forall c :: 0 <= c < |clusters| ==> Component(g, clusters[c])
  }

  lemma ConnectedThrough(g: Graph, x: int, y: int, z: int)
    requires Symmetric(g) && Connected(g, x, y) && Connected(g, x, z)
    ensures Connected(g, y, z)
  {
    ConnectedBack(g, x, y);
    var p :| Chain(g, p) && p[0] == y && p[|p| - 1] == x;
    ChainThen(g, p, z);
  }

  lemma {:induction false} ChainThen(g: Graph, p: seq<int>, z: int)
    requires Chain(g, p) && Connected(g, p[|p| - 1], z)
    ensures Connected(g, p[0], z)
  {
    if |p| > 1 {
      var q := p[..|p| - 1];
      assert Chain(g, q);
      ConnectedStep(g, p[|p| - 2], p[|p| - 1], z);
      ChainThen(g, q, z);
    }
  }

  /** A finished search leaves the used nodes closed. */
  lemma StillClosed(g: Graph, x: int, u: seq<bool>, v: seq<bool>, list: seq<int>)
    requires Search(g, x, g.n, u, v, list) && Closed(g, UsedSet(u))
    ensures Closed(g, UsedSet(v))
  {}

  /** Its list is a component, if the nodes used before were closed. */
  lemma FoundComponent(g: Graph, x: int, u: seq<bool>, v: seq<bool>, list: seq<int>)
    requires Symmetric(g) && Search(g, x, g.n, u, v, list) && Closed(g, UsedSet(u))
    ensures Component(g, list)
  {
    StillClosed(g, x, u, v, list);
    forall y, z | y in Elems(list) ensures z in Elems(list) <==> Connected(g, y, z) {
      if z in Elems(list) { ConnectedThrough(g, x, y, z); }
      if Connected(g, y, z) {
        ClosedConnected(g, UsedSet(v), y, z);
        ConnectedBack(g, y, z);
        if z in UsedSet(u) { ClosedConnected(g, UsedSet(u), z, y); }
      }
    }
  }

  lemma OneMoreCluster(s: set<int>, t: set<int>, list: seq<int>, clusters: seq<seq<int>>)
    requires Covers(s, clusters) && NoRepeat(list) && list != [] && Elems(list) !! s && t == s + Elems(list)
    ensures Covers(t, clusters + [list])
  {
    InSomeMore(clusters, list);
    forall c | 0 <= c < |clusters| ensures Elems(clusters[c]) !! Elems(list) {
      ClusterInside(clusters, c, s);
    }
  }

  lemma ClusterInside(clusters: seq<seq<int>>, c: int, s: set<int>)
    requires Covers(s, clusters) && 0 <= c < |clusters|
    ensures Elems(clusters[c]) <= s
  {
    forall y | y in Elems(clusters[c]) ensures y in s { assert InSome(clusters, y); }
  }

  lemma InSomeMore(clusters: seq<seq<int>>, list: seq<int>)
    ensures forall y :: InSome(clusters + [list], y) <==> InSome(clusters, y) || y in Elems(list)
  {
    var t := clusters + [list];
    forall y ensures InSome(t, y) <==> InSome(clusters, y) || y in Elems(list) {
      if y in Elems(list) { assert y in Elems(t[|clusters|]); }
      if c :| 0 <= c < |clusters| && y in Elems(clusters[c]) { assert y in Elems(t[c]); }
      if c :| 0 <= c < |t| && y in Elems(t[c]) { assert c < |clusters| ==> y in Elems(clusters[c]); }
    }
  }

  /** The clusters of the used nodes, once those below i are used. */
  ghost predicate Clustering(g: Graph, used: seq<bool>, i: nat, clusters: seq<seq<int>>) {
    && |used| == g.n && (forall j :: 0 <= j < i ==> j in UsedSet(used))
    && Covers(UsedSet(used), clusters) && Components(g, clusters) && Closed(g, UsedSet(used))
  }

  lemma ClusteringStart(g: Graph, used: seq<bool>)
    requires |used| == g.n && forall i :: 0 <= i < g.n ==> !used[i]
    ensures Clustering(g, used, 0, [])
  {
    assert UsedSet(used) == {};
  }

  lemma ClusteringStep(g: Graph, i: nat, u: seq<bool>, v: seq<bool>, list: seq<int>, clusters: seq<seq<int>>)
    requires Symmetric(g) && i < g.n && Clustering(g, u, i, clusters) && Search(g, i, g.n, u, v, list)
    ensures Clustering(g, v, i + 1, clusters + [list])
  {
    OneMoreCluster(UsedSet(u), UsedSet(v), list, clusters);
    FoundComponent(g, i, u, v, list);
    StillClosed(g, i, u, v, list);
  }

  lemma ClusteringEnd(g: Graph, used: seq<bool>, clusters: seq<seq<int>>)
    requires Clustering(g, used, g.n, clusters)
    ensures Covers(Indices(g.n), clusters) && Components(g, clusters)
  {
    assert UsedSet(used) == Indices(g.n);
  }

  lemma NothingBefore(list: seq<int>)
    ensures [] + list == list
  {}

  lemma ClusteringSkip(g: Graph, i: nat, used: seq<bool>, clusters: seq<seq<int>>)
    requires i < g.n && Clustering(g, used, i, clusters) && used[i]
    ensures Clustering(g, used, i + 1, clusters)
  {}

  /** The clusters: a partition of the nodes into components. */
  method ClusterList(g: Graph) returns (clusters: seq<seq<int>>)
    requires Symmetric(g)
    ensures Covers(Indices(g.n), clusters) && Components(g, clusters)
  {
    var used := new bool[g.n](_ => false);
    clusters := [];
    ClusteringStart(g, used[..]);
    var i := 0;
    while i < g.n
      invariant 0 <= i <= g.n && Clustering(g, used[..], i, clusters)
    {
      if !used[i] {
        ghost var u := used[..];
        var accu;
        ghost var list;
        accu, list := Visit(g, i, used, []);
        NothingBefore(list);
        ClusteringStep(g, i, u, used[..], list, clusters);
        clusters := clusters + [accu];
      } else {
        ClusteringSkip(g, i, used[..], clusters);
      }
      i := i + 1;
    }
    ClusteringEnd(g, used[..], clusters);
  }
}
