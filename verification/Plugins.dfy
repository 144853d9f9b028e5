/** The life cycle of plugins: a use counter that goes on below zero as the age of an unused plugin. */
module Plugins {
  import opened Collections

  /** Age at which an unused plugin is cleaned up. */
  const MAX_AGE := 16

  /** The counter of each plugin, the list of the unused ones, and the plugins cleaned up, in order. */
  datatype State = State(counter: seq<int>, unused: seq<int>, cleaned: seq<int>)

  datatype Op = Plug(p: int) | Unplug(p: int)

  /** The list without its first p. */
  function Without(s: seq<int>, p: int): seq<int> {
    if s == [] then [] else if s[0] == p then s[1..] else [s[0]] + Without(s[1..], p)
  }

  predicate IsPlugin(s: State, p: int) { 0 <= p < |s.counter| }

  predicate AllPlugins(s: State) {
    forall i :: 0 <= i < |s.unused| ==> IsPlugin(s, s.unused[i])
  }

  /** Giving back a plugin; also how an unused one gets older. */
  function UnplugState(s: State, p: int): State
    requires IsPlugin(s, p)
  {
    var n := s.counter[p] - 1;
    if n == 0 then State(s.counter[p := -1], s.unused + [p], s.cleaned)
    else if n < -MAX_AGE then State(s.counter[p := n], Without(s.unused, p), s.cleaned + [p])
    else State(s.counter[p := n], s.unused, s.cleaned)
  }

  /** The unused plugins 0..n of the list get older, from the last to the first. */
  function StepState(s: State, n: nat): State
    requires n <= |s.unused| && Good(s)
    decreases n
  {
    if n == 0 then s
    else
      OlderGood(s, n - 1);
      StepState(UnplugState(s, s.unused[n - 1]), n - 1)
  }

  /** Using a plugin: it starts, or comes back from the unused ones, or is used once more. */
  function UseState(s: State, p: int): State
    requires IsPlugin(s, p)
  {
    if s.counter[p] > 0 then s.(counter := s.counter[p := s.counter[p] + 1])
    else if s.counter[p] == 0 then s.(counter := s.counter[p := 1])
    else State(s.counter[p := 1], Without(s.unused, p), s.cleaned)
  }

  function PlugState(s: State, p: int): State
    requires IsPlugin(s, p) && Good(s)
  {
    UseGood(s, p);
    StepState(UseState(s, p), |UseState(s, p).unused|)
  }

  /** The unused plugins are those whose counter is between -16 and -1, each once. */
  ghost predicate Good(s: State) {
    && AllPlugins(s) && NoRepeat(s.unused)
    && forall p :: IsPlugin(s, p) ==> (p in s.unused <==> -MAX_AGE <= s.counter[p] <= -1)
  }

  lemma {:induction false} WithoutIs(s: seq<int>, p: int)
    requires NoRepeat(s)
    ensures NoRepeat(Without(s, p)) && forall q :: q in Without(s, p) <==> q in s && q != p
  {
    if s != [] {
      WithoutIs(s[1..], p);
      assert forall q :: q in s <==> q == s[0] || q in s[1..];
      assert s[0] !in s[1..];
      if s[0] != p { PrependIs(s[0], Without(s[1..], p)); }
    }
  }

  lemma PrependIs(x: int, t: seq<int>)
    requires NoRepeat(t) && x !in t
    ensures NoRepeat([x] + t) && forall q :: q in [x] + t <==> q == x || q in t
  {}

  /** The sequence without element i. */
  function Cut(s: seq<int>, i: nat): seq<int>
    requires i <= |s|
  {
    if i < |s| then s[..i] + s[i + 1..] else s
  }

  lemma CutShift(s: seq<int>, i: nat)
    requires 0 < i <= |s|
    ensures Cut(s, i) == [s[0]] + Cut(s[1..], i - 1)
  {
    if i < |s| {
      assert s[1..][i..] == s[i + 1..];
      assert s[..i] == [s[0]] + s[1..][..i - 1];
    }
  }

  /** Removing the element at i, if p is there for the first time. */
  lemma {:induction false} WithoutAt(s: seq<int>, p: int, i: nat)
    requires i <= |s| && p !in s[..i] && (i < |s| ==> s[i] == p)
    ensures Without(s, p) == Cut(s, i)
  {
    if i > 0 {
      assert s[..i][0] == s[0] && s[1..][..i - 1] == s[..i][1..];
      WithoutAt(s[1..], p, i - 1);
      CutShift(s, i);
    }
  }

  /** The elements before p stay where they are. */
  lemma {:induction false} WithoutPrefix(s: seq<int>, n: nat)
    requires NoRepeat(s) && n < |s|
    ensures n <= |Without(s, s[n])| && Without(s, s[n])[..n] == s[..n]
  {
    if n > 0 {
      WithoutPrefix(s[1..], n - 1);
      assert s[1..][n - 1] == s[n];
    }
  }

  /** Getting one unused plugin older keeps the list right. */
  lemma OlderGood(s: State, n: nat)
    requires Good(s) && n < |s.unused|
    ensures IsPlugin(s, s.unused[n])
    ensures var t := UnplugState(s, s.unused[n]); Good(t) && n <= |t.unused| && t.unused[..n] == s.unused[..n]
  {
    var p := s.unused[n];
    assert p in s.unused;
    WithoutIs(s.unused, p);
    WithoutPrefix(s.unused, n);
    var t := UnplugState(s, p);
    forall i | 0 <= i < |t.unused| ensures IsPlugin(t, t.unused[i]) {
      assert t.unused[i] in t.unused;
      assert t.unused[i] in s.unused;
    }
  }

  lemma UseGood(s: State, p: int)
    requires Good(s) && IsPlugin(s, p)
    ensures Good(UseState(s, p)) && |UseState(s, p).counter| == |s.counter|
    ensures forall q :: q in UseState(s, p).unused <==> q in s.unused && q != p
  {
    WithoutIs(s.unused, p);
    var t := UseState(s, p);
    forall i | 0 <= i < |t.unused| ensures IsPlugin(t, t.unused[i]) {
      assert t.unused[i] in t.unused;
      assert t.unused[i] in s.unused;
    }
  }

  /** The plugins cleaned up between two states. */
  function New(s: State, t: State): seq<int> {
    if |s.cleaned| <= |t.cleaned| then t.cleaned[|s.cleaned|..] else []
  }

  lemma NewConcat(s: State, m: State, t: State)
    requires s.cleaned <= m.cleaned <= t.cleaned
    ensures New(s, t) == New(s, m) + New(m, t)
  {}

  /** The plugins of age 16 among the first n unused ones, the last first. */
  function Aged(s: State, n: nat): seq<int>
    requires n <= |s.unused| && AllPlugins(s)
  {
    if n == 0 then []
    else IfOld(s, s.unused[n - 1]) + Aged(s, n - 1)
  }

  /** The others, in order. */
  function Younger(s: State, n: nat): seq<int>
    requires n <= |s.unused| && AllPlugins(s)
  {
    if n == 0 then []
    else Younger(s, n - 1) + IfYoung(s, s.unused[n - 1])
  }

  /** Each plugin of age 16 once. */
  lemma {:induction false} AgedIs(s: State, n: nat)
    requires n <= |s.unused| && Good(s)
    ensures forall q :: q in Aged(s, n) <==> q in s.unused[..n] && s.counter[q] == -MAX_AGE
    ensures NoRepeat(Aged(s, n))
  {
    if n > 0 {
      AgedIs(s, n - 1);
      var p := s.unused[n - 1];
      assert s.unused[..n] == s.unused[..n - 1] + [p];
      assert p !in s.unused[..n - 1];
      PrependIs(p, Aged(s, n - 1));
    }
  }

  lemma {:induction false} YoungerIs(s: State, n: nat)
    requires n <= |s.unused| && AllPlugins(s)
    ensures forall q :: q in Younger(s, n) <==> q in s.unused[..n] && s.counter[q] != -MAX_AGE
  {
    if n > 0 {
      YoungerIs(s, n - 1);
      assert s.unused[..n] == s.unused[..n - 1] + [s.unused[n - 1]];
    }
  }

  /** They only depend on the first n. */
  lemma {:induction false} AgedSame(s: State, m: State, n: nat)
    requires n <= |s.unused| && n <= |m.unused| && AllPlugins(s) && AllPlugins(m) && m.unused[..n] == s.unused[..n]
    requires forall i :: 0 <= i < n ==> m.counter[s.unused[i]] == s.counter[s.unused[i]]
    ensures Aged(m, n) == Aged(s, n) && Younger(m, n) == Younger(s, n)
  {
    if n > 0 {
      assert m.unused[n - 1] == m.unused[..n][n - 1];
      assert m.unused[..n - 1] == m.unused[..n][..n - 1];
      AgedSame(s, m, n - 1);
    }
  }

  /** p, if its age is 16. */
  function IfOld(s: State, p: int): seq<int>
    requires IsPlugin(s, p)
  {
    if s.counter[p] == -MAX_AGE then [p] else []
  }

  function IfYoung(s: State, p: int): seq<int>
    requires IsPlugin(s, p)
  {
    if s.counter[p] == -MAX_AGE then [] else [p]
  }

  /** Unused plugin n gets older: the first n stay as they are. */
  lemma OlderSame(s: State, n: nat, p: int, m: State)
    requires Good(s) && Good(m) && n < |s.unused| && s.unused[n] == p && IsPlugin(s, p) && m == UnplugState(s, p)
    requires n <= |m.unused| && m.unused[..n] == s.unused[..n]
    ensures Aged(m, n) == Aged(s, n) && Younger(m, n) == Younger(s, n)
  {
    AgedSame(s, m, n);
  }

  lemma OlderLists(s: State, n: nat, p: int, m: State)
    requires Good(s) && n < |s.unused| && s.unused[n] == p && IsPlugin(s, p) && m == UnplugState(s, p)
    ensures m.cleaned == s.cleaned + IfOld(s, p)
    ensures n <= |m.unused| && m.unused[n..] == IfYoung(s, p) + s.unused[n + 1..]
  {
    assert p in s.unused && p !in s.unused[..n];
    WithoutAt(s.unused, p, n);
  }

  lemma {:induction false} StepGood(s: State, n: nat)
    requires n <= |s.unused| && Good(s)
    ensures Good(StepState(s, n))
    decreases n
  {
    if n > 0 {
      StepUnfolds(s, n);
      StepGood(UnplugState(s, s.unused[n - 1]), n - 1);
    }
  }

  /** A step of the first n unused plugins makes each of them older by one and leaves the other counters. */
  ghost predicate Aging(s: State, t: State, n: nat)
    requires n <= |s.unused|
  {
    && |t.counter| == |s.counter|
    && forall q :: IsPlugin(s, q) ==> t.counter[q] == if q in s.unused[..n] then s.counter[q] - 1 else s.counter[q]
  }

  lemma AgingMore(s: State, n: nat, n1: nat, p: int, m: State, t: State)
    requires n < |s.unused| && s.unused[n] == p && p !in s.unused[..n] && IsPlugin(s, p)
    requires m.counter == s.counter[p := s.counter[p] - 1]
    requires n <= |m.unused| && m.unused[..n] == s.unused[..n] && Aging(m, t, n) && n1 == n + 1
    ensures Aging(s, t, n1)
  {
    assert s.unused[..n + 1] == s.unused[..n] + [p];
  }

  lemma OlderCounter(s: State, n: nat, p: int, m: State)
    requires Good(s) && n < |s.unused| && s.unused[n] == p && IsPlugin(s, p) && m == UnplugState(s, p)
    ensures p !in s.unused[..n] && m.counter == s.counter[p := s.counter[p] - 1]
  {
    assert p in s.unused;
  }

  lemma AgingStep(s: State, n: nat, n1: nat, p: int, m: State, t: State)
    requires GetsOlder(s, n, p, m) && Aging(m, t, n) && n1 == n + 1
    ensures Aging(s, t, n1)
  {
    OlderCounter(s, n, p, m);
    AgingMore(s, n, n1, p, m, t);
  }

  /** The first plugin of a step, and what is left to do after it. */
  lemma StepFirst(s: State, n: nat) returns (k: nat, p: int, m: State)
    requires 0 < n <= |s.unused| && Good(s)
    ensures n == k + 1 && GetsOlder(s, k, p, m) && StepState(s, n) == StepState(m, k)
  {
    StepUnfolds(s, n);
    k := n - 1;
    p := s.unused[k];
    m := UnplugState(s, p);
  }

  /** Unused plugin k, which is p, gets older, leading to m. */
  ghost predicate GetsOlder(s: State, k: nat, p: int, m: State) {
    && Good(s) && Good(m) && k < |s.unused| && s.unused[k] == p && IsPlugin(s, p) && m == UnplugState(s, p)
    && k <= |m.unused| && m.unused[..k] == s.unused[..k]
  }

  lemma {:induction false} StepAges(s: State, n: nat)
    requires n <= |s.unused| && Good(s)
    ensures Aging(s, StepState(s, n), n)
    decreases n
  {
    if n > 0 {
      var k, p, m := StepFirst(s, n);
      StepAges(m, k);
      AgingStep(s, k, n, p, m, StepState(m, k));
    }
  }

  /** It cleans up those of age 16, the last first, and the others stay in their order. */
  ghost predicate Lists(s: State, t: State, n: nat)
    requires n <= |s.unused| && AllPlugins(s)
  {
    t.cleaned == s.cleaned + Aged(s, n) && t.unused == Younger(s, n) + s.unused[n..]
  }

  lemma ListsMore(s: State, n: nat, p: int, m: State, t: State)
    requires AllPlugins(s) && AllPlugins(m) && n < |s.unused| && s.unused[n] == p && n <= |m.unused|
    requires Aged(m, n) == Aged(s, n) && Younger(m, n) == Younger(s, n)
    requires m.cleaned == s.cleaned + IfOld(s, p) && m.unused[n..] == IfYoung(s, p) + s.unused[n + 1..]
    requires Lists(m, t, n)
    ensures Lists(s, t, n + 1)
  {
    var aged, young := IfOld(s, p), IfYoung(s, p);
    assert Aged(s, n + 1) == aged + Aged(s, n);
    assert Younger(s, n + 1) == Younger(s, n) + young;
    assert (s.cleaned + aged) + Aged(s, n) == s.cleaned + (aged + Aged(s, n));
    assert Younger(s, n) + (young + s.unused[n + 1..]) == (Younger(s, n) + young) + s.unused[n + 1..];
  }

  lemma ListsNone(s: State)
    requires AllPlugins(s)
    ensures Lists(s, s, 0)
  {
    assert s.unused[0..] == s.unused;
  }

  lemma ListsStep(s: State, n: nat, n1: nat, p: int, m: State, t: State)
    requires GetsOlder(s, n, p, m) && Lists(m, t, n) && n1 == n + 1
    ensures Lists(s, t, n1)
  {
    OlderSame(s, n, p, m);
    OlderLists(s, n, p, m);
    ListsMore(s, n, p, m, t);
  }

  lemma {:induction false} StepLists(s: State, n: nat)
    requires n <= |s.unused| && Good(s)
    ensures Lists(s, StepState(s, n), n)
    decreases n
  {
    if n > 0 {
      var k, p, m := StepFirst(s, n);
      StepLists(m, k);
      ListsStep(s, k, n, p, m, StepState(m, k));
    } else {
      ListsNone(s);
    }
  }

  /** A step of all the unused plugins. */
  lemma StepIs(s: State)
    requires Good(s)
    ensures var n, t := |s.unused|, StepState(s, |s.unused|);
            && |t.counter| == |s.counter|
            && (forall q :: IsPlugin(s, q) ==> t.counter[q] == if q in s.unused then s.counter[q] - 1 else s.counter[q])
            && t.cleaned == s.cleaned + Aged(s, n) && t.unused == Younger(s, n)
            && (forall q :: q in Aged(s, n) <==> q in s.unused && s.counter[q] == -16)
  {
    var n := |s.unused|;
    StepAges(s, n);
    StepLists(s, n);
    AgedIs(s, n);
    assert s.unused[..n] == s.unused && s.unused[n..] == [];
  }

  lemma StepUnfolds(s: State, n: nat)
    requires 0 < n <= |s.unused| && Good(s)
    ensures IsPlugin(s, s.unused[n - 1])
    ensures var m := UnplugState(s, s.unused[n - 1]);
            && Good(m) && n - 1 <= |m.unused| && m.unused[..n - 1] == s.unused[..n - 1]
            && StepState(s, n) == StepState(m, n - 1)
  {
    OlderGood(s, n - 1);
  }

  /** The step of the first n unused plugins leads to t. */
  ghost predicate Stepping(s: State, n: nat, t: State) {
    n <= |s.unused| && Good(s) && StepState(s, n) == t
  }

  lemma SteppingAt(s: State, n: nat, t: State)
    requires Stepping(s, n + 1, t)
    ensures n < |s.unused| && IsPlugin(s, s.unused[n])
  {
    StepUnfolds(s, n + 1);
  }

  lemma SteppingDown(s: State, n: nat, t: State, p: int, m: State)
    requires Stepping(s, n + 1, t) && s.unused[n] == p && IsPlugin(s, p) && m == UnplugState(s, p)
    ensures Stepping(m, n, t)
  {
    StepUnfolds(s, n + 1);
  }

  lemma SteppingStart(s: State, t: State)
    requires Good(s) && t == StepState(s, |s.unused|)
    ensures Stepping(s, |s.unused|, t)
  {}

  lemma SteppingEnd(s: State, t: State)
    requires Stepping(s, 0, t)
    ensures s == t
  {}

  // ---- the objects ----

  class Registry {
    var counter: seq<int>
    var unused: seq<int>
    var cleaned: seq<int>

    function Abs(): State
      reads this
    {
      State(counter, unused, cleaned)
    }

    constructor (plugins: nat)
      ensures Good(Abs()) && Abs() == State(seq(plugins, _ => 0), [], [])
    {
      counter, unused, cleaned := seq(plugins, _ => 0), [], [];
    }

    method RemoveUnused(p: int)
      modifies `unused
      ensures unused == Without(old(unused), p)
    {
      var i := 0;
      while i < |unused| && unused[i] != p
        invariant 0 <= i <= |unused| && unused == old(unused) && p !in unused[..i]
      {
        i := i + 1;
      }
      WithoutAt(unused, p, i);
      if i < |unused| { unused := unused[..i] + unused[i + 1..]; }
    }

    /** Gives back a plugin. */
    method Unplug(p: int)
      requires IsPlugin(Abs(), p)
      modifies this
      ensures Abs() == UnplugState(old(Abs()), p)
    {
      counter := counter[p := counter[p] - 1];
      if counter[p] == 0 {
        unused := unused + [p];
        counter := counter[p := -1];
      } else if counter[p] < -MAX_AGE {
        cleaned := cleaned + [p];
        RemoveUnused(p);
      }
    }

    /** Makes the unused plugins older. */
    method Step()
      requires Good(Abs())
      modifies this
      ensures Abs() == StepState(old(Abs()), |old(unused)|)
    {
      ghost var t := StepState(Abs(), |unused|);
      SteppingStart(Abs(), t);
      var i := |unused| - 1;
      while i >= 0
        invariant -1 <= i && Stepping(Abs(), i + 1, t)
      {
        ghost var s := Abs();
        SteppingAt(s, i, t);
        Unplug(unused[i]);
        SteppingDown(s, i, t, s.unused[i], Abs());
        i := i - 1;
      }
      SteppingEnd(Abs(), t);
    }

    /** Uses a plugin, then makes the unused ones older. */
    method Plug(p: int)
      requires IsPlugin(Abs(), p) && Good(Abs())
      modifies this
      ensures Abs() == PlugState(old(Abs()), p)
    {
      UseGood(Abs(), p);
      if counter[p] > 0 {
        counter := counter[p := counter[p] + 1];
      } else if counter[p] == 0 {
        counter := counter[p := 1];
      } else {
        RemoveUnused(p);
        counter := counter[p := 1];
      }
      Step();
    }
  }

  // ---- whole runs ----

  /** The client gives back what it holds, and uses no plugin that was cleaned up. */
  predicate Legal(s: State, op: Op) {
    match op
    case Plug(p) => IsPlugin(s, p) && s.counter[p] >= -MAX_AGE
    case Unplug(p) => IsPlugin(s, p) && s.counter[p] > 0
  }

  function Do(s: State, op: Op): State
    requires Good(s) && Legal(s, op)
  {
    match op case Plug(p) => PlugState(s, p) case Unplug(p) => UnplugState(s, p)
  }

  /** A plug is a use and a step. */
  lemma PlugIs(s: State, p: int, m: State, t: State)
    requires Good(s) && IsPlugin(s, p) && m == UseState(s, p) && t == PlugState(s, p)
    ensures Good(m) && Good(t) && |t.counter| == |m.counter| == |s.counter|
    ensures t.cleaned == s.cleaned + Aged(m, |m.unused|) && t.unused == Younger(m, |m.unused|)
    ensures forall q :: q in Aged(m, |m.unused|) <==> q in m.unused && m.counter[q] == -MAX_AGE
    ensures forall q :: IsPlugin(m, q) ==> t.counter[q] == if q in m.unused then m.counter[q] - 1 else m.counter[q]
  {
    UseGood(s, p);
    StepGood(m, |m.unused|);
    StepIs(m);
  }

  lemma DoGood(s: State, op: Op)
    requires Good(s) && Legal(s, op)
    ensures Good(Do(s, op)) && |Do(s, op).counter| == |s.counter| && s.cleaned <= Do(s, op).cleaned
  {
    match op
    case Plug(p) => PlugIs(s, p, UseState(s, p), Do(s, op));
    case Unplug(p) => if s.counter[p] == 1 { AddUnused(s, p); }
  }

  lemma AddUnused(s: State, p: int)
    requires Good(s) && IsPlugin(s, p) && s.counter[p] == 1
    ensures Good(UnplugState(s, p))
  {
    var t := UnplugState(s, p);
    assert forall q :: q in t.unused <==> q in s.unused || q == p;
    forall i, j | 0 <= i < j < |t.unused| ensures t.unused[i] != t.unused[j] {
      assert s.unused[i] in s.unused;
    }
  }

  /** What one operation does to the counter of plugin q, and whether it cleans q up. */
  lemma DoCounter(s: State, op: Op, q: int)
    requires Good(s) && Legal(s, op) && IsPlugin(s, q)
    ensures IsPlugin(Do(s, op), q) && s.cleaned <= Do(s, op).cleaned
    ensures Do(s, op).counter[q] ==
              if op == Plug(q) then (if s.counter[q] > 0 then s.counter[q] + 1 else 1)
              else if op == Unplug(q) then (if s.counter[q] == 1 then -1 else s.counter[q] - 1)
              else if op.Plug? && -16 <= s.counter[q] <= -1 then s.counter[q] - 1
              else s.counter[q]
    ensures q in New(s, Do(s, op)) <==> op.Plug? && op.p != q && s.counter[q] == -16
  {
    if op.Plug? {
      UseGood(s, op.p);
      PlugIs(s, op.p, UseState(s, op.p), Do(s, op));
    }
  }

  ghost predicate LegalRun(s: State, ops: seq<Op>)
    requires Good(s)
    decreases |ops|
  {
    ops != [] ==> Legal(s, ops[0]) && (DoGood(s, ops[0]); LegalRun(Do(s, ops[0]), ops[1..]))
  }

  ghost function Run(s: State, ops: seq<Op>): State
    requires Good(s) && LegalRun(s, ops)
    decreases |ops|
  {
    if ops == [] then s else (DoGood(s, ops[0]); Run(Do(s, ops[0]), ops[1..]))
  }

  /** How often the client used a plugin more than it gave it back. */
  function Outstanding(ops: seq<Op>, q: int): int {
    if ops == [] then 0
    else (if ops[0] == Plug(q) then 1 else if ops[0] == Unplug(q) then -1 else 0) + Outstanding(ops[1..], q)
  }

  function Max0(n: int): int { if n > 0 then n else 0 }

  /** The counter of a plugin in use counts its outstanding uses. */
  lemma {:induction false} CounterCounts(s: State, ops: seq<Op>, q: int)
    requires Good(s) && LegalRun(s, ops) && IsPlugin(s, q)
    ensures IsPlugin(Run(s, ops), q) && Good(Run(s, ops))
    ensures Max0(Run(s, ops).counter[q]) == Max0(s.counter[q]) + Outstanding(ops, q)
    decreases |ops|
  {
    if ops != [] {
      DoGood(s, ops[0]);
      DoCounter(s, ops[0], q);
      CounterCounts(Do(s, ops[0]), ops[1..], q);
    }
  }

  /** A plugin is cleaned up only by an operation before which none of its uses was outstanding. */
  lemma NeverInUse(s: State, ops: seq<Op>, op: Op, q: int)
    requires Good(s) && s.cleaned == [] && (forall p :: IsPlugin(s, p) ==> s.counter[p] == 0)
    requires LegalRun(s, ops) && Legal(Run(s, ops), op) && IsPlugin(s, q)
    ensures Good(Run(s, ops)) && IsPlugin(Run(s, ops), q)
    ensures var t := Run(s, ops);
            t.cleaned <= Do(t, op).cleaned && (q in New(t, Do(t, op)) ==> Outstanding(ops, q) == 0)
  {
    CounterCounts(s, ops, q);
    DoCounter(Run(s, ops), op, q);
  }

  /** The number of plugs in a run. */
  function PlugCount(ops: seq<Op>): nat {
    if ops == [] then 0 else (if ops[0].Plug? then 1 else 0) + PlugCount(ops[1..])
  }

  predicate Leaves(ops: seq<Op>, q: int) {
    forall i :: 0 <= i < |ops| ==> ops[i].p != q
  }

  /** An unused plugin that nobody uses again is cleaned up at the 16th plug after it became unused, no
      sooner and no later: a run has cleaned it up exactly when it has that many plugs. */
  lemma {:induction false} CleanedAtAge(s: State, ops: seq<Op>, q: int, age: nat)
    requires Good(s) && LegalRun(s, ops) && IsPlugin(s, q) && Leaves(ops, q)
    requires s.counter[q] == -1 - age && age < 16
    ensures var t := Run(s, ops);
            && s.cleaned <= t.cleaned && IsPlugin(t, q)
            && (q in New(s, t) <==> age + PlugCount(ops) >= 16)
            && t.counter[q] == if age + PlugCount(ops) >= 16 then -17 else -1 - age - PlugCount(ops)
    decreases |ops|
  {
    if ops != [] {
      var m := Do(s, ops[0]);
      DoGood(s, ops[0]);
      DoCounter(s, ops[0], q);
      if m.counter[q] >= -MAX_AGE {
        CleanedAtAge(m, ops[1..], q, -1 - m.counter[q]);
      } else {
        StaysCleaned(m, ops[1..], q);
      }
      var t := Run(m, ops[1..]);
      NewConcat(s, m, t);
    }
  }

  lemma {:induction false} StaysCleaned(s: State, ops: seq<Op>, q: int)
    requires Good(s) && LegalRun(s, ops) && IsPlugin(s, q) && Leaves(ops, q) && s.counter[q] < -MAX_AGE
    ensures var t := Run(s, ops);
            && s.cleaned <= t.cleaned && IsPlugin(t, q) && q !in New(s, t) && t.counter[q] == s.counter[q]
    decreases |ops|
  {
    if ops != [] {
      var m := Do(s, ops[0]);
      DoGood(s, ops[0]);
      DoCounter(s, ops[0], q);
      StaysCleaned(m, ops[1..], q);
      var t := Run(m, ops[1..]);
      NewConcat(s, m, t);
    }
  }

  // ---- each plugin is cleaned up once ----

  /** The plugins cleaned up are those beyond age 16, each once. */
  ghost predicate Once(s: State) {
    NoRepeat(s.cleaned) && forall q :: q in s.cleaned <==> IsPlugin(s, q) && s.counter[q] < -16
  }

  lemma NoRepeatConcat(a: seq<int>, b: seq<int>)
    requires NoRepeat(a) && NoRepeat(b) && forall q :: q in a ==> q !in b
    ensures NoRepeat(a + b)
  {
    forall i, j | 0 <= i < j < |a + b| ensures (a + b)[i] != (a + b)[j] {
      assert i < |a| ==> (a + b)[i] in a;
      assert j >= |a| ==> (a + b)[j] in b;
    }
  }

  lemma PlugOnce(s: State, p: int)
    requires Good(s) && Once(s) && IsPlugin(s, p) && s.counter[p] >= -MAX_AGE
    ensures Once(PlugState(s, p))
  {
    var m, t := UseState(s, p), PlugState(s, p);
    UseGood(s, p);
    PlugIs(s, p, m, t);
    AgedIs(m, |m.unused|);
    NoRepeatConcat(s.cleaned, Aged(m, |m.unused|));
    forall q ensures q in t.cleaned <==> IsPlugin(t, q) && t.counter[q] < -16 {
      assert q in m.unused ==> IsPlugin(m, q);
    }
  }

  lemma DoOnce(s: State, op: Op)
    requires Good(s) && Legal(s, op) && Once(s)
    ensures Once(Do(s, op))
  {
    if op.Plug? { PlugOnce(s, op.p); }
  }

  lemma {:induction false} CleanedOnce(s: State, ops: seq<Op>)
    requires Good(s) && LegalRun(s, ops) && Once(s)
    ensures Once(Run(s, ops))
    decreases |ops|
  {
    if ops != [] {
      DoGood(s, ops[0]);
      DoOnce(s, ops[0]);
      CleanedOnce(Do(s, ops[0]), ops[1..]);
    }
  }

  // ---- the unused plugins, oldest first ----

  predicate Sorted(counter: seq<int>, list: seq<int>) {
    && (forall i :: 0 <= i < |list| ==> 0 <= list[i] < |counter|)
    && forall i, j :: 0 <= i < j < |list| ==> counter[list[i]] <= counter[list[j]]
  }

  predicate OldestFirst(s: State) { Sorted(s.counter, s.unused) }

  /** Leaving out p keeps the order of the others. */
  lemma {:induction false} WithoutOrder(s: seq<int>, p: int, i: nat, j: nat)
    requires i < j < |Without(s, p)|
    ensures exists k, l :: 0 <= k < l < |s| && s[k] == Without(s, p)[i] && s[l] == Without(s, p)[j]
  {
    if s[0] == p {
      assert s[i + 1] == Without(s, p)[i] && s[j + 1] == Without(s, p)[j];
    } else if i > 0 {
      WithoutOrder(s[1..], p, i - 1, j - 1);
      var k, l :| 0 <= k < l < |s[1..]| && s[1..][k] == Without(s[1..], p)[i - 1] && s[1..][l] == Without(s[1..], p)[j - 1];
      assert s[k + 1] == Without(s, p)[i] && s[l + 1] == Without(s, p)[j];
    } else {
      WithoutWithin(s[1..], p, j - 1);
      var l :| 0 <= l < |s[1..]| && s[1..][l] == Without(s[1..], p)[j - 1];
      assert s[0] == Without(s, p)[i] && s[l + 1] == Without(s, p)[j];
    }
  }

  lemma {:induction false} WithoutWithin(s: seq<int>, p: int, j: nat)
    requires j < |Without(s, p)|
    ensures exists l :: 0 <= l < |s| && s[l] == Without(s, p)[j]
  {
    if s[0] == p {
      assert s[j + 1] == Without(s, p)[j];
    } else if j > 0 {
      WithoutWithin(s[1..], p, j - 1);
      var l :| 0 <= l < |s[1..]| && s[1..][l] == Without(s[1..], p)[j - 1];
      assert s[l + 1] == Without(s, p)[j];
    }
  }

  lemma UseOrdered(s: State, p: int)
    requires Good(s) && OldestFirst(s) && IsPlugin(s, p)
    ensures OldestFirst(UseState(s, p))
  {
    UseGood(s, p);
    var m := UseState(s, p);
    forall i, j | 0 <= i < j < |m.unused| ensures m.counter[m.unused[i]] <= m.counter[m.unused[j]] {
      assert m.unused[i] in m.unused && m.unused[j] in m.unused;
      if m.unused != s.unused {
        WithoutOrder(s.unused, p, i, j);
        var k, l :| 0 <= k < l < |s.unused| && s.unused[k] == m.unused[i] && s.unused[l] == m.unused[j];
      }
    }
  }

  lemma SortedAppend(counter: seq<int>, list: seq<int>, p: int)
    requires Sorted(counter, list) && 0 <= p < |counter| && forall q :: q in list ==> counter[q] <= counter[p]
    ensures Sorted(counter, list + [p])
  {
    assert forall i :: 0 <= i < |list| ==> list[i] in list;
  }

  lemma SortedMore(counter: seq<int>, list: seq<int>, p: int, more: seq<int>)
    requires Sorted(counter, list) && 0 <= p < |counter| && forall q :: q in list ==> counter[q] <= counter[p]
    requires more == [] || more == [p]
    ensures Sorted(counter, list + more)
  {
    if more == [] { assert list + more == list; } else { SortedAppend(counter, list, p); }
  }

  lemma YoungerLast(s: State, n: nat)
    requires Good(s) && OldestFirst(s) && n < |s.unused|
    ensures IsPlugin(s, s.unused[n]) && forall q :: q in Younger(s, n) ==> IsPlugin(s, q) && s.counter[q] <= s.counter[s.unused[n]]
  {
    YoungerIs(s, n);
  }

  lemma YoungerStep(s: State, n: nat, list: seq<int>)
    requires Good(s) && OldestFirst(s) && n < |s.unused| && list == Younger(s, n) && Sorted(s.counter, list)
    ensures IsPlugin(s, s.unused[n]) && Sorted(s.counter, list + IfYoung(s, s.unused[n]))
  {
    YoungerLast(s, n);
    SortedMore(s.counter, list, s.unused[n], IfYoung(s, s.unused[n]));
  }

  /** The last of those that stay is the youngest. */
  lemma {:induction false} YoungerSorted(s: State, n: nat)
    requires Good(s) && OldestFirst(s) && n <= |s.unused|
    ensures Sorted(s.counter, Younger(s, n))
  {
    if n > 0 {
      YoungerSorted(s, n - 1);
      YoungerStep(s, n - 1, Younger(s, n - 1));
    }
  }

  lemma SortedOlder(counter: seq<int>, older: seq<int>, list: seq<int>)
    requires Sorted(counter, list) && |older| == |counter| && forall q :: q in list ==> older[q] == counter[q] - 1
    ensures Sorted(older, list)
  {
    assert forall i :: 0 <= i < |list| ==> list[i] in list;
  }

  lemma PlugOrdered(s: State, p: int)
    requires Good(s) && OldestFirst(s) && IsPlugin(s, p)
    ensures Good(PlugState(s, p)) && OldestFirst(PlugState(s, p))
  {
    var m, t := UseState(s, p), PlugState(s, p);
    PlugIs(s, p, m, t);
    UseOrdered(s, p);
    YoungerSorted(m, |m.unused|);
    YoungerIs(m, |m.unused|);
    assert m.unused[..|m.unused|] == m.unused;
    SortedOlder(m.counter, t.counter, t.unused);
  }

  lemma UnplugOrdered(s: State, p: int)
    requires Good(s) && OldestFirst(s) && IsPlugin(s, p) && s.counter[p] > 0
    ensures OldestFirst(UnplugState(s, p))
  {
    assert forall i :: 0 <= i < |s.unused| ==> s.unused[i] in s.unused;
  }

  /** Every operation keeps the unused plugins in the order of their ages. */
  lemma DoOrdered(s: State, op: Op)
    requires Good(s) && Legal(s, op) && OldestFirst(s)
    ensures Good(Do(s, op)) && OldestFirst(Do(s, op))
  {
    DoGood(s, op);
    match op
    case Plug(p) => PlugOrdered(s, p);
    case Unplug(p) => UnplugOrdered(s, p);
  }

  lemma {:induction false} RunOrdered(s: State, ops: seq<Op>)
    requires Good(s) && LegalRun(s, ops) && OldestFirst(s)
    ensures OldestFirst(Run(s, ops))
    decreases |ops|
  {
    if ops != [] {
      DoGood(s, ops[0]);
      DoOrdered(s, ops[0]);
      RunOrdered(Do(s, ops[0]), ops[1..]);
    }
  }

  lemma SomeUnused(s: State)
    requires Good(s)
    ensures s.unused != [] ==> exists p :: IsPlugin(s, p) && s.counter[p] < 0
  {
    if s.unused != [] { assert s.unused[0] in s.unused; }
  }

  /** Over every run from the start, no plugin is cleaned up twice, and the unused plugins are in the order of
      their ages. */
  lemma NeverTwice(s: State, ops: seq<Op>)
    requires Good(s) && LegalRun(s, ops) && s.cleaned == [] && forall p :: IsPlugin(s, p) ==> s.counter[p] == 0
    ensures NoRepeat(Run(s, ops).cleaned) && OldestFirst(Run(s, ops))
    ensures forall q :: q in Run(s, ops).cleaned <==> IsPlugin(Run(s, ops), q) && Run(s, ops).counter[q] < -16
  {
    SomeUnused(s);
    CleanedOnce(s, ops);
    RunOrdered(s, ops);
  }
}
