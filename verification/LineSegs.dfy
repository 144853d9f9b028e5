/** The segments of a line map: executable ranges of addresses, cut into slots of one step each. */
module LineSegs {
  import opened Arith
  import opened Options

  /** A line descriptor: its unit, and its index in the unit's table. */
  datatype Ref = Ref(unit: int, num: int)

  datatype Segment = Segment(low: nat, high: nat, locs: seq<Option<Ref>>)

  predicate In(s: Segment, a: int) { s.low <= a < s.high }

  /** Index of the first segment that holds an address, -1 if there is none. */
  function SegOf(segs: seq<Segment>, a: int): (r: int)
    ensures -1 <= r < |segs|
    ensures r >= 0 ==> In(segs[r], a)
    ensures forall i :: 0 <= i < (if r < 0 then |segs| else r) ==> !In(segs[i], a)
  {
    FirstFrom(segs, a, 0)
  }

  function FirstFrom(segs: seq<Segment>, a: int, i: nat): (r: int)
    requires i <= |segs| && forall j :: 0 <= j < i ==> !In(segs[j], a)
    ensures -1 <= r < |segs|
    ensures r >= 0 ==> In(segs[r], a)
    ensures forall j :: 0 <= j < (if r < 0 then |segs| else r) ==> !In(segs[j], a)
    decreases |segs| - i
  {
    if i == |segs| then -1 else if In(segs[i], a) then i else FirstFrom(segs, a, i + 1)
  }

  /** The search loop. */
  method FindSegment(segs: seq<Segment>, a: int) returns (r: int)
    ensures r == SegOf(segs, a)
  {
    r := 0;
    while r < |segs| && !In(segs[r], a)
      invariant 0 <= r <= |segs| && forall j :: 0 <= j < r ==> !In(segs[j], a)
    {
      r := r + 1;
    }
    if r == |segs| { r := -1; }
  }

  /** No address is in two segments. */
  ghost predicate Disjoint(segs: seq<Segment>) {
    forall i, j, a :: 0 <= i < j < |segs| && In(segs[i], a) ==> !In(segs[j], a)
  }

  lemma SegIs(segs: seq<Segment>, i: nat, a: int)
    requires Disjoint(segs) && i < |segs| && In(segs[i], a)
    ensures SegOf(segs, a) == i
  {}

  /** Addresses at a whole number of steps from one another: a % step == off. */
  predicate OnGrid(a: int, step: int, off: int)
    requires step > 0
  {
    a - Times(Quot(a, step), step) == off
  }

  /** A segment that starts and ends on the grid, with one slot a step. */
  predicate Shaped(s: Segment, step: int, off: int)
    requires step > 0
  {
    && OnGrid(s.low, step, off) && OnGrid(s.high, step, off) && s.low <= s.high
    && |s.locs| == Quot(s.high - s.low, step)
  }

  ghost predicate AllShaped(segs: seq<Segment>, step: int, off: int)
    requires step > 0
  {
    forall i :: 0 <= i < |segs| ==> Shaped(segs[i], step, off)
  }

  // ---- slots and addresses ----

  /** s.low + k * step */
  function SlotAddr(s: Segment, step: int, k: int): int { s.low + Times(k, step) }

  /** (a - s.low) / step */
  function SlotAt(s: Segment, step: int, a: int): int
    requires step > 0
  {
    Quot(a - s.low, step)
  }

  /** These are the product and the quotient that the code computes. */
  lemma SlotFormulas(s: Segment, step: int, k: int, a: int)
    requires step > 0
    ensures SlotAddr(s, step, k) == s.low + k * step && SlotAt(s, step, a) == (a - s.low) / step
  {
    TimesIs(k, step);
    QuotIs(a - s.low, step);
  }

  /** Slot k is the one of address a exactly when a is in its step. */
  lemma SlotIs(s: Segment, step: int, a: int, k: int)
    requires step > 0
    ensures SlotAt(s, step, a) == k <==> SlotAddr(s, step, k) <= a < SlotAddr(s, step, k) + step
  {
    QuotUnique(a - s.low, step, k);
  }

  lemma SlotMonotone(s: Segment, step: int, j: int, k: int)
    requires step > 0 && j < k
    ensures SlotAddr(s, step, j) + step <= SlotAddr(s, step, k)
  {
    TimesLess(j, k, step);
  }

  /** Moving by whole steps stays on the grid. */
  lemma GridShift(a: int, step: int, off: int, k: int)
    requires step > 0 && OnGrid(a, step, off)
    ensures OnGrid(a + Times(k, step), step, off)
  {
    var q := Quot(a, step);
    QuotBounds(a, step);
    TimesAdd(q, k, step);
    QuotUnique(a + Times(k, step), step, q + k);
  }

  lemma GridNext(a: int, step: int, off: int)
    requires step > 0 && OnGrid(a, step, off)
    ensures OnGrid(a + step, step, off)
  {
    GridShift(a, step, off, 1);
    assert Times(1, step) == step;
  }

  lemma GridDivides(a: int, b: int, step: int, off: int)
    requires step > 0 && OnGrid(a, step, off) && OnGrid(b, step, off)
    ensures Times(Quot(b - a, step), step) == b - a
  {
    var p, q := Quot(a, step), Quot(b, step);
    TimesAdd(p, q - p, step);
    QuotUnique(b - a, step, q - p);
  }

  /** An address on the grid starts the slot it is in. */
  lemma GridSlot(s: Segment, step: int, off: int, a: int)
    requires step > 0 && OnGrid(s.low, step, off) && OnGrid(a, step, off)
    ensures SlotAddr(s, step, SlotAt(s, step, a)) == a
  {
    GridDivides(s.low, a, step, off);
  }

  lemma SlotOnGrid(s: Segment, step: int, off: int, k: int)
    requires step > 0 && OnGrid(s.low, step, off)
    ensures OnGrid(SlotAddr(s, step, k), step, off)
  {
    GridShift(s.low, step, off, k);
  }

  /** Two grid addresses less than a step apart are the same. */
  lemma GridGap(a: int, b: int, step: int, off: int)
    requires step > 0 && OnGrid(a, step, off) && OnGrid(b, step, off) && a <= b < a + step
    ensures a == b
  {
    GridDivides(a, b, step, off);
    QuotUnique(b - a, step, 0);
  }

  /** The addresses of a segment are those of its slots. */
  lemma SlotInside(s: Segment, step: int, off: int, a: int)
    requires step > 0 && Shaped(s, step, off)
    ensures In(s, a) <==> 0 <= SlotAt(s, step, a) < |s.locs|
  {
    var n, k := |s.locs|, SlotAt(s, step, a);
    GridDivides(s.low, s.high, step, off);
    assert SlotAddr(s, step, n) == s.high;
    SlotIs(s, step, a, k);
    if k >= 0 && k < n {
      SlotMonotone(s, step, k, n);
      if k > 0 { SlotMonotone(s, step, 0, k); }
    } else if k >= n {
      if k > n { SlotMonotone(s, step, n, k); }
    } else {
      SlotMonotone(s, step, k, 0);
    }
  }

  /** The first address of a slot is in the segment. */
  lemma SlotStarts(s: Segment, step: int, off: int, k: int)
    requires step > 0 && Shaped(s, step, off) && 0 <= k < |s.locs|
    ensures In(s, SlotAddr(s, step, k)) && OnGrid(SlotAddr(s, step, k), step, off)
    ensures SlotAt(s, step, SlotAddr(s, step, k)) == k
  {
    SlotIs(s, step, SlotAddr(s, step, k), k);
    SlotInside(s, step, off, SlotAddr(s, step, k));
    SlotOnGrid(s, step, off, k);
  }

  // ---- making the segments ----

  /** A program header: loadable, executable, its addresses. */
  datatype Prog = Prog(load: bool, exec: bool, vaddr: nat, memsz: nat)

  /** A header that counts for the map. */
  predicate Code(p: Prog) { p.load && p.exec }

  function End(p: Prog): nat { p.vaddr + p.memsz }

  predicate ProgHas(p: Prog, a: int) { p.load && p.exec && p.vaddr <= a < p.vaddr + p.memsz }

  ghost predicate SomeProg(ps: seq<Prog>, n: nat, a: int)
    requires n <= |ps|
  {
    exists i :: 0 <= i < n && ProgHas(ps[i], a)
  }

  ghost predicate SomeSeg(segs: seq<Segment>, a: int) {
    exists i :: 0 <= i < |segs| && In(segs[i], a)
  }

  ghost predicate ProgsDisjoint(ps: seq<Prog>) {
    forall i, j, a :: 0 <= i < j < |ps| && ProgHas(ps[i], a) ==> !ProgHas(ps[j], a)
  }

  predicate ProgsOnGrid(ps: seq<Prog>, step: int, off: int)
    requires step > 0
  {
    forall i :: 0 <= i < |ps| ==> OnGrid(ps[i].vaddr, step, off) && OnGrid(ps[i].vaddr + ps[i].memsz, step, off)
  }

  ghost predicate SameAddresses(segs: seq<Segment>, ps: seq<Prog>, n: nat)
    requires n <= |ps|
  {
    forall a :: SomeSeg(segs, a) <==> SomeProg(ps, n, a)
  }

  lemma ProgStep(ps: seq<Prog>, n: nat)
    requires n < |ps|
    ensures forall a :: SomeProg(ps, n + 1, a) <==> SomeProg(ps, n, a) || ProgHas(ps[n], a)
  {}

  lemma SegPrepended(s: Segment, segs: seq<Segment>)
    ensures forall a :: SomeSeg([s] + segs, a) <==> In(s, a) || SomeSeg(segs, a)
  {
    var t := [s] + segs;
    forall a ensures SomeSeg(t, a) <==> In(s, a) || SomeSeg(segs, a) {
      if i :| 0 <= i < |segs| && In(segs[i], a) { assert In(t[i + 1], a); }
      if In(s, a) { assert In(t[0], a); }
      if i :| 0 <= i < |t| && In(t[i], a) { assert i == 0 || In(segs[i - 1], a); }
    }
  }

  lemma SegUpdated(segs: seq<Segment>, k: nat, s: Segment)
    requires k < |segs| && forall a :: In(segs[k], a) ==> In(s, a)
    ensures forall a :: SomeSeg(segs[k := s], a) <==> In(s, a) || SomeSeg(segs, a)
  {
    var t := segs[k := s];
    forall a ensures SomeSeg(t, a) <==> In(s, a) || SomeSeg(segs, a) {
      if i :| 0 <= i < |segs| && In(segs[i], a) { assert In(t[i], a); }
      if In(s, a) { assert In(t[k], a); }
      if i :| 0 <= i < |t| && In(t[i], a) { assert i == k || In(segs[i], a); }
    }
  }

  lemma Apart(segs: seq<Segment>, ps: seq<Prog>, n: nat)
    requires n < |ps| && SameAddresses(segs, ps, n) && ProgsDisjoint(ps)
    ensures forall a :: SomeSeg(segs, a) ==> !ProgHas(ps[n], a)
    ensures forall i, a :: 0 <= i < |segs| && In(segs[i], a) ==> !ProgHas(ps[n], a)
  {
    forall i, a | 0 <= i < |segs| && In(segs[i], a) ensures !ProgHas(ps[n], a) {
      assert SomeSeg(segs, a);
    }
  }

  lemma DisjointPrepended(s: Segment, segs: seq<Segment>)
    requires Disjoint(segs) && forall i, a :: 0 <= i < |segs| && In(segs[i], a) ==> !In(s, a)
    ensures Disjoint([s] + segs)
  {
    var t := [s] + segs;
    forall i, j, a | 0 <= i < j < |t| && In(t[i], a) ensures !In(t[j], a) {
      assert t[j] == segs[j - 1];
      assert i == 0 || t[i] == segs[i - 1];
    }
  }

  /** The segments made so far, before their slots are allocated. */
  ghost predicate Ranges(segs: seq<Segment>, ps: seq<Prog>, n: nat)
    requires n <= |ps|
  {
    && SameAddresses(segs, ps, n)
    && (ProgsDisjoint(ps) ==> Disjoint(segs))
    && (forall i :: 0 <= i < |segs| ==> segs[i].low <= segs[i].high)
  }

  predicate OnGridAll(segs: seq<Segment>, step: int, off: int)
    requires step > 0
  {
    forall i :: 0 <= i < |segs| ==> OnGrid(segs[i].low, step, off) && OnGrid(segs[i].high, step, off)
  }

  lemma RangesExtended(segs: seq<Segment>, ps: seq<Prog>, n: nat, k: nat, t: seq<Segment>, n1: nat)
    requires n < |ps| && Code(ps[n]) && Ranges(segs, ps, n) && n1 == n + 1
    requires k < |segs| && segs[k].high == ps[n].vaddr && t == segs[k := segs[k].(high := End(ps[n]))]
    ensures Ranges(t, ps, n1)
  {
    ProgStep(ps, n);
    assert forall a :: In(t[k], a) <==> In(segs[k], a) || ProgHas(ps[n], a);
    SegUpdated(segs, k, t[k]);
    if ProgsDisjoint(ps) { Apart(segs, ps, n); }
  }

  lemma RangesPrepended(segs: seq<Segment>, ps: seq<Prog>, n: nat, s: Segment, n1: nat)
    requires n < |ps| && Code(ps[n]) && Ranges(segs, ps, n) && n1 == n + 1
    requires s.low == ps[n].vaddr && s.high == End(ps[n])
    ensures Ranges([s] + segs, ps, n1)
  {
    ProgStep(ps, n);
    SegPrepended(s, segs);
    assert forall a :: In(s, a) <==> ProgHas(ps[n], a);
    if ProgsDisjoint(ps) {
      Apart(segs, ps, n);
      DisjointPrepended(s, segs);
    }
    var t := [s] + segs;
    forall i | 0 <= i < |t| ensures t[i].low <= t[i].high {
      if i > 0 { assert t[i] == segs[i - 1]; }
    }
  }

  // ---- headers that touch ----

  /** Those headers are disjoint, and none is empty. */
  ghost predicate Plain(ps: seq<Prog>) {
    ProgsDisjoint(ps) && forall i :: 0 <= i < |ps| && Code(ps[i]) ==> ps[i].memsz > 0
  }

  /** Two headers that count, of which the second starts where the first ends. */
  predicate Touch(p: Prog, q: Prog) { Code(p) && Code(q) && End(p) == q.vaddr }

  /** The headers before and after are determined. */
  lemma TouchOnce(ps: seq<Prog>, i: nat, j: nat)
    requires Plain(ps) && i < |ps| && j < |ps| && Code(ps[i]) && Code(ps[j])
    ensures End(ps[i]) == End(ps[j]) ==> i == j
    ensures ps[i].vaddr == ps[j].vaddr ==> i == j
  {
    assert ProgHas(ps[i], End(ps[i]) - 1) && ProgHas(ps[i], ps[i].vaddr);
    assert ProgHas(ps[j], End(ps[j]) - 1) && ProgHas(ps[j], ps[j].vaddr);
  }

  /** Of the first n headers, none after i starts where i ends. */
  predicate Open(ps: seq<Prog>, n: nat, i: int)
    requires 0 <= i < n <= |ps|
  {
    forall j :: i < j < n ==> !Touch(ps[i], ps[j])
  }

  /** Header i is in segment s, which goes on with the later header that starts where it ends, if there is one. */
  predicate InSegment(s: Segment, ps: seq<Prog>, n: nat, i: int)
    requires 0 <= i < n <= |ps|
  {
    && s.low <= ps[i].vaddr && End(ps[i]) <= s.high
    && (forall j :: i < j < n && Touch(ps[i], ps[j]) ==> End(ps[j]) <= s.high)
    && (Open(ps, n, i) ==> s.high == End(ps[i]))
  }

  predicate Held(segs: seq<Segment>, ps: seq<Prog>, n: nat, i: int)
    requires 0 <= i < n <= |ps|
  {
    exists k :: 0 <= k < |segs| && InSegment(segs[k], ps, n, i)
  }

  predicate AllHeld(segs: seq<Segment>, ps: seq<Prog>, n: nat)
    requires n <= |ps|
  {
    forall i {:trigger Held(segs, ps, n, i)} :: 0 <= i < n && Code(ps[i]) ==> Held(segs, ps, n, i)
  }

  predicate EndsAHeader(ps: seq<Prog>, n: nat, a: int)
    requires n <= |ps|
  {
    exists i :: 0 <= i < n && Code(ps[i]) && End(ps[i]) == a
  }

  predicate AllEnd(segs: seq<Segment>, ps: seq<Prog>, n: nat)
    requires n <= |ps|
  {
    forall k :: 0 <= k < |segs| ==> segs[k].low < segs[k].high && EndsAHeader(ps, n, segs[k].high)
  }

  /** No header before j ends where j starts. */
  predicate Starts(ps: seq<Prog>, j: nat)
    requires j < |ps|
  {
    Code(ps[j]) && forall i :: 0 <= i < j ==> !Touch(ps[i], ps[j])
  }

  /** Those of the first n headers, the last first. */
  function Starters(ps: seq<Prog>, n: nat): (r: seq<nat>)
    requires n <= |ps|
  {
    if n == 0 then [] else if Starts(ps, n - 1) then [n - 1] + Starters(ps, n - 1) else Starters(ps, n - 1)
  }

  lemma {:induction false} StartersAre(ps: seq<Prog>, n: nat)
    requires n <= |ps|
    ensures forall j: nat :: j in Starters(ps, n) <==> j < n && Starts(ps, j)
    ensures forall k, m :: 0 <= k < m < |Starters(ps, n)| ==> Starters(ps, n)[k] > Starters(ps, n)[m]
  {
    if n > 0 {
      StartersAre(ps, n - 1);
      var t := Starters(ps, n - 1);
      assert forall k :: 0 <= k < |t| ==> t[k] in t;
    }
  }

  /** The segments start where headers js do. */
  predicate StartAt(segs: seq<Segment>, ps: seq<Prog>, js: seq<nat>) {
    |segs| == |js| && forall k :: 0 <= k < |segs| ==> js[k] < |ps| && segs[k].low == ps[js[k]].vaddr
  }

  /** The segments of the first n headers, as far as touching headers go. */
  predicate Joined(segs: seq<Segment>, ps: seq<Prog>, n: nat)
    requires n <= |ps|
  {
    StartAt(segs, ps, Starters(ps, n)) && AllEnd(segs, ps, n) && AllHeld(segs, ps, n)
  }

  /** A segment that ends where header n starts is that of the header that ends there. */
  lemma EndsThere(s: Segment, ps: seq<Prog>, n: nat, i: nat)
    requires Plain(ps) && i < n < |ps| && Touch(ps[i], ps[n]) && InSegment(s, ps, n, i)
    ensures s.high == ps[n].vaddr
  {
    forall j | i < j < n ensures !Touch(ps[i], ps[j]) {
      if Touch(ps[i], ps[j]) { TouchOnce(ps, j, n); }
    }
  }

  /** One segment ends at an address. */
  lemma OneEnd(segs: seq<Segment>, k: nat, m: nat)
    requires Disjoint(segs) && k < |segs| && m < |segs| && segs[k].high == segs[m].high
    requires segs[k].low < segs[k].high && segs[m].low < segs[m].high
    ensures k == m
  {
    assert In(segs[k], segs[k].high - 1) && In(segs[m], segs[k].high - 1);
  }

  lemma InSame(s: Segment, ps: seq<Prog>, n: nat, i: nat, n1: nat)
    requires i < n < |ps| && !Touch(ps[i], ps[n]) && InSegment(s, ps, n, i) && n1 == n + 1
    ensures InSegment(s, ps, n1, i)
  {
    if Open(ps, n1, i) { assert Open(ps, n, i); }
  }

  /** A segment that header n extends holds the headers that it held. */
  lemma InRaised(s: Segment, ps: seq<Prog>, n: nat, i: nat, n1: nat)
    requires i < n < |ps| && Code(ps[i]) && Code(ps[n]) && InSegment(s, ps, n, i) && n1 == n + 1
    requires s.high == ps[n].vaddr
    ensures InSegment(s.(high := End(ps[n])), ps, n1, i)
  {
    assert Open(ps, n1, i) ==> Open(ps, n, i) && !Touch(ps[i], ps[n]);
  }

  lemma HeldExtended(segs: seq<Segment>, ps: seq<Prog>, n: nat, i: nat, m: nat, t: seq<Segment>, n1: nat)
    requires Plain(ps) && i < n < |ps| && Code(ps[i]) && Code(ps[n]) && Disjoint(segs) && AllEnd(segs, ps, n)
    requires m < |segs| && segs[m].high == ps[n].vaddr && t == segs[m := segs[m].(high := End(ps[n]))]
    requires Held(segs, ps, n, i) && n1 == n + 1
    ensures Held(t, ps, n1, i)
  {
    var k :| 0 <= k < |segs| && InSegment(segs[k], ps, n, i);
    if k == m {
      InRaised(segs[k], ps, n, i, n1);
    } else {
      if Touch(ps[i], ps[n]) {
        EndsThere(segs[k], ps, n, i);
        OneEnd(segs, k, m);
      }
      InSame(segs[k], ps, n, i, n1);
    }
    assert InSegment(t[k], ps, n1, i);
  }

  lemma EndsMore(segs: seq<Segment>, ps: seq<Prog>, n: nat, n1: nat)
    requires n < |ps| && AllEnd(segs, ps, n) && n1 == n + 1
    ensures AllEnd(segs, ps, n1)
  {}

  lemma SelfHeld(segs: seq<Segment>, ps: seq<Prog>, n: nat, k: nat, n1: nat)
    requires n < |ps| && k < |segs| && segs[k].low <= ps[n].vaddr && segs[k].high == End(ps[n]) && n1 == n + 1
    ensures Held(segs, ps, n1, n)
  {
    assert InSegment(segs[k], ps, n1, n);
  }

  lemma EndsExtended(segs: seq<Segment>, ps: seq<Prog>, n: nat, m: nat, t: seq<Segment>, n1: nat)
    requires n < |ps| && Code(ps[n]) && AllEnd(segs, ps, n) && n1 == n + 1
    requires m < |segs| && segs[m].high == ps[n].vaddr && t == segs[m := segs[m].(high := End(ps[n]))]
    ensures AllEnd(t, ps, n1) && !Starts(ps, n)
  {
    assert EndsAHeader(ps, n, segs[m].high);
    var h :| 0 <= h < n && Code(ps[h]) && End(ps[h]) == segs[m].high;
    assert Touch(ps[h], ps[n]);
    EndsMore(segs, ps, n, n1);
    assert EndsAHeader(ps, n1, End(ps[n]));
  }

  lemma StartExtended(segs: seq<Segment>, ps: seq<Prog>, n: nat, m: nat, e: nat)
    requires n < |ps| && !Starts(ps, n) && m < |segs| && StartAt(segs, ps, Starters(ps, n))
    ensures StartAt(segs[m := segs[m].(high := e)], ps, Starters(ps, n + 1))
  {}

  lemma OneExtended(segs: seq<Segment>, ps: seq<Prog>, n: nat, i: nat, m: nat, t: seq<Segment>, n1: nat)
    requires Plain(ps) && i <= n < |ps| && Code(ps[n]) && Disjoint(segs) && n1 == n + 1
    requires AllEnd(segs, ps, n) && AllHeld(segs, ps, n)
    requires m < |segs| && segs[m].high == ps[n].vaddr && t == segs[m := segs[m].(high := End(ps[n]))]
    ensures Code(ps[i]) ==> Held(t, ps, n1, i)
  {
    if i == n {
      SelfHeld(t, ps, n, m, n1);
    } else if Code(ps[i]) {
      HeldExtended(segs, ps, n, i, m, t, n1);
    }
  }

  lemma AllExtended(segs: seq<Segment>, ps: seq<Prog>, n: nat, m: nat, t: seq<Segment>, n1: nat)
    requires Plain(ps) && n < |ps| && Code(ps[n]) && Disjoint(segs) && n1 == n + 1
    requires AllEnd(segs, ps, n) && AllHeld(segs, ps, n)
    requires m < |segs| && segs[m].high == ps[n].vaddr && t == segs[m := segs[m].(high := End(ps[n]))]
    ensures AllHeld(t, ps, n1)
  {
    forall i: nat | i < n1 ensures Code(ps[i]) ==> Held(t, ps, n1, i) {
      OneExtended(segs, ps, n, i, m, t, n1);
    }
  }

  /** A header that extends segment m. */
  lemma JoinExtended(segs: seq<Segment>, ps: seq<Prog>, n: nat, m: nat, t: seq<Segment>, n1: nat)
    requires Plain(ps) && n < |ps| && Code(ps[n]) && Disjoint(segs) && Joined(segs, ps, n) && n1 == n + 1
    requires m < |segs| && segs[m].high == ps[n].vaddr && t == segs[m := segs[m].(high := End(ps[n]))]
    ensures Joined(t, ps, n1)
  {
    EndsExtended(segs, ps, n, m, t, n1);
    StartExtended(segs, ps, n, m, End(ps[n]));
    AllExtended(segs, ps, n, m, t, n1);
  }

  lemma HeldPrepended(segs: seq<Segment>, ps: seq<Prog>, n: nat, i: nat, s: Segment, n1: nat)
    requires Plain(ps) && i < n < |ps| && Held(segs, ps, n, i) && n1 == n + 1
    requires forall m :: 0 <= m < |segs| ==> segs[m].high != ps[n].vaddr
    ensures Held([s] + segs, ps, n1, i) && !Touch(ps[i], ps[n])
  {
    var k :| 0 <= k < |segs| && InSegment(segs[k], ps, n, i);
    if Touch(ps[i], ps[n]) { EndsThere(segs[k], ps, n, i); }
    InSame(segs[k], ps, n, i, n1);
    assert InSegment(([s] + segs)[k + 1], ps, n1, i);
  }

  lemma EndsPrepended(segs: seq<Segment>, ps: seq<Prog>, n: nat, s: Segment, n1: nat)
    requires n < |ps| && AllEnd(segs, ps, n) && n1 == n + 1
    requires Code(ps[n]) && s.low < s.high == End(ps[n])
    ensures AllEnd([s] + segs, ps, n1)
  {
    EndsMore(segs, ps, n, n1);
    var t := [s] + segs;
    assert EndsAHeader(ps, n1, s.high);
    forall k | 0 <= k < |t| ensures t[k].low < t[k].high && EndsAHeader(ps, n1, t[k].high) {
      if k > 0 { assert t[k] == segs[k - 1]; }
    }
  }

  lemma StartPrepended(segs: seq<Segment>, ps: seq<Prog>, n: nat, s: Segment)
    requires n < |ps| && Starts(ps, n) && StartAt(segs, ps, Starters(ps, n)) && s.low == ps[n].vaddr
    ensures StartAt([s] + segs, ps, Starters(ps, n + 1))
  {
    var js, t := [n] + Starters(ps, n), [s] + segs;
    forall k | 0 <= k < |t| ensures js[k] < |ps| && t[k].low == ps[js[k]].vaddr {
      if k > 0 { assert t[k] == segs[k - 1] && js[k] == Starters(ps, n)[k - 1]; }
    }
  }

  lemma AllPrepended(segs: seq<Segment>, ps: seq<Prog>, n: nat, s: Segment, n1: nat)
    requires Plain(ps) && n < |ps| && Code(ps[n]) && AllHeld(segs, ps, n) && n1 == n + 1
    requires forall m :: 0 <= m < |segs| ==> segs[m].high != ps[n].vaddr
    requires s.low == ps[n].vaddr && s.high == End(ps[n])
    ensures AllHeld([s] + segs, ps, n1) && Starts(ps, n)
  {
    forall i | 0 <= i < n ensures Code(ps[i]) ==> Held([s] + segs, ps, n1, i) && !Touch(ps[i], ps[n]) {
      if Code(ps[i]) { HeldPrepended(segs, ps, n, i, s, n1); }
    }
    SelfHeld([s] + segs, ps, n, 0, n1);
  }

  /** A header that makes a new segment. */
  lemma JoinPrepended(segs: seq<Segment>, ps: seq<Prog>, n: nat, s: Segment, n1: nat)
    requires Plain(ps) && n < |ps| && Code(ps[n]) && Joined(segs, ps, n) && n1 == n + 1
    requires forall m :: 0 <= m < |segs| ==> segs[m].high != ps[n].vaddr
    requires s.low == ps[n].vaddr && s.high == End(ps[n])
    ensures Joined([s] + segs, ps, n1)
  {
    EndsPrepended(segs, ps, n, s, n1);
    AllPrepended(segs, ps, n, s, n1);
    StartPrepended(segs, ps, n, s);
  }

  /** A header that does not count. */
  lemma JoinSkipped(segs: seq<Segment>, ps: seq<Prog>, n: nat, n1: nat)
    requires n < |ps| && !Code(ps[n]) && Joined(segs, ps, n) && n1 == n + 1
    ensures Joined(segs, ps, n1)
  {
    EndsMore(segs, ps, n, n1);
    HeldSkipped(segs, ps, n, n1);
  }

  lemma HeldSkipped(segs: seq<Segment>, ps: seq<Prog>, n: nat, n1: nat)
    requires n < |ps| && !Code(ps[n]) && AllHeld(segs, ps, n) && n1 == n + 1
    ensures AllHeld(segs, ps, n1)
  {
    forall i | 0 <= i < n1 && Code(ps[i]) ensures Held(segs, ps, n1, i) {
      assert Held(segs, ps, n, i);
      var k :| 0 <= k < |segs| && InSegment(segs[k], ps, n, i);
      InSame(segs[k], ps, n, i, n1);
    }
  }

  /** Two headers that touch are in one segment exactly when the one that ends there comes first. */
  ghost predicate TouchingJoined(segs: seq<Segment>, ps: seq<Prog>) {
    forall i, j :: 0 <= i < |ps| && 0 <= j < |ps| && Touch(ps[i], ps[j]) ==>
      (SameSegment(segs, ps[i].vaddr, ps[j].vaddr) <==> i < j)
  }

  predicate SameSegment(segs: seq<Segment>, a: int, b: int) { SegOf(segs, a) == SegOf(segs, b) >= 0 }

  lemma LaterTogether(segs: seq<Segment>, ps: seq<Prog>, i: nat, j: nat)
    requires Plain(ps) && Disjoint(segs) && AllHeld(segs, ps, |ps|)
    requires i < j < |ps| && Touch(ps[i], ps[j])
    ensures SameSegment(segs, ps[i].vaddr, ps[j].vaddr)
  {
    assert Held(segs, ps, |ps|, i);
    var k :| 0 <= k < |segs| && InSegment(segs[k], ps, |ps|, i);
    SegIs(segs, k, ps[i].vaddr);
    SegIs(segs, k, ps[j].vaddr);
  }

  lemma EarlierApart(segs: seq<Segment>, ps: seq<Prog>, i: nat, j: nat)
    requires Plain(ps) && Disjoint(segs) && StartAt(segs, ps, Starters(ps, |ps|)) && AllEnd(segs, ps, |ps|)
    requires j <= i < |ps| && Touch(ps[i], ps[j])
    ensures !SameSegment(segs, ps[i].vaddr, ps[j].vaddr)
  {
    forall h | 0 <= h < j ensures !Touch(ps[h], ps[j]) {
      if Touch(ps[h], ps[j]) { TouchOnce(ps, h, i); }
    }
    StartersAre(ps, |ps|);
    assert Starts(ps, j);
    var k :| 0 <= k < |segs| && Starters(ps, |ps|)[k] == j;
    assert StartAt(segs, ps, Starters(ps, |ps|));
    SegIs(segs, k, ps[j].vaddr);
  }

  lemma JoinedTogether(segs: seq<Segment>, ps: seq<Prog>)
    requires Plain(ps) && Disjoint(segs) && Joined(segs, ps, |ps|)
    ensures TouchingJoined(segs, ps)
  {
    forall i, j | 0 <= i < |ps| && 0 <= j < |ps| && Touch(ps[i], ps[j])
      ensures SameSegment(segs, ps[i].vaddr, ps[j].vaddr) <==> i < j
    {
      if i < j { LaterTogether(segs, ps, i, j); } else { EarlierApart(segs, ps, i, j); }
    }
  }

  /** The segments made from the first n headers. */
  ghost predicate Made(segs: seq<Segment>, ps: seq<Prog>, n: nat)
    requires n <= |ps|
  {
    Ranges(segs, ps, n) && (Plain(ps) ==> Joined(segs, ps, n))
  }

  lemma MadeExtended(segs: seq<Segment>, ps: seq<Prog>, n: nat, k: nat, t: seq<Segment>, n1: nat)
    requires n < |ps| && Code(ps[n]) && Made(segs, ps, n) && n1 == n + 1
    requires k < |segs| && segs[k].high == ps[n].vaddr && t == segs[k := segs[k].(high := End(ps[n]))]
    ensures Made(t, ps, n1)
  {
    RangesExtended(segs, ps, n, k, t, n1);
    if Plain(ps) { JoinExtended(segs, ps, n, k, t, n1); }
  }

  lemma MadePrepended(segs: seq<Segment>, ps: seq<Prog>, n: nat, s: Segment, n1: nat)
    requires n < |ps| && Code(ps[n]) && Made(segs, ps, n) && n1 == n + 1
    requires forall m :: 0 <= m < |segs| ==> segs[m].high != ps[n].vaddr
    requires s.low == ps[n].vaddr && s.high == End(ps[n])
    ensures Made([s] + segs, ps, n1)
  {
    RangesPrepended(segs, ps, n, s, n1);
    if Plain(ps) { JoinPrepended(segs, ps, n, s, n1); }
  }

  lemma MadeSkipped(segs: seq<Segment>, ps: seq<Prog>, n: nat, n1: nat)
    requires n < |ps| && !Code(ps[n]) && Made(segs, ps, n) && n1 == n + 1
    ensures Made(segs, ps, n1)
  {
    ProgStep(ps, n);
    if Plain(ps) { JoinSkipped(segs, ps, n, n1); }
  }

  lemma GridExtended(segs: seq<Segment>, k: nat, e: nat, step: int, off: int)
    requires step > 0 && k < |segs| && OnGridAll(segs, step, off) && OnGrid(e, step, off)
    ensures OnGridAll(segs[k := segs[k].(high := e)], step, off)
  {}

  lemma GridPrepended(s: Segment, segs: seq<Segment>, step: int, off: int)
    requires step > 0 && OnGridAll(segs, step, off) && OnGrid(s.low, step, off) && OnGrid(s.high, step, off)
    ensures OnGridAll([s] + segs, step, off)
  {
    assert forall i :: 0 < i <= |segs| ==> ([s] + segs)[i] == segs[i - 1];
  }

  /** One program header: it extends the first segment that ends where it starts, or makes a new one. */
  method AddProg(segs: seq<Segment>, ps: seq<Prog>, n: nat, step: int, ghost off: int) returns (t: seq<Segment>)
    requires step > 0 && n < |ps| && Made(segs, ps, n) && ps[n].load && ps[n].exec
    ensures Made(t, ps, n + 1)
    ensures OnGridAll(segs, step, off) && ProgsOnGrid(ps, step, off) ==> OnGridAll(t, step, off)
  {
    var p := ps[n];
    var k := 0;
    while k < |segs| && segs[k].high != p.vaddr
      invariant 0 <= k <= |segs| && forall m :: 0 <= m < k ==> segs[m].high != p.vaddr
    {
      k := k + 1;
    }
    if k < |segs| {
      t := segs[k := segs[k].(high := p.vaddr + p.memsz)];
      MadeExtended(segs, ps, n, k, t, n + 1);
      if OnGridAll(segs, step, off) && ProgsOnGrid(ps, step, off) { GridExtended(segs, k, End(p), step, off); }
    } else {
      var s := Segment(p.vaddr, p.vaddr + p.memsz, []);
      t := [s] + segs;
      MadePrepended(segs, ps, n, s, n + 1);
      if OnGridAll(segs, step, off) && ProgsOnGrid(ps, step, off) { GridPrepended(s, segs, step, off); }
    }
  }

  lemma SameRanges(segs: seq<Segment>, t: seq<Segment>)
    requires |segs| == |t| && forall i :: 0 <= i < |t| ==> t[i].low == segs[i].low && t[i].high == segs[i].high
    ensures Disjoint(segs) ==> Disjoint(t)
    ensures forall a :: SomeSeg(segs, a) <==> SomeSeg(t, a)
  {
    assert forall i, a :: 0 <= i < |t| ==> (In(t[i], a) <==> In(segs[i], a));
  }

  lemma SameSegOf(segs: seq<Segment>, t: seq<Segment>, a: int)
    requires |segs| == |t| && forall i :: 0 <= i < |t| ==> t[i].low == segs[i].low && t[i].high == segs[i].high
    ensures SegOf(segs, a) == SegOf(t, a)
  {
    assert forall i :: 0 <= i < |t| ==> (In(t[i], a) <==> In(segs[i], a));
  }

  lemma SlotsJoined(segs: seq<Segment>, t: seq<Segment>, ps: seq<Prog>)
    requires TouchingJoined(segs, ps)
    requires |segs| == |t| && forall i :: 0 <= i < |t| ==> t[i].low == segs[i].low && t[i].high == segs[i].high
    ensures TouchingJoined(t, ps)
  {
    forall i, j | 0 <= i < |ps| && 0 <= j < |ps| && Touch(ps[i], ps[j])
      ensures SameSegment(t, ps[i].vaddr, ps[j].vaddr) <==> i < j
    {
      SameSegOf(segs, t, ps[i].vaddr);
      SameSegOf(segs, t, ps[j].vaddr);
    }
  }

  /** What allocating the slots keeps, and what it adds. */
  lemma SlotsMade(ranges: seq<Segment>, segs: seq<Segment>, ps: seq<Prog>)
    requires Made(ranges, ps, |ps|) && |segs| == |ranges|
    requires forall i :: 0 <= i < |segs| ==> segs[i].low == ranges[i].low && segs[i].high == ranges[i].high
    ensures SameAddresses(segs, ps, |ps|) && (ProgsDisjoint(ps) ==> Disjoint(segs))
    ensures Plain(ps) ==> TouchingJoined(segs, ps) && StartAt(segs, ps, Starters(ps, |ps|))
  {
    SameRanges(ranges, segs);
    if Plain(ps) {
      JoinedTogether(ranges, ps);
      SlotsJoined(ranges, segs, ps);
    }
  }

  lemma SlotsShaped(ranges: seq<Segment>, segs: seq<Segment>, step: int, off: int)
    requires step > 0 && |segs| == |ranges| && OnGridAll(ranges, step, off)
    requires forall i :: 0 <= i < |segs| ==> ranges[i].low <= ranges[i].high
    requires forall i :: 0 <= i < |segs| ==>
      segs[i] == Segment(ranges[i].low, ranges[i].high, Blanks(Quot(ranges[i].high - ranges[i].low, step)))
    ensures AllShaped(segs, step, off)
  {
    forall i | 0 <= i < |segs| ensures Shaped(segs[i], step, off) {
      QuotPositive(ranges[i].high - ranges[i].low, step);
    }
  }

  /** Makes the segments of the loadable and executable program headers. */
  method InitSegments(ps: seq<Prog>, step: int, ghost off: int) returns (segs: seq<Segment>)
    requires step > 0
    ensures SameAddresses(segs, ps, |ps|)
    ensures ProgsDisjoint(ps) ==> Disjoint(segs)
    ensures ProgsOnGrid(ps, step, off) ==> AllShaped(segs, step, off)
    ensures Plain(ps) ==> TouchingJoined(segs, ps) && StartAt(segs, ps, Starters(ps, |ps|))
    ensures forall i, k :: 0 <= i < |segs| && 0 <= k < |segs[i].locs| ==> segs[i].locs[k] == None
  {
    var ranges := Merged(ps, step, off);
    segs := AllocateSlots(ranges, step);
    SlotsMade(ranges, segs, ps);
    if ProgsOnGrid(ps, step, off) { SlotsShaped(ranges, segs, step, off); }
  }

  /** The loop over the headers. */
  method Merged(ps: seq<Prog>, step: int, ghost off: int) returns (ranges: seq<Segment>)
    requires step > 0
    ensures Made(ranges, ps, |ps|)
    ensures ProgsOnGrid(ps, step, off) ==> OnGridAll(ranges, step, off)
  {
    ranges := [];
    var n := 0;
    while n < |ps|
      invariant 0 <= n <= |ps| && Made(ranges, ps, n)
      invariant ProgsOnGrid(ps, step, off) ==> OnGridAll(ranges, step, off)
    {
      if ps[n].load && ps[n].exec {
        ranges := AddProg(ranges, ps, n, step, off);
      } else {
        MadeSkipped(ranges, ps, n, n + 1);
      }
      n := n + 1;
    }
  }

  /** n slots with no line. */
  function Blanks(n: int): (s: seq<Option<Ref>>)
    ensures |s| == if n < 0 then 0 else n
    ensures forall k :: 0 <= k < |s| ==> s[k] == None
  {
    seq(if n < 0 then 0 else n, _ => None)
  }

  lemma QuotPositive(x: nat, step: int)
    requires step > 0
    ensures Quot(x, step) >= 0
  {
    QuotBounds(x, step);
    if Quot(x, step) < 0 { TimesLess(Quot(x, step), 0, step); }
  }

  method AllocateSlots(segs: seq<Segment>, step: int) returns (t: seq<Segment>)
    requires step > 0 && forall i :: 0 <= i < |segs| ==> segs[i].low <= segs[i].high
    ensures |t| == |segs|
    ensures forall i :: 0 <= i < |t| ==>
      t[i] == Segment(segs[i].low, segs[i].high, Blanks(Quot(segs[i].high - segs[i].low, step)))
  {
    t := segs;
    var i := 0;
    while i < |t|
      invariant 0 <= i <= |t| == |segs|
      invariant forall j :: i <= j < |t| ==> t[j] == segs[j]
      invariant forall j :: 0 <= j < i ==>
        t[j] == Segment(segs[j].low, segs[j].high, Blanks(Quot(segs[j].high - segs[j].low, step)))
    {
      QuotIs(t[i].high - t[i].low, step);
      t := t[i := t[i].(locs := Blanks((t[i].high - t[i].low) / step))];
      i := i + 1;
    }
  }
}
