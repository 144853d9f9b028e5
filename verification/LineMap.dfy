/** The line map: a table of descriptors for each source file, and for each slot of code the
    descriptor of its line. */
module LineMap {
  import opened Options
  import opened LineSegs

  /** A row of the line table; line 0 ends a sequence. */
  datatype Row = Row(unit: int, line: int, addr: int, flags: int, isa: int)

  /** A line descriptor; seg is -1 for no segment. */
  datatype Descr = Descr(used: bool, seg: int, low: int, high: int, flags: int, isa: int)

  const UNUSED := Descr(false, -1, 0, 0, 0, 0)

  /** A source file: its lowest and highest lines, and a descriptor for each line and one more. */
  datatype Unit = Unit(low: int, high: int, lines: seq<Descr>)

  datatype Map = Map(step: int, units: seq<Unit>, segs: seq<Segment>)

  /** What a map is built from. All addresses are on the same grid. */
  datatype Table = Table(rows: seq<Row>, units: seq<Unit>, segs: seq<Segment>, step: int, off: int)

  predicate RowOk(units: seq<Unit>, r: Row) {
    && 0 <= r.unit < |units|
    && (r.line != 0 ==> units[r.unit].low <= r.line <= units[r.unit].high)
  }

  predicate UnitOk(u: Unit) {
    u.low <= u.high && |u.lines| == u.high - u.low + 2 && forall n :: 0 <= n < |u.lines| ==> u.lines[n] == UNUSED
  }

  ghost predicate Ready(x: Table) {
    && x.step > 0 && AllShaped(x.segs, x.step, x.off) && Disjoint(x.segs)
    && (forall s, k :: 0 <= s < |x.segs| && 0 <= k < |x.segs[s].locs| ==> x.segs[s].locs[k] == None)
    && (forall i :: 0 <= i < |x.rows| ==> RowOk(x.units, x.rows[i]) && OnGrid(x.rows[i].addr, x.step, x.off))
    && (forall u :: 0 <= u < |x.units| ==> UnitOk(x.units[u]))
  }

  // ---- what the map should hold ----

  /** The end of row i: the next row's address, or one step if the next row does not advance. */
  function Top(x: Table, i: nat): int
    requires i + 1 < |x.rows|
  {
    if x.rows[i + 1].addr <= x.rows[i].addr then x.rows[i].addr + x.step else x.rows[i + 1].addr
  }

  /** Row i is about address a. The last row of all covers nothing. */
  predicate Covers(x: Table, i: nat, a: int) {
    i + 1 < |x.rows| && x.rows[i].line != 0 && x.rows[i].addr <= a < Top(x, i)
  }

  /** The descriptor of a row's line. */
  function RefOf(x: Table, i: nat): Ref
    requires i < |x.rows|
  {
    var r := x.rows[i];
    Ref(r.unit, if 0 <= r.unit < |x.units| then r.line - x.units[r.unit].low else r.line)
  }

  /** The descriptor of the last of the first n rows that covers an address. */
  function Last(x: Table, n: nat, a: int): Option<Ref>
    requires n <= |x.rows|
  {
    if n == 0 then None else if Covers(x, n - 1, a) then Some(RefOf(x, n - 1)) else Last(x, n - 1, a)
  }

  lemma {:induction false} LastCovering(x: Table, n: nat, a: int)
    requires n <= |x.rows|
    ensures Last(x, n, a).None? <==> forall i :: 0 <= i < n ==> !Covers(x, i, a)
    ensures Last(x, n, a).Some? ==>
      exists i :: 0 <= i < n && Covers(x, i, a) && Last(x, n, a).value == RefOf(x, i)
                  && forall j :: i < j < n ==> !Covers(x, j, a)
  {
    if n > 0 { LastCovering(x, n - 1, a); }
  }

  /** Row i has code in some segment. */
  ghost predicate Records(x: Table, i: nat)
    requires x.step > 0
  {
    exists a :: Covers(x, i, a) && OnGrid(a, x.step, x.off) && SegOf(x.segs, a) >= 0
  }

  /** Row j is about the line of descriptor r and has code. */
  ghost predicate Hit(x: Table, r: Ref, j: int)
    requires x.step > 0
  {
    0 <= j && j + 1 < |x.rows| && Records(x, j) && RefOf(x, j) == r
  }

  /** The first row of a line gives its segment, flags and ISA. */
  ghost predicate FirstHit(x: Table, r: Ref, j: int, d: Descr)
    requires x.step > 0
  {
    && Hit(x, r, j) && (forall k :: 0 <= k < j ==> !Hit(x, r, k))
    && d.seg == SegOf(x.segs, Top(x, j) - x.step) && d.flags == x.rows[j].flags && d.isa == x.rows[j].isa
  }

  ghost predicate LowHit(x: Table, r: Ref, j: int, d: Descr)
    requires x.step > 0
  {
    Hit(x, r, j) && d.low == x.rows[j].addr
  }

  ghost predicate HighHit(x: Table, r: Ref, j: int, d: Descr)
    requires x.step > 0
  {
    Hit(x, r, j) && d.high == Top(x, j)
  }

  ghost predicate HasLow(x: Table, n: nat, r: Ref, d: Descr)
    requires x.step > 0
  {
    exists j :: 0 <= j < n && LowHit(x, r, j, d)
  }

  ghost predicate HasHigh(x: Table, n: nat, r: Ref, d: Descr)
    requires x.step > 0
  {
    exists j :: 0 <= j < n && HighHit(x, r, j, d)
  }

  ghost predicate HasFirst(x: Table, n: nat, r: Ref, d: Descr)
    requires x.step > 0
  {
    exists j :: 0 <= j < n && FirstHit(x, r, j, d)
  }

  /** The first n rows of a line lie within the descriptor's addresses. */
  ghost predicate Bounds(x: Table, n: nat, r: Ref, d: Descr)
    requires x.step > 0
  {
    forall j :: 0 <= j < n && Hit(x, r, j) ==> d.low <= x.rows[j].addr && Top(x, j) <= d.high
  }

  ghost predicate NoHit(x: Table, n: nat, r: Ref)
    requires x.step > 0
  {
    forall j :: 0 <= j < n ==> !Hit(x, r, j)
  }

  /** Descriptor r after the first n rows: the least start and the greatest end of its rows. */
  ghost predicate DescrOk(x: Table, n: nat, r: Ref, d: Descr)
    requires x.step > 0
  {
    if d.used then
      && Bounds(x, n, r, d)
      && HasLow(x, n, r, d) && HasHigh(x, n, r, d) && HasFirst(x, n, r, d)
    else
      d.low == 0 && NoHit(x, n, r)
  }

  ghost predicate SameRange(segs: seq<Segment>, t: seq<Segment>) {
    |t| == |segs| && forall i :: 0 <= i < |t| ==>
      t[i].low == segs[i].low && t[i].high == segs[i].high && |t[i].locs| == |segs[i].locs|
  }

  ghost predicate SlotsOk(x: Table, n: nat, segs: seq<Segment>)
    requires n <= |x.rows|
  {
    && SameRange(x.segs, segs)
    && forall s, k :: 0 <= s < |segs| && 0 <= k < |segs[s].locs| ==>
         segs[s].locs[k] == Last(x, n, SlotAddr(x.segs[s], x.step, k))
  }

  ghost predicate UnitsOk(x: Table, n: nat, units: seq<Unit>)
    requires x.step > 0 && n <= |x.rows|
  {
    && |units| == |x.units|
    && (forall u :: 0 <= u < |units| ==>
          units[u].low == x.units[u].low && units[u].high == x.units[u].high && |units[u].lines| == |x.units[u].lines|)
    && (forall u, k :: 0 <= u < |units| && 0 <= k < |units[u].lines| - 1 ==>
          DescrOk(x, n, Ref(u, k), units[u].lines[k]))
  }

  ghost predicate MapOk(x: Table, n: nat, m: Map)
    requires x.step > 0 && n <= |x.rows|
  {
    m.step == x.step && SlotsOk(x, n, m.segs) && UnitsOk(x, n, m.units)
  }

  // ---- painting the slots of a row ----

  lemma SegOfSame(segs: seq<Segment>, t: seq<Segment>, a: int)
    requires SameRange(segs, t)
    ensures SegOf(t, a) == SegOf(segs, a)
  {
    assert forall i :: 0 <= i < |t| ==> (In(t[i], a) <==> In(segs[i], a));
  }

  lemma GridStep(a: int, b: int, step: int, off: int)
    requires step > 0 && OnGrid(a, step, off) && OnGrid(b, step, off) && a < b
    ensures a + step <= b && OnGrid(a + step, step, off)
  {
    if b < a + step { GridGap(a, b, step, off); }
    GridNext(a, step, off);
  }

  /** The slots whose address is in from..to are now r; the others are as before. */
  ghost predicate Painted(x: Table, segs: seq<Segment>, t: seq<Segment>, from: int, to: int, r: Ref) {
    && SameRange(x.segs, segs) && SameRange(x.segs, t)
    && forall s, k :: 0 <= s < |t| && 0 <= k < |t[s].locs| ==>
         t[s].locs[k] == if from <= SlotAddr(x.segs[s], x.step, k) < to then Some(r) else segs[s].locs[k]
  }

  /** The slot of address a, which is the start of a slot of segment s, and no other starts there. */
  lemma OneSlot(x: Table, a: int, s: int, i: int, k: int)
    requires Ready(x) && OnGrid(a, x.step, x.off) && s == SegOf(x.segs, a)
    requires 0 <= i < |x.segs| && 0 <= k < |x.segs[i].locs|
    ensures s >= 0 ==> 0 <= SlotAt(x.segs[s], x.step, a) < |x.segs[s].locs|
    ensures a <= SlotAddr(x.segs[i], x.step, k) < a + x.step <==> i == s && k == SlotAt(x.segs[i], x.step, a)
  {
    var b := SlotAddr(x.segs[i], x.step, k);
    SlotStarts(x.segs[i], x.step, x.off, k);
    if s >= 0 {
      SlotInside(x.segs[s], x.step, x.off, a);
      GridSlot(x.segs[s], x.step, x.off, a);
    }
    if a <= b < a + x.step {
      GridGap(a, b, x.step, x.off);
      SegIs(x.segs, i, a);
    }
  }

  lemma PaintOne(x: Table, segs: seq<Segment>, t: seq<Segment>, from: int, a: int, r: Ref, t': seq<Segment>)
    requires Ready(x) && OnGrid(a, x.step, x.off) && from <= a && Painted(x, segs, t, from, a, r)
    requires var s := SegOf(x.segs, a);
             if s < 0 then t' == t
             else var k := SlotAt(x.segs[s], x.step, a);
                  0 <= k < |t[s].locs| && t' == t[s := t[s].(locs := t[s].locs[k := Some(r)])]
    ensures Painted(x, segs, t', from, a + x.step, r)
  {
    forall i, k | 0 <= i < |t'| && 0 <= k < |t'[i].locs|
      ensures t'[i].locs[k] == if from <= SlotAddr(x.segs[i], x.step, k) < a + x.step then Some(r) else segs[i].locs[k]
    {
      OneSlot(x, a, SegOf(x.segs, a), i, k);
    }
  }

  ghost predicate Touched(x: Table, from: int, to: int)
    requires x.step > 0
  {
    exists a :: from <= a < to && OnGrid(a, x.step, x.off) && SegOf(x.segs, a) >= 0
  }

  lemma TouchStep(x: Table, from: int, a: int)
    requires x.step > 0 && OnGrid(a, x.step, x.off) && from <= a
    ensures Touched(x, from, a + x.step) <==> Touched(x, from, a) || SegOf(x.segs, a) >= 0
  {
    if Touched(x, from, a + x.step) && SegOf(x.segs, a) < 0 {
      var b :| from <= b < a + x.step && OnGrid(b, x.step, x.off) && SegOf(x.segs, b) >= 0;
      if b >= a { GridGap(a, b, x.step, x.off); }
    }
  }

  /** The state of the painting of from..a. */
  ghost predicate Painting(x: Table, segs: seq<Segment>, t: seq<Segment>, from: int, a: int, r: Ref, found: bool, last: int)
    requires x.step > 0
  {
    && from <= a && OnGrid(a, x.step, x.off) && Painted(x, segs, t, from, a, r)
    && found == Touched(x, from, a) && (a > from ==> last == SegOf(x.segs, a - x.step))
  }

  lemma PaintNext(x: Table, segs: seq<Segment>, t: seq<Segment>, t': seq<Segment>, from: int, a: int, top: int, r: Ref, found: bool, l: int, last: int)
    requires x.step > 0 && a < top && OnGrid(top, x.step, x.off) && Painting(x, segs, t, from, a, r, found, l)
    requires Painted(x, segs, t', from, a + x.step, r) && last == SegOf(x.segs, a)
    ensures a + x.step <= top && Painting(x, segs, t', from, a + x.step, r, found || last >= 0, last)
  {
    TouchStep(x, from, a);
    GridStep(a, top, x.step, x.off);
  }

  /** Writes descriptor r in the slot of address a, if a is in a segment. */
  method PaintAt(ghost x: Table, ghost segs: seq<Segment>, t: seq<Segment>, step: int, ghost from: int, a: int, r: Ref)
    returns (t': seq<Segment>, s: int)
    requires Ready(x) && step == x.step && OnGrid(a, step, x.off) && from <= a && Painted(x, segs, t, from, a, r)
    ensures Painted(x, segs, t', from, a + step, r) && s == SegOf(x.segs, a)
  {
    SegOfSame(x.segs, t, a);
    s := FindSegment(t, a);
    t' := t;
    if s >= 0 {
      SlotInside(x.segs[s], step, x.off, a);
      SlotFormulas(t[s], step, 0, a);
      var k := (a - t[s].low) / step;
      t' := t[s := t[s].(locs := t[s].locs[k := Some(r)])];
    }
    PaintOne(x, segs, t, from, a, r, t');
  }

  lemma PaintStart(x: Table, segs: seq<Segment>, from: int, r: Ref)
    requires Ready(x) && SameRange(x.segs, segs) && OnGrid(from, x.step, x.off)
    ensures Painting(x, segs, segs, from, from, r, false, -1)
  {}

  lemma PaintEnd(x: Table, segs: seq<Segment>, t: seq<Segment>, from: int, top: int, r: Ref, found: bool, last: int)
    requires x.step > 0 && from < top && Painting(x, segs, t, from, top, r, found, last)
    ensures Painted(x, segs, t, from, top, r) && found == Touched(x, from, top) && last == SegOf(x.segs, top - x.step)
  {}

  /** Writes descriptor r in the slots of the addresses from..top; found tells whether there was one,
      and last is the segment of the last address. */
  method Paint(ghost x: Table, segs: seq<Segment>, step: int, from: int, top: int, r: Ref)
    returns (t: seq<Segment>, found: bool, last: int)
    requires Ready(x) && SameRange(x.segs, segs) && step == x.step && from < top
    requires OnGrid(from, step, x.off) && OnGrid(top, step, x.off)
    ensures Painted(x, segs, t, from, top, r)
    ensures found == Touched(x, from, top) && last == SegOf(x.segs, top - step)
  {
    t, found, last := segs, false, -1;
    PaintStart(x, segs, from, r);
    var a := from;
    while a < top
      invariant a <= top && Painting(x, segs, t, from, a, r, found, last)
      decreases top - a
    {
      ghost var t0, f0, l0 := t, found, last;
      t, last := PaintAt(x, segs, t, step, from, a, r);
      PaintNext(x, segs, t0, t, from, a, top, r, f0, l0, last);
      if last >= 0 { found := true; }
      a := a + step;
    }
    PaintEnd(x, segs, t, from, top, r, found, last);
  }

  // ---- recording the line of a row ----

  /** Row n does not concern descriptor r. */
  lemma DescrKept(x: Table, n: nat, r: Ref, d: Descr)
    requires x.step > 0 && n < |x.rows| && DescrOk(x, n, r, d) && !Hit(x, r, n)
    ensures DescrOk(x, n + 1, r, d)
  {}

  /** The descriptor once row n is recorded. */
  function Recorded(d: Descr, row: Row, top: int, seg: int): Descr {
    if !d.used then Descr(true, seg, row.addr, top, row.flags, row.isa)
    else d.(low := if row.addr < d.low then row.addr else d.low, high := if top > d.high then top else d.high)
  }

  lemma DescrFirst(x: Table, n: nat, r: Ref, d: Descr)
    requires x.step > 0 && n + 1 < |x.rows| && DescrOk(x, n, r, d) && Hit(x, r, n) && !d.used
    ensures DescrOk(x, n + 1, r, Recorded(d, x.rows[n], Top(x, n), SegOf(x.segs, Top(x, n) - x.step)))
  {
    var d' := Recorded(d, x.rows[n], Top(x, n), SegOf(x.segs, Top(x, n) - x.step));
    assert LowHit(x, r, n, d');
    assert HighHit(x, r, n, d');
    assert FirstHit(x, r, n, d');
  }

  /** A later row of the line only widens the addresses. */
  lemma DescrAgain(x: Table, n: nat, r: Ref, d: Descr, d': Descr)
    requires x.step > 0 && n + 1 < |x.rows| && DescrOk(x, n, r, d) && Hit(x, r, n) && d.used
    requires d' == Recorded(d, x.rows[n], Top(x, n), SegOf(x.segs, Top(x, n) - x.step))
    ensures HasLow(x, n + 1, r, d') && HasHigh(x, n + 1, r, d')
  {
    if x.rows[n].addr < d.low {
      assert LowHit(x, r, n, d');
    } else {
      var j :| 0 <= j < n && LowHit(x, r, j, d);
      assert LowHit(x, r, j, d');
    }
    if Top(x, n) > d.high {
      assert HighHit(x, r, n, d');
    } else {
      var k :| 0 <= k < n && HighHit(x, r, k, d);
      assert HighHit(x, r, k, d');
    }
  }

  lemma FirstKept(x: Table, n: nat, r: Ref, d: Descr, d': Descr)
    requires x.step > 0 && HasFirst(x, n, r, d) && d'.seg == d.seg && d'.flags == d.flags && d'.isa == d.isa
    ensures HasFirst(x, n + 1, r, d')
  {
    var i :| 0 <= i < n && FirstHit(x, r, i, d);
    assert FirstHit(x, r, i, d');
  }

  lemma BoundsNext(x: Table, n: nat, r: Ref, d: Descr, d': Descr)
    requires x.step > 0 && n + 1 < |x.rows| && Bounds(x, n, r, d) && d'.low <= d.low && d.high <= d'.high
    requires d'.low <= x.rows[n].addr && Top(x, n) <= d'.high
    ensures Bounds(x, n + 1, r, d')
  {}

  lemma DescrRecorded(x: Table, n: nat, r: Ref, d: Descr)
    requires x.step > 0 && n + 1 < |x.rows| && DescrOk(x, n, r, d) && Hit(x, r, n)
    ensures DescrOk(x, n + 1, r, Recorded(d, x.rows[n], Top(x, n), SegOf(x.segs, Top(x, n) - x.step)))
  {
    var d' := Recorded(d, x.rows[n], Top(x, n), SegOf(x.segs, Top(x, n) - x.step));
    if d.used {
      DescrAgain(x, n, r, d, d');
      FirstKept(x, n, r, d, d');
      BoundsNext(x, n, r, d, d');
    } else {
      DescrFirst(x, n, r, d);
    }
  }

  lemma TouchedRecords(x: Table, i: nat)
    requires x.step > 0 && i + 1 < |x.rows| && x.rows[i].line != 0
    ensures Touched(x, x.rows[i].addr, Top(x, i)) <==> Records(x, i)
  {
    if Touched(x, x.rows[i].addr, Top(x, i)) {
      var a :| x.rows[i].addr <= a < Top(x, i) && OnGrid(a, x.step, x.off) && SegOf(x.segs, a) >= 0;
      assert Covers(x, i, a);
    }
  }

  /** A row that covers nothing, or none of whose code is in a segment. */
  lemma UnitsKept(x: Table, n: nat, units: seq<Unit>)
    requires x.step > 0 && n < |x.rows| && UnitsOk(x, n, units) && !Records(x, n)
    ensures UnitsOk(x, n + 1, units)
  {
    forall u, k | 0 <= u < |units| && 0 <= k < |units[u].lines| - 1
      ensures DescrOk(x, n + 1, Ref(u, k), units[u].lines[k])
    {
      DescrKept(x, n, Ref(u, k), units[u].lines[k]);
    }
  }

  lemma UnitsRecorded(x: Table, n: nat, units: seq<Unit>, units': seq<Unit>)
    requires x.step > 0 && n + 1 < |x.rows| && UnitsOk(x, n, units) && Records(x, n)
    requires var r := RefOf(x, n);
             && 0 <= r.unit < |units| && 0 <= r.num < |units[r.unit].lines| - 1
             && units' == units[r.unit := units[r.unit].(lines := units[r.unit].lines[r.num :=
                  Recorded(units[r.unit].lines[r.num], x.rows[n], Top(x, n), SegOf(x.segs, Top(x, n) - x.step))])]
    ensures UnitsOk(x, n + 1, units')
  {
    var r := RefOf(x, n);
    forall u, k | 0 <= u < |units'| && 0 <= k < |units'[u].lines| - 1
      ensures DescrOk(x, n + 1, Ref(u, k), units'[u].lines[k])
    {
      if Ref(u, k) == r {
        DescrRecorded(x, n, r, units[u].lines[k]);
      } else {
        assert units'[u].lines[k] == units[u].lines[k];
        DescrKept(x, n, Ref(u, k), units[u].lines[k]);
      }
    }
  }

  // ---- the rows one by one ----

  /** A row that paints nothing. */
  lemma SlotsKept(x: Table, n: nat, segs: seq<Segment>)
    requires n < |x.rows| && SlotsOk(x, n, segs) && (n + 1 == |x.rows| || x.rows[n].line == 0)
    ensures SlotsOk(x, n + 1, segs)
  {}

  lemma SlotsPainted(x: Table, n: nat, segs: seq<Segment>, t: seq<Segment>)
    requires n + 1 < |x.rows| && x.rows[n].line != 0 && SlotsOk(x, n, segs)
    requires Painted(x, segs, t, x.rows[n].addr, Top(x, n), RefOf(x, n))
    ensures SlotsOk(x, n + 1, t)
  {
    forall s, k | 0 <= s < |t| && 0 <= k < |t[s].locs|
      ensures t[s].locs[k] == Last(x, n + 1, SlotAddr(x.segs[s], x.step, k))
    {
      assert segs[s].locs[k] == Last(x, n, SlotAddr(x.segs[s], x.step, k));
    }
  }

  /** The end of a sequence only moves the end of the unit's extra descriptor. */
  lemma UnitsEnded(x: Table, n: nat, units: seq<Unit>, u: int, h: int)
    requires x.step > 0 && n < |x.rows| && UnitsOk(x, n, units) && x.rows[n].line == 0
    requires 0 <= u < |units| && |units[u].lines| > 0
    ensures var k := |units[u].lines| - 1;
            UnitsOk(x, n + 1, units[u := units[u].(lines := units[u].lines[k := units[u].lines[k].(high := h)])])
  {
    UnitsKept(x, n, units);
  }

  /** One row of the table. */
  method MapRow(ghost x: Table, m: Map, rows: seq<Row>, n: nat) returns (m': Map)
    requires Ready(x) && rows == x.rows && n < |rows| && MapOk(x, n, m)
    ensures MapOk(x, n + 1, m')
  {
    var row := rows[n];
    m' := m;
    if row.line == 0 {
      var u := m.units[row.unit];
      var num := u.high - u.low + 1;
      UnitsEnded(x, n, m.units, row.unit, row.addr);
      UnitsKept(x, n, m.units);
      SlotsKept(x, n, m.segs);
      if row.addr >= u.lines[num].high {
        m' := m.(units := m.units[row.unit := u.(lines := u.lines[num := u.lines[num].(high := row.addr)])]);
      }
    } else if n + 1 < |rows| {
      m' := MapCode(x, m, rows, n);
    } else {
      UnitsKept(x, n, m.units);
      SlotsKept(x, n, m.segs);
    }
  }

  /** Records the line of a row in its unit. */
  method RecordLine(ghost x: Table, units: seq<Unit>, ghost n: nat, row: Row, top: int, seg: int) returns (units': seq<Unit>)
    requires x.step > 0 && n + 1 < |x.rows| && UnitsOk(x, n, units) && Records(x, n)
    requires row == x.rows[n] && top == Top(x, n) && seg == SegOf(x.segs, top - x.step)
    requires row.line != 0 && RowOk(x.units, row) && |x.units[row.unit].lines| == x.units[row.unit].high - x.units[row.unit].low + 2
    ensures UnitsOk(x, n + 1, units')
  {
    var u := units[row.unit];
    var num := row.line - u.low;
    var d := u.lines[num];
    if !d.used {
      d := Descr(true, seg, row.addr, top, row.flags, row.isa);
    } else {
      if row.addr < d.low { d := d.(low := row.addr); }
      if top > d.high { d := d.(high := top); }
    }
    units' := units[row.unit := u.(lines := u.lines[num := d])];
    assert d == Recorded(u.lines[num], row, top, seg);
    UnitsRecorded(x, n, units, units');
  }

  lemma RowReady(x: Table, n: nat)
    requires Ready(x) && n < |x.rows|
    ensures RowOk(x.units, x.rows[n])
    ensures var row := x.rows[n];
            && |x.units[row.unit].lines| == x.units[row.unit].high - x.units[row.unit].low + 2
            && x.units[row.unit].low <= x.units[row.unit].high
  {
    assert UnitOk(x.units[x.rows[n].unit]);
  }

  /** Records it if a slot was painted. */
  method RecordIf(ghost x: Table, units: seq<Unit>, ghost n: nat, row: Row, top: int, seg: int, found: bool)
    returns (units': seq<Unit>)
    requires Ready(x) && n + 1 < |x.rows| && UnitsOk(x, n, units) && row == x.rows[n] && row.line != 0
    requires top == Top(x, n) && seg == SegOf(x.segs, top - x.step) && found == Records(x, n)
    ensures UnitsOk(x, n + 1, units')
  {
    RowReady(x, n);
    units' := units;
    if found {
      units' := RecordLine(x, units, n, row, top, seg);
    } else {
      UnitsKept(x, n, units);
    }
  }

  /** Paints the slots of row n. */
  method PaintRow(ghost x: Table, segs: seq<Segment>, step: int, rows: seq<Row>, n: nat, r: Ref)
    returns (t: seq<Segment>, found: bool, last: int, top: int)
    requires Ready(x) && rows == x.rows && step == x.step && n + 1 < |rows| && rows[n].line != 0
    requires SlotsOk(x, n, segs) && r == RefOf(x, n)
    ensures SlotsOk(x, n + 1, t) && top == Top(x, n)
    ensures found == Records(x, n) && last == SegOf(x.segs, top - step)
  {
    var from := rows[n].addr;
    top := rows[n + 1].addr;
    if top <= from { top := from + step; }
    GridNext(from, x.step, x.off);
    t, found, last := Paint(x, segs, step, from, top, r);
    SlotsPainted(x, n, segs, t);
    TouchedRecords(x, n);
  }

  /** The units keep their lowest lines, from which a row's descriptor is found. */
  lemma RowRef(x: Table, n: nat, m: Map)
    requires Ready(x) && n < |x.rows| && MapOk(x, n, m)
    ensures var row := x.rows[n];
            0 <= row.unit < |m.units| && Ref(row.unit, row.line - m.units[row.unit].low) == RefOf(x, n)
  {
    RowReady(x, n);
  }

  /** A row about code, followed by another row. */
  method MapCode(ghost x: Table, m: Map, rows: seq<Row>, n: nat) returns (m': Map)
    requires Ready(x) && rows == x.rows && n + 1 < |rows| && rows[n].line != 0 && MapOk(x, n, m)
    ensures MapOk(x, n + 1, m')
  {
    var row := rows[n];
    RowRef(x, n, m);
    var r := Ref(row.unit, row.line - m.units[row.unit].low);
    var t, found, last, top := PaintRow(x, m.segs, m.step, rows, n, r);
    var units := RecordIf(x, m.units, n, row, top, last, found);
    m' := Map(m.step, units, t);
  }

  lemma NothingYet(x: Table)
    requires Ready(x)
    ensures MapOk(x, 0, Map(x.step, x.units, x.segs))
  {
    forall u, k | 0 <= u < |x.units| && 0 <= k < |x.units[u].lines| - 1
      ensures DescrOk(x, 0, Ref(u, k), x.units[u].lines[k])
    {
      assert UnitOk(x.units[u]);
    }
  }

  /** Builds the map of a table of rows. */
  method Build(rows: seq<Row>, units: seq<Unit>, segs: seq<Segment>, step: int, ghost off: int) returns (m: Map)
    requires Ready(Table(rows, units, segs, step, off))
    ensures MapOk(Table(rows, units, segs, step, off), |rows|, m)
  {
    ghost var x := Table(rows, units, segs, step, off);
    m := Map(step, units, segs);
    NothingYet(x);
    var n := 0;
    while n < |rows|
      invariant 0 <= n <= |rows| && MapOk(x, n, m)
    {
      m := MapRow(x, m, rows, n);
      n := n + 1;
    }
  }
}
