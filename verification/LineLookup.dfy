/** Looking up the line map, and what a built map guarantees. */
module LineLookup {
  import opened Options
  import opened LineSegs
  import opened LineMap

  /** The descriptor of the slot an address is in. */
  function LineAt(m: Map, a: int): Option<Ref>
    requires m.step > 0
  {
    var s := SegOf(m.segs, a);
    if s < 0 then None
    else
      var k := SlotAt(m.segs[s], m.step, a);
      if 0 <= k < |m.segs[s].locs| then m.segs[s].locs[k] else None
  }

  predicate InTable(m: Map, r: Ref) {
    0 <= r.unit < |m.units| && 0 <= r.num < |m.units[r.unit].lines| - 1
  }

  function DescrOf(m: Map, r: Ref): Descr
    requires InTable(m, r)
  {
    m.units[r.unit].lines[r.num]
  }

  /** The descriptor of a mapped slot is in its table, in use, and its addresses include the slot. */
  predicate SlotSound(m: Map, s: int, k: int)
    requires 0 <= s < |m.segs| && 0 <= k < |m.segs[s].locs|
  {
    m.segs[s].locs[k].Some? ==>
      var r := m.segs[s].locs[k].value;
      && InTable(m, r) && DescrOf(m, r).used
      && DescrOf(m, r).low <= SlotAddr(m.segs[s], m.step, k)
      && SlotAddr(m.segs[s], m.step, k) + m.step <= DescrOf(m, r).high
  }

  predicate DescrSound(m: Map, off: int, u: int, n: int)
    requires m.step > 0 && InTable(m, Ref(u, n))
  {
    var d := m.units[u].lines[n];
    d.used ==> -1 <= d.seg < |m.segs| && d.low < d.high && OnGrid(d.low, m.step, off) && OnGrid(d.high, m.step, off)
  }

  ghost predicate Sound(m: Map, off: int) {
    && m.step > 0 && AllShaped(m.segs, m.step, off) && Disjoint(m.segs)
    && (forall s, k :: 0 <= s < |m.segs| && 0 <= k < |m.segs[s].locs| ==> SlotSound(m, s, k))
    && (forall u :: 0 <= u < |m.units| ==>
          m.units[u].low <= m.units[u].high && |m.units[u].lines| == m.units[u].high - m.units[u].low + 2)
    && (forall u, n :: InTable(m, Ref(u, n)) ==> DescrSound(m, off, u, n))
  }

  /** The map built from a table. */
  ghost predicate Built(x: Table, m: Map) {
    Ready(x) && MapOk(x, |x.rows|, m)
  }

  lemma TopOnGrid(x: Table, i: nat)
    requires Ready(x) && i + 1 < |x.rows|
    ensures OnGrid(x.rows[i].addr, x.step, x.off) && OnGrid(Top(x, i), x.step, x.off) && x.rows[i].addr < Top(x, i)
  {
    GridNext(x.rows[i].addr, x.step, x.off);
  }

  /** A row covers an address exactly when it covers the start of its slot. */
  lemma CoversSlot(x: Table, i: nat, s: Segment, a: int)
    requires Ready(x) && OnGrid(s.low, x.step, x.off)
    ensures Covers(x, i, a) <==> Covers(x, i, SlotAddr(s, x.step, SlotAt(s, x.step, a)))
  {
    var k := SlotAt(s, x.step, a);
    var g := SlotAddr(s, x.step, k);
    SlotIs(s, x.step, a, k);
    SlotOnGrid(s, x.step, x.off, k);
    if i + 1 < |x.rows| {
      TopOnGrid(x, i);
      GridBetween(x.rows[i].addr, g, a, x.step, x.off);
      GridBetween(Top(x, i), g, a, x.step, x.off);
    }
  }

  lemma GridBetween(b: int, g: int, a: int, step: int, off: int)
    requires step > 0 && OnGrid(b, step, off) && OnGrid(g, step, off) && g <= a < g + step
    ensures b <= a <==> b <= g
  {
    if g < b { GridStep(g, b, step, off); }
  }

  lemma {:induction false} LastSlot(x: Table, n: nat, s: Segment, a: int)
    requires Ready(x) && OnGrid(s.low, x.step, x.off) && n <= |x.rows|
    ensures Last(x, n, a) == Last(x, n, SlotAddr(s, x.step, SlotAt(s, x.step, a)))
  {
    if n > 0 {
      CoversSlot(x, n - 1, s, a);
      LastSlot(x, n - 1, s, a);
    }
  }

  lemma BuiltShape(x: Table, m: Map)
    requires Built(x, m)
    ensures m.step == x.step && SameRange(x.segs, m.segs)
    ensures AllShaped(m.segs, m.step, x.off) && Disjoint(m.segs)
  {
    forall i | 0 <= i < |m.segs| ensures Shaped(m.segs[i], m.step, x.off) {
      assert Shaped(x.segs[i], x.step, x.off);
    }
    assert forall i, a :: 0 <= i < |m.segs| ==> (In(m.segs[i], a) <==> In(x.segs[i], a));
  }

  /** Every address of a segment is mapped to the line of the last row that covers it. */
  lemma LineAtIsLast(x: Table, m: Map, a: int)
    requires Built(x, m)
    ensures LineAt(m, a) == if SegOf(x.segs, a) < 0 then None else Last(x, |x.rows|, a)
  {
    BuiltShape(x, m);
    SegOfSame(x.segs, m.segs, a);
    var s := SegOf(x.segs, a);
    if s >= 0 {
      var seg := x.segs[s];
      assert Shaped(seg, x.step, x.off);
      SlotInside(seg, x.step, x.off, a);
      LastSlot(x, |x.rows|, seg, a);
    }
  }

  /** A covering row whose address has a segment makes its descriptor used and within bounds. */
  lemma CoveringRow(x: Table, m: Map, i: nat, a: int)
    requires Built(x, m) && i < |x.rows| && Covers(x, i, a) && OnGrid(a, x.step, x.off) && SegOf(x.segs, a) >= 0
    ensures var r := RefOf(x, i);
            InTable(m, r) && DescrOf(m, r).used && DescrOf(m, r).low <= a && a + x.step <= DescrOf(m, r).high
  {
    var r := RefOf(x, i);
    RowReady(x, i);
    assert Records(x, i);
    assert Hit(x, r, i);
    assert DescrOk(x, |x.rows|, r, DescrOf(m, r));
    TopOnGrid(x, i);
    GridStep(a, Top(x, i), x.step, x.off);
  }

  lemma BuiltSlot(x: Table, m: Map, s: int, k: int)
    requires Built(x, m) && 0 <= s < |m.segs| && 0 <= k < |m.segs[s].locs|
    ensures SlotSound(m, s, k)
  {
    var a := SlotAddr(x.segs[s], x.step, k);
    assert Shaped(x.segs[s], x.step, x.off);
    SlotStarts(x.segs[s], x.step, x.off, k);
    SegIs(x.segs, s, a);
    LastCovering(x, |x.rows|, a);
    if Last(x, |x.rows|, a).Some? {
      var i :| 0 <= i < |x.rows| && Covers(x, i, a) && Last(x, |x.rows|, a).value == RefOf(x, i);
      CoveringRow(x, m, i, a);
    }
  }

  lemma BuiltDescr(x: Table, m: Map, u: int, n: int)
    requires Built(x, m) && InTable(m, Ref(u, n))
    ensures DescrSound(m, x.off, u, n)
  {
    var d := m.units[u].lines[n];
    var r := Ref(u, n);
    assert DescrOk(x, |x.rows|, r, d);
    assert |m.segs| == |x.segs|;
    if d.used {
      var i :| 0 <= i < |x.rows| && LowHit(x, r, i, d);
      var j :| 0 <= j < |x.rows| && HighHit(x, r, j, d);
      var f :| 0 <= f < |x.rows| && FirstHit(x, r, f, d);
      TopOnGrid(x, i);
      TopOnGrid(x, j);
      assert d.low <= x.rows[j].addr;
    }
  }

  /** What the iterators and lookups rely on holds of every built map. */
  lemma BuiltSound(x: Table, m: Map)
    requires Built(x, m)
    ensures Sound(m, x.off)
  {
    BuiltShape(x, m);
    forall s, k | 0 <= s < |m.segs| && 0 <= k < |m.segs[s].locs| ensures SlotSound(m, s, k) {
      BuiltSlot(x, m, s, k);
    }
    forall u, n | InTable(m, Ref(u, n)) ensures DescrSound(m, x.off, u, n) {
      BuiltDescr(x, m, u, n);
    }
    forall u | 0 <= u < |m.units|
      ensures m.units[u].low <= m.units[u].high && |m.units[u].lines| == m.units[u].high - m.units[u].low + 2
    {
      assert UnitOk(x.units[u]);
    }
  }

  /** Row i is the last one that covers a, and it is about this line. */
  ghost predicate LastRow(x: Table, a: int, i: nat, unit: int, line: int) {
    && i < |x.rows| && Covers(x, i, a) && (forall j :: i < j < |x.rows| ==> !Covers(x, j, a))
    && x.rows[i].unit == unit && x.rows[i].line == line
  }

  /** The unit and line of an address, if it has one. */
  method LineFromAddress(m: Map, a: int, ghost x: Table) returns (found: bool, unit: int, line: int)
    requires Built(x, m)
    ensures found ==> SegOf(x.segs, a) >= 0 && exists i: nat :: LastRow(x, a, i, unit, line)
    ensures !found ==> SegOf(x.segs, a) < 0 || forall i :: 0 <= i < |x.rows| ==> !Covers(x, i, a)
  {
    found, unit, line := false, 0, 0;
    LineAtIsLast(x, m, a);
    SegOfSame(x.segs, m.segs, a);
    LastCovering(x, |x.rows|, a);
    var s := FindSegment(m.segs, a);
    if s >= 0 {
      BuiltShape(x, m);
      assert Shaped(m.segs[s], m.step, x.off);
      SlotInside(m.segs[s], m.step, x.off, a);
      SlotFormulas(m.segs[s], m.step, 0, a);
      var loc := m.segs[s].locs[(a - m.segs[s].low) / m.step];
      if loc.Some? {
        ghost var i :| 0 <= i < |x.rows| && Covers(x, i, a) && loc.value == RefOf(x, i)
                       && forall j :: i < j < |x.rows| ==> !Covers(x, j, a);
        RowReady(x, i);
        found, unit, line := true, loc.value.unit, m.units[loc.value.unit].low + loc.value.num;
        assert LastRow(x, a, i, unit, line);
      }
    }
  }

  /** Row i is about a line and has code in some segment. */
  ghost predicate CodeOf(x: Table, i: nat, unit: int, line: int)
    requires x.step > 0
  {
    i < |x.rows| && x.rows[i].unit == unit && x.rows[i].line == line && line != 0 && Records(x, i)
  }

  /** a is the least address of the line's code, or 0 if it has none. */
  ghost predicate LeastCode(x: Table, unit: int, line: int, a: int)
    requires x.step > 0
  {
    && (forall i: nat :: CodeOf(x, i, unit, line) ==> a <= x.rows[i].addr)
    && if exists i: nat :: CodeOf(x, i, unit, line) then exists i: nat :: CodeOf(x, i, unit, line) && a == x.rows[i].addr
       else a == 0
  }

  /** The address of a line. */
  method AddressFromLine(m: Map, unit: int, line: int, ghost x: Table) returns (a: int)
    requires Built(x, m) && line != 0
    ensures LeastCode(x, unit, line, a)
  {
    DescrCode(x, m, unit, line);
    if !(0 <= unit < |m.units|) || line < m.units[unit].low || line > m.units[unit].high {
      return 0;
    }
    a := m.units[unit].lines[line - m.units[unit].low].low;
  }

  lemma NoCode(x: Table, unit: int, line: int)
    requires Ready(x) && line != 0
    requires 0 <= unit < |x.units| ==> !(x.units[unit].low <= line <= x.units[unit].high)
    ensures LeastCode(x, unit, line, 0)
  {
    forall i: nat | CodeOf(x, i, unit, line) ensures false { RowReady(x, i); }
  }

  lemma DescrCode(x: Table, m: Map, unit: int, line: int)
    requires Built(x, m) && line != 0
    ensures |m.units| == |x.units|
    ensures 0 <= unit < |m.units| && m.units[unit].low <= line <= m.units[unit].high ==>
              var r := Ref(unit, line - m.units[unit].low);
              InTable(m, r) && LeastCode(x, unit, line, DescrOf(m, r).low)
    ensures !(0 <= unit < |m.units|) || line < m.units[unit].low || line > m.units[unit].high ==> LeastCode(x, unit, line, 0)
  {
    if 0 <= unit < |m.units| && m.units[unit].low <= line <= m.units[unit].high {
      assert UnitOk(x.units[unit]);
      DescrLeast(x, m, unit, line);
    } else {
      NoCode(x, unit, line);
    }
  }

  lemma DescrLeast(x: Table, m: Map, unit: int, line: int)
    requires Built(x, m) && line != 0 && 0 <= unit < |m.units|
    requires InTable(m, Ref(unit, line - m.units[unit].low))
    ensures LeastCode(x, unit, line, DescrOf(m, Ref(unit, line - m.units[unit].low)).low)
  {
    var r := Ref(unit, line - m.units[unit].low);
    var d := DescrOf(m, r);
    assert DescrOk(x, |x.rows|, r, d);
    forall i: nat | CodeOf(x, i, unit, line) ensures d.used && d.low <= x.rows[i].addr { assert Hit(x, r, i); }
    if d.used {
      var i :| 0 <= i < |x.rows| && LowHit(x, r, i, d);
      RowReady(x, i);
      assert CodeOf(x, i, unit, line);
    }
  }

  /** Looking up an address, then the line found, leads to an address not after the first. */
  lemma ThereAndBack(x: Table, m: Map, a: int)
    requires Built(x, m) && LineAt(m, a).Some?
    ensures var r := LineAt(m, a).value;
            InTable(m, r) && DescrOf(m, r).used && DescrOf(m, r).low <= a < DescrOf(m, r).high
  {
    BuiltSound(x, m);
    var s := SegOf(m.segs, a);
    var k := SlotAt(m.segs[s], m.step, a);
    assert SlotSound(m, s, k);
    SlotIs(m.segs[s], m.step, a, k);
  }
}
