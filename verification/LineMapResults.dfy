/** What the lookups and iterations over a built line map mean for addresses. */
module LineMapResults {
  import opened Options
  import opened LineSegs
  import opened LineMap
  import opened LineLookup
  import opened LineAddrIter
  import opened LineIter

  /** The addresses of a run are those whose slot is in it. */
  lemma RunAddresses(m: Map, off: int, run: Run, a: int)
    requires Sound(m, off) && RunOk(m, run)
    ensures SlotAddr(m.segs[run.seg], m.step, run.from) <= a < SlotAddr(m.segs[run.seg], m.step, run.to)
            <==> SegOf(m.segs, a) == run.seg && run.from <= SlotAt(m.segs[run.seg], m.step, a) < run.to
  {
    var s := m.segs[run.seg];
    var k := SlotAt(s, m.step, a);
    assert Shaped(s, m.step, off);
    SlotIs(s, m.step, a, k);
    SlotInside(s, m.step, off, a);
    if In(s, a) { SegIs(m.segs, run.seg, a); }
    FromTo(s, m.step, run.from, k, a);
    FromTo(s, m.step, run.to, k, a);
  }

  /** Slot j starts at or before a exactly when j is at most the slot of a. */
  lemma FromTo(s: Segment, step: int, j: int, k: int, a: int)
    requires step > 0 && k == SlotAt(s, step, a)
    ensures SlotAddr(s, step, j) <= a <==> j <= k
  {
    SlotIs(s, step, a, k);
    if j < k { SlotMonotone(s, step, j, k); }
    if k < j { SlotMonotone(s, step, k, j); }
  }

  predicate Has(l: Location, a: int) { l.Location? && l.low <= a < l.high }

  /** The location l is about line r and includes address a. */
  predicate Holds(m: Map, l: Location, r: Ref, a: int) {
    l.Location? && InTable(m, r) && l.unit == r.unit && l.line == m.units[r.unit].low + r.num && Has(l, a)
  }

  /** An address is mapped to a line exactly when it is in a location of that line. */
  ghost predicate ListsAddresses(m: Map, out: seq<Location>)
    requires m.step > 0
  {
    forall a, r :: LineAt(m, a) == Some(r) <==> exists i :: 0 <= i < |out| && Holds(m, out[i], r, a)
  }

  /** No address is in two locations. */
  ghost predicate Apart(out: seq<Location>) {
    forall i, j, a :: 0 <= i < j < |out| && Has(out[i], a) ==> !Has(out[j], a)
  }

  lemma LineAtSlot(m: Map, off: int, a: int, r: Ref)
    requires Sound(m, off)
    ensures LineAt(m, a) == Some(r) <==>
              SegOf(m.segs, a) >= 0 && SlotHas(m, SegOf(m.segs, a), SlotAt(m.segs[SegOf(m.segs, a)], m.step, a), r)
  {}

  lemma RunHolds(m: Map, off: int, run: Run, l: Location, r: Ref, a: int)
    requires Sound(m, off) && RunOk(m, run) && InTable(m, run.ref) && l == RunLocation(m, run)
    ensures Holds(m, l, r, a) <==> run.ref == r && SegOf(m.segs, a) == run.seg
                                   && InRun(run, run.seg, SlotAt(m.segs[run.seg], m.step, a))
  {
    RunAddresses(m, off, run, a);
  }

  lemma Enumerates(m: Map, off: int, out: seq<Location>, runs: seq<Run>)
    requires Sound(m, off) && Locations(m, out, runs) && AllListed(m, runs)
    ensures ListsAddresses(m, out)
  {
    forall a, r ensures LineAt(m, a) == Some(r) <==> exists i :: 0 <= i < |out| && Holds(m, out[i], r, a) {
      LineAtSlot(m, off, a, r);
      var s := SegOf(m.segs, a);
      if LineAt(m, a) == Some(r) {
        var k := SlotAt(m.segs[s], m.step, a);
        assert InSomeOf(runs, s, k, r);
        var i :| 0 <= i < |runs| && runs[i].ref == r && InRun(runs[i], s, k);
        RunHolds(m, off, runs[i], out[i], r, a);
      }
      if i :| 0 <= i < |out| && Holds(m, out[i], r, a) {
        RunHolds(m, off, runs[i], out[i], r, a);
        assert SlotHas(m, s, SlotAt(m.segs[s], m.step, a), r);
      }
    }
  }

  /** Every slot mapped to a line is in a run of that very line. */
  lemma ListedAll(m: Map, out: seq<Location>, runs: seq<Run>)
    requires Listed(m, out, runs, |m.segs|, 0)
    ensures Locations(m, out, runs) && AllListed(m, runs)
  {
    forall s, k, r | SlotHas(m, s, k, r) ensures InSomeOf(runs, s, k, r) {
      assert InSome(runs, s, k);
      var i :| 0 <= i < |runs| && InRun(runs[i], s, k);
      assert SlotHas(m, s, k, runs[i].ref);
    }
  }

  /** Runs that share no slot have locations that share no address. */
  lemma RunsApart(m: Map, off: int, out: seq<Location>, runs: seq<Run>)
    requires Sound(m, off) && Locations(m, out, runs)
    requires forall i, j, s, k :: 0 <= i < j < |runs| && InRun(runs[i], s, k) ==> !InRun(runs[j], s, k)
    ensures Apart(out)
  {
    forall i, j, a | 0 <= i < j < |out| && Has(out[i], a) ensures !Has(out[j], a) {
      RunHolds(m, off, runs[i], out[i], runs[i].ref, a);
      RunHolds(m, off, runs[j], out[j], runs[j].ref, a);
    }
  }

  /** The iteration by address lists every mapped address once, with its line. */
  lemma ByAddress(m: Map, off: int, out: seq<Location>, runs: seq<Run>)
    requires Sound(m, off) && Listed(m, out, runs, |m.segs|, 0)
    ensures ListsAddresses(m, out) && Apart(out)
  {
    ListedAll(m, out, runs);
    Enumerates(m, off, out, runs);
    RunsApart(m, off, out, runs);
  }

  /** Within a segment its locations are in ascending order, and no two that touch are about the same line. */
  lemma ByAddressAscending(m: Map, off: int, out: seq<Location>, runs: seq<Run>, i: nat, j: nat)
    requires Sound(m, off) && Listed(m, out, runs, |m.segs|, 0) && i < j < |out| && runs[i].seg == runs[j].seg
    ensures out[i].high <= out[j].low
    ensures out[i].high == out[j].low ==> out[i].unit != out[j].unit || out[i].line != out[j].line
  {
    InOrder(m, runs[i], runs[j]);
  }

  lemma InOrder(m: Map, a: Run, b: Run)
    requires m.step > 0 && Maximal(m, a) && Maximal(m, b) && a.seg == b.seg && a.to <= b.from && b.from < b.to
    ensures SlotAddr(m.segs[a.seg], m.step, a.to) <= SlotAddr(m.segs[b.seg], m.step, b.from)
    ensures SlotAddr(m.segs[a.seg], m.step, a.to) == SlotAddr(m.segs[b.seg], m.step, b.from) ==> a.ref != b.ref
  {
    assert SlotHas(m, b.seg, b.from, b.ref);
    if a.to < b.from { SlotMonotone(m.segs[a.seg], m.step, a.to, b.from); }
  }

  /** So does the iteration by line, line after line. */
  lemma ByLine(m: Map, off: int, out: seq<Location>, runs: seq<Run>)
    requires Sound(m, off) && Locations(m, out, runs) && LineAscending(runs) && AllListed(m, runs)
    ensures ListsAddresses(m, out) && Apart(out)
  {
    Enumerates(m, off, out, runs);
    forall i, j, s, k | 0 <= i < j < |runs| && InRun(runs[i], s, k) ensures !InRun(runs[j], s, k) {
      SharedSlot(m, runs[i], runs[j], s, k);
    }
    RunsApart(m, off, out, runs);
  }

  /** The whole iteration by address. */
  method ListByAddress(m: Map, ghost off: int) returns (out: seq<Location>)
    requires Sound(m, off)
    ensures ListsAddresses(m, out) && Apart(out)
  {
    ghost var runs;
    out, runs := AllByAddress(m, off);
    ByAddress(m, off, out, runs);
  }

  /** The whole iteration by line: the addresses of each line in its segment, which are all if every line
      keeps to one segment. */
  method ListByLine(m: Map, ghost off: int) returns (out: seq<Location>)
    requires Sound(m, off) && Startable(m)
    ensures ListsHome(m, out)
    ensures Contained(m) ==> ListsAddresses(m, out) && Apart(out)
  {
    ghost var runs;
    out, runs := AllByLine(m, off);
    EnumeratesHome(m, off, out, runs);
    if Contained(m) {
      ContainedAll(m, off, out, runs);
      ByLine(m, off, out, runs);
    }
  }

  /** Address a is mapped to line r and lies in the segment of r. */
  predicate HomeAt(m: Map, a: int, r: Ref)
    requires m.step > 0
  {
    LineAt(m, a) == Some(r) && InTable(m, r) && DescrOf(m, r).seg == SegOf(m.segs, a)
  }

  /** Up to the end of its segment, a line's locations have exactly the addresses mapped to it there. */
  ghost predicate ListsHome(m: Map, out: seq<Location>)
    requires m.step > 0
  {
    forall a, r :: InTable(m, r) && 0 <= DescrOf(m, r).seg < |m.segs| && a < m.segs[DescrOf(m, r).seg].high ==>
      (HomeAt(m, a, r) <==> exists i :: 0 <= i < |out| && Holds(m, out[i], r, a))
  }

  lemma LineHolds(m: Map, off: int, run: Run, l: Location, r: Ref, a: int)
    requires Sound(m, off) && Startable(m) && HomeRun(m, run) && l == LineLocation(m, run)
    requires InTable(m, r) && DescrOf(m, r).seg == run.seg && a < m.segs[run.seg].high
    ensures Holds(m, l, r, a) <==> run.ref == r && SegOf(m.segs, a) == run.seg
                                   && InRun(run, run.seg, SlotAt(m.segs[run.seg], m.step, a))
  {
    RunHolds(m, off, run, RunLocation(m, run), r, a);
    DescrSlots(m, off, run.ref);
    assert Has(l, a) <==> Has(RunLocation(m, run), a);
  }

  lemma EnumeratesHome(m: Map, off: int, out: seq<Location>, runs: seq<Run>)
    requires Sound(m, off) && Startable(m) && LineLocations(m, out, runs) && HomeListed(m, runs)
    ensures ListsHome(m, out)
  {
    forall a, r | InTable(m, r) && 0 <= DescrOf(m, r).seg < |m.segs| && a < m.segs[DescrOf(m, r).seg].high
      ensures HomeAt(m, a, r) <==> exists i :: 0 <= i < |out| && Holds(m, out[i], r, a)
    {
      LineAtSlot(m, off, a, r);
      var s := DescrOf(m, r).seg;
      var k := SlotAt(m.segs[s], m.step, a);
      if HomeAt(m, a, r) {
        assert HomeHas(m, s, k, r);
        assert InSomeOf(runs, s, k, r);
        var i :| 0 <= i < |runs| && runs[i].ref == r && InRun(runs[i], s, k);
        LineHolds(m, off, runs[i], out[i], r, a);
      }
      if i :| 0 <= i < |out| && Holds(m, out[i], r, a) { HeldThere(m, off, runs[i], out[i], r, a); }
    }
  }

  lemma HeldThere(m: Map, off: int, run: Run, l: Location, r: Ref, a: int)
    requires Sound(m, off) && Startable(m) && HomeRun(m, run) && l == LineLocation(m, run) && Holds(m, l, r, a)
    requires 0 <= DescrOf(m, r).seg < |m.segs| && a < m.segs[DescrOf(m, r).seg].high
    ensures HomeAt(m, a, r)
  {
    assert run.ref == r;
    LineHolds(m, off, run, l, r, a);
    assert SlotHas(m, run.seg, SlotAt(m.segs[run.seg], m.step, a), r);
    LineAtSlot(m, off, a, r);
  }

  /** Runs that share a slot are of the same line, and neither ends before the other starts. */
  lemma SharedSlot(m: Map, a: Run, b: Run, s: int, k: int)
    requires RunOk(m, a) && RunOk(m, b) && InRun(a, s, k)
    ensures InRun(b, s, k) ==> a.ref == b.ref && b.from < a.to
  {
    assert SlotHas(m, s, k, a.ref);
    assert InRun(b, s, k) ==> SlotHas(m, s, k, b.ref);
  }

  // ---- which tables give contained lines ----

  /** Rows with code lie in one segment, the same for all rows of a line. */
  ghost predicate RowsContained(x: Table)
    requires x.step > 0
  {
    && (forall i :: 0 <= i && i + 1 < |x.rows| && Records(x, i) ==>
          var s := SegOf(x.segs, x.rows[i].addr); s >= 0 && Top(x, i) <= x.segs[s].high)
    && (forall i, j :: 0 <= i && i + 1 < |x.rows| && 0 <= j && j + 1 < |x.rows|
                       && Records(x, i) && Records(x, j) && RefOf(x, i) == RefOf(x, j) ==>
          SegOf(x.segs, x.rows[i].addr) == SegOf(x.segs, x.rows[j].addr))
  }

  lemma FirstRowContained(x: Table, r: Ref, f: nat, d: Descr)
    requires Ready(x) && RowsContained(x) && FirstHit(x, r, f, d)
    ensures d.seg == SegOf(x.segs, x.rows[f].addr) >= 0
  {
    var s := SegOf(x.segs, x.rows[f].addr);
    TopOnGrid(x, f);
    GridStep(x.rows[f].addr, Top(x, f), x.step, x.off);
    SegIs(x.segs, s, Top(x, f) - x.step);
  }

  lemma DescrInSegment(x: Table, r: Ref, d: Descr)
    requires Ready(x) && RowsContained(x) && DescrOk(x, |x.rows|, r, d) && d.used
    ensures 0 <= d.seg < |x.segs| && x.segs[d.seg].low <= d.low && d.high <= x.segs[d.seg].high
  {
    var f :| 0 <= f < |x.rows| && FirstHit(x, r, f, d);
    FirstRowContained(x, r, f, d);
    var i :| 0 <= i < |x.rows| && LowHit(x, r, i, d);
    assert SegOf(x.segs, x.rows[i].addr) == d.seg;
    var j :| 0 <= j < |x.rows| && HighHit(x, r, j, d);
    assert SegOf(x.segs, x.rows[j].addr) == d.seg;
  }

  /** They do. */
  lemma BuiltContained(x: Table, m: Map)
    requires Built(x, m) && RowsContained(x)
    ensures Contained(m)
  {
    forall u, n | InTable(m, Ref(u, n)) && m.units[u].lines[n].used ensures DescrContained(m, m.units[u].lines[n]) {
      assert DescrOk(x, |x.rows|, Ref(u, n), m.units[u].lines[n]);
      DescrInSegment(x, Ref(u, n), m.units[u].lines[n]);
    }
  }
}
