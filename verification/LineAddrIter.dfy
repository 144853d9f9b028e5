/** The iteration over a line map by address. */
module LineAddrIter {
  import opened Options
  import opened LineSegs
  import opened LineMap
  import opened LineLookup

  /** A line and a range of its addresses. */
  datatype Location = NoLocation | Location(unit: int, line: int, low: int, high: int)

  /** Consecutive slots from..to of a segment. */
  datatype Run = Run(seg: int, from: int, to: int, ref: Ref)

  predicate SlotOk(m: Map, s: int, k: int) { 0 <= s < |m.segs| && 0 <= k < |m.segs[s].locs| }

  /** Slot k of segment s is mapped to r. */
  predicate SlotHas(m: Map, s: int, k: int, r: Ref) {
    SlotOk(m, s, k) && m.segs[s].locs[k] == Some(r)
  }

  predicate RunOk(m: Map, r: Run) {
    && 0 <= r.seg < |m.segs| && 0 <= r.from <= r.to <= |m.segs[r.seg].locs|
    && forall k :: r.from <= k < r.to ==> SlotHas(m, r.seg, k, r.ref)
  }

  /** No slot next to the run is mapped to the same line. */
  predicate Maximal(m: Map, r: Run) {
    RunOk(m, r) && !SlotHas(m, r.seg, r.from - 1, r.ref) && !SlotHas(m, r.seg, r.to, r.ref)
  }

  function RunLocation(m: Map, r: Run): Location
    requires 0 <= r.seg < |m.segs| && InTable(m, r.ref)
  {
    Location(r.ref.unit, m.units[r.ref.unit].low + r.ref.num,
             SlotAddr(m.segs[r.seg], m.step, r.from), SlotAddr(m.segs[r.seg], m.step, r.to))
  }

  /** Slot k of segment s comes before slot k1 of segment s1. */
  predicate Before(s: int, k: int, s1: int, k1: int) { s < s1 || (s == s1 && k < k1) }

  /** No slot from k0 of segment s0 to k1 of segment s1, this one excluded, is mapped. */
  ghost predicate Blank(m: Map, s0: int, k0: int, s1: int, k1: int) {
    forall s, k :: SlotOk(m, s, k) && !Before(s, k, s0, k0) && Before(s, k, s1, k1) ==> m.segs[s].locs[k] == None
  }

  /** No run goes on across slot k. */
  ghost predicate Cut(m: Map, s: int, k: int) {
    forall r: Ref :: SlotHas(m, s, k, r) ==> !SlotHas(m, s, k - 1, r)
  }

  /** The answer of an iterator that was at slot k0 of segment s0 and is now at loc of seg. */
  ghost predicate Found(m: Map, s0: int, k0: int, seg: int, loc: int, l: Location, run: Run) {
    if l.NoLocation? then seg == |m.segs| && Blank(m, s0, k0, seg, loc)
    else
      && Maximal(m, run) && run.from < run.to && seg == run.seg && loc == run.to - 1
      && InTable(m, run.ref) && l == RunLocation(m, run)
      && !Before(run.seg, run.from, s0, k0) && Blank(m, s0, k0, run.seg, run.from) && Cut(m, seg, loc + 1)
  }

  /** The next line starts after a maximal run. */
  lemma CutAfter(m: Map, r: Run)
    requires Maximal(m, r) && r.from < r.to
    ensures Cut(m, r.seg, r.to)
  {
    assert SlotHas(m, r.seg, r.to - 1, r.ref);
  }

  /** The slots from..to are a run, and no longer one goes on before or after them. */
  lemma RunFound(m: Map, s0: int, k0: int, s: int, from: int, to: int, r: Ref)
    requires 0 <= from < to && (forall k :: from <= k < to ==> SlotHas(m, s, k, r)) && !SlotHas(m, s, to, r)
    requires if s0 == s && from == k0 then Cut(m, s, from) else (s0 < s && from == 0) || Blank(m, s, from - 1, s, from)
    ensures Maximal(m, Run(s, from, to, r))
  {
    assert SlotHas(m, s, from, r) && SlotHas(m, s, to - 1, r);
    if SlotHas(m, s, from - 1, r) && !(s0 == s && from == k0) {
      assert Before(s, from - 1, s, from);
    }
  }

  class AddrIter {
    const m: Map
    var seg: int
    var loc: int

    ghost predicate Valid(off: int)
      reads this
    {
      && Sound(m, off) && 0 <= seg <= |m.segs| && 0 <= loc
    }

    constructor (m: Map, ghost off: int)
      requires Sound(m, off)
      ensures this.m == m && Valid(off) && seg == 0 && loc == 0
    {
      this.m := m;
      seg := 0;
      loc := 0;
    }

    /** Goes to the end of the run that starts here. */
    method ToRunEnd(ghost off: int, ghost r: Ref) returns (high: int)
      requires Valid(off) && SlotHas(m, seg, loc, r)
      modifies `loc
      ensures old(loc) <= loc && (forall k :: old(loc) <= k <= loc ==> SlotHas(m, seg, k, r))
      ensures !SlotHas(m, seg, loc + 1, r) && high == SlotAddr(m.segs[seg], m.step, loc + 1)
    {
      var s := m.segs[seg];
      SlotFormulas(s, m.step, 0, s.high);
      var cnt := (s.high - s.low) / m.step;
      assert Shaped(s, m.step, off);
      while loc + 1 < cnt && s.locs[loc + 1] == s.locs[loc]
        invariant old(loc) <= loc < cnt && forall k :: old(loc) <= k <= loc ==> SlotHas(m, seg, k, r)
      {
        assert SlotHas(m, seg, loc, r);
        assert SlotHas(m, seg, loc + 1, r);
        loc := loc + 1;
      }
      assert SlotHas(m, seg, loc, r);
      if loc + 1 >= cnt { high := s.high; } else { high := s.low + (loc + 1) * m.step; }
      GridDivides(s.low, s.high, m.step, off);
      SlotFormulas(s, m.step, loc + 1, s.high);
    }

    /** Goes to the next mapped slot. */
    method Skip(ghost off: int)
      requires Valid(off)
      modifies this
      ensures Valid(off) && Blank(m, old(seg), old(loc), seg, loc) && !Before(seg, loc, old(seg), old(loc))
      ensures seg < |m.segs| ==> SlotOk(m, seg, loc) && m.segs[seg].locs[loc].Some?
      ensures if seg == old(seg) && loc == old(loc) then true
              else (old(seg) < seg && loc == 0) || Blank(m, seg, loc - 1, seg, loc)
    {
      while seg < |m.segs|
        invariant Valid(off) && Blank(m, old(seg), old(loc), seg, loc) && !Before(seg, loc, old(seg), old(loc))
        invariant seg > old(seg) || loc == old(loc)
        decreases |m.segs| - seg
      {
        var s := m.segs[seg];
        assert Shaped(s, m.step, off);
        SlotFormulas(s, m.step, 0, s.high);
        var cnt := (s.high - s.low) / m.step;
        ghost var seg0 := seg;
        while loc < cnt && s.locs[loc].None?
          invariant seg == seg0 && 0 <= loc
          invariant Blank(m, old(seg), old(loc), seg, loc) && !Before(seg, loc, old(seg), old(loc))
          decreases cnt - loc
        {
          loc := loc + 1;
        }
        if loc < cnt { return; }
        seg := seg + 1;
        loc := 0;
      }
    }

    /** Finds the next location, from slot loc of segment seg on; run is its slots. */
    method Find(ghost off: int) returns (l: Location, ghost run: Run)
      requires Valid(off) && Cut(m, seg, loc)
      modifies this
      ensures Valid(off)
      ensures Found(m, old(seg), old(loc), seg, loc, l, run)
    {
      Skip(off);
      if seg == |m.segs| { return NoLocation, Run(0, 0, 0, Ref(0, 0)); }
      var r := m.segs[seg].locs[loc].value;
      assert SlotSound(m, seg, loc);
      var line := m.units[r.unit].low + r.num;
      var from := loc;
      SlotFormulas(m.segs[seg], m.step, loc, 0);
      var low := m.segs[seg].low + loc * m.step;
      var high := ToRunEnd(off, r);
      l := Location(r.unit, line, low, high);
      run := Run(seg, from, loc + 1, r);
      RunFound(m, old(seg), old(loc), seg, from, loc + 1, r);
      CutAfter(m, run);
    }

    /** The next location. */
    method Next(ghost off: int) returns (l: Location, ghost run: Run)
      requires Valid(off) && Cut(m, seg, loc + 1)
      modifies this
      ensures Valid(off)
      ensures Found(m, old(seg), old(loc) + 1, seg, loc, l, run)
    {
      loc := loc + 1;
      l, run := Find(off);
    }
  }

  // ---- the whole iteration ----

  /** Runs found one after the other. */
  ghost predicate Ascending(runs: seq<Run>) {
    forall i, j :: 0 <= i < j < |runs| ==>
      runs[i].seg < runs[j].seg || (runs[i].seg == runs[j].seg && runs[i].to <= runs[j].from)
  }

  predicate InRun(r: Run, s: int, k: int) { r.seg == s && r.from <= k < r.to }

  ghost predicate InSome(runs: seq<Run>, s: int, k: int) {
    exists i :: 0 <= i < |runs| && InRun(runs[i], s, k)
  }

  /** The locations out and their runs up to slot k1 of segment s1: every mapped slot before it is in one. */
  ghost predicate Listed(m: Map, out: seq<Location>, runs: seq<Run>, s1: int, k1: int) {
    && |out| == |runs| && Ascending(runs)
    && (forall i :: 0 <= i < |runs| ==> Maximal(m, runs[i]) && runs[i].from < runs[i].to)
    && (forall i :: 0 <= i < |runs| ==> InTable(m, runs[i].ref) && out[i] == RunLocation(m, runs[i]))
    && (forall i :: 0 <= i < |runs| ==> runs[i].seg < s1 || (runs[i].seg == s1 && runs[i].to <= k1))
    && (forall s, k :: SlotOk(m, s, k) && Before(s, k, s1, k1) && m.segs[s].locs[k].Some? ==> InSome(runs, s, k))
  }

  lemma InSomeMore(runs: seq<Run>, r: Run)
    ensures forall s, k :: InSome(runs + [r], s, k) <==> InSome(runs, s, k) || InRun(r, s, k)
  {
    var t := runs + [r];
    forall s, k ensures InSome(t, s, k) <==> InSome(runs, s, k) || InRun(r, s, k) {
      if i :| 0 <= i < |runs| && InRun(runs[i], s, k) { assert InRun(t[i], s, k); }
      if InRun(r, s, k) { assert InRun(t[|runs|], s, k); }
    }
  }

  /** One more run, after slots that are not mapped. */
  lemma ListedMore(m: Map, out: seq<Location>, runs: seq<Run>, s0: int, k0: int, r: Run, l: Location)
    requires Listed(m, out, runs, s0, k0) && Blank(m, s0, k0, r.seg, r.from) && !Before(r.seg, r.from, s0, k0)
    requires Maximal(m, r) && r.from < r.to && InTable(m, r.ref) && l == RunLocation(m, r)
    ensures Listed(m, out + [l], runs + [r], r.seg, r.to)
  {
    InSomeMore(runs, r);
    forall s, k | SlotOk(m, s, k) && Before(s, k, r.seg, r.to) && m.segs[s].locs[k].Some?
      ensures InSome(runs, s, k) || InRun(r, s, k)
    {
    }
  }

  /** The iterator at slot loc of segment seg has found l, everything before slot k0 of segment s0 being listed. */
  ghost predicate AddrIterating(m: Map, out: seq<Location>, runs: seq<Run>, s0: int, k0: int, seg: int, loc: int,
                                l: Location, run: Run)
  {
    Listed(m, out, runs, s0, k0) && s0 <= |m.segs| && Found(m, s0, k0, seg, loc, l, run)
  }

  function SegmentsLeft(m: Map, s: int): nat { if s <= |m.segs| then |m.segs| - s else 0 }

  function SegmentSlotsLeft(m: Map, s: int, k: int): nat {
    if 0 <= s < |m.segs| && k <= |m.segs[s].locs| then |m.segs[s].locs| - k else 0
  }

  /** A location found is listed, and the iteration goes on after it. */
  lemma FoundListed(m: Map, out: seq<Location>, runs: seq<Run>, s0: int, k0: int, seg: int, loc: int, l: Location, run: Run)
    requires AddrIterating(m, out, runs, s0, k0, seg, loc, l, run) && l.Location?
    ensures Listed(m, out + [l], runs + [run], seg, loc + 1) && seg <= |m.segs|
    ensures SegmentsLeft(m, seg) < SegmentsLeft(m, s0)
            || (SegmentsLeft(m, seg) == SegmentsLeft(m, s0) && SegmentSlotsLeft(m, seg, loc + 1) < SegmentSlotsLeft(m, s0, k0))
  {
    ListedMore(m, out, runs, s0, k0, run, l);
  }

  lemma ListedEnd(m: Map, out: seq<Location>, runs: seq<Run>, s0: int, k0: int, k1: int)
    requires Listed(m, out, runs, s0, k0) && Blank(m, s0, k0, |m.segs|, k1) && s0 <= |m.segs|
    ensures Listed(m, out, runs, |m.segs|, 0)
  {
    forall s, k | SlotOk(m, s, k) && m.segs[s].locs[k].Some? ensures InSome(runs, s, k) {
    }
    forall i | 0 <= i < |runs| ensures runs[i].seg < |m.segs| { assert RunOk(m, runs[i]); }
  }

  /** All locations by address. */
  method AllByAddress(m: Map, ghost off: int) returns (out: seq<Location>, ghost runs: seq<Run>)
    requires Sound(m, off)
    ensures Listed(m, out, runs, |m.segs|, 0)
  {
    var it := new AddrIter(m, off);
    out, runs := [], [];
    var l: Location;
    ghost var run: Run;
    l, run := it.Find(off);
    ghost var s0, k0 := 0, 0;
    while l.Location?
      invariant it.Valid(off) && it.m == m && AddrIterating(m, out, runs, s0, k0, it.seg, it.loc, l, run)
      decreases SegmentsLeft(m, s0), SegmentSlotsLeft(m, s0, k0)
    {
      ghost var s1, k1, run1 := it.seg, it.loc + 1, run;
      var l1 := l;
      l, run := it.Next(off);
      FoundListed(m, out, runs, s0, k0, s1, k1 - 1, l1, run1);
      out, runs := out + [l1], runs + [run1];
      s0, k0 := s1, k1;
    }
    ListedEnd(m, out, runs, s0, k0, it.loc);
  }
}
