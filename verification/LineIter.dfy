/** The iteration over a line map by source line, and its agreement with the one by address. */
module LineIter {
  import opened Options
  import opened LineSegs
  import opened LineMap
  import opened LineLookup
  import opened LineAddrIter

  /** Every line in use has all its addresses in one segment. */
  ghost predicate Contained(m: Map) {
    forall u, n :: InTable(m, Ref(u, n)) && m.units[u].lines[n].used ==> DescrContained(m, m.units[u].lines[n])
  }

  predicate DescrContained(m: Map, d: Descr) {
    0 <= d.seg < |m.segs| && m.segs[d.seg].low <= d.low && d.high <= m.segs[d.seg].high
  }

  /** Every line in use that has a segment starts in it. */
  ghost predicate Startable(m: Map) {
    forall u, n :: InTable(m, Ref(u, n)) && m.units[u].lines[n].used && m.units[u].lines[n].seg >= 0 ==>
      DescrStarts(m, m.units[u].lines[n])
  }

  predicate DescrStarts(m: Map, d: Descr) {
    0 <= d.seg < |m.segs| && In(m.segs[d.seg], d.low)
  }

  /** Slot k of segment s is mapped to r, and s is the segment of r. */
  predicate HomeHas(m: Map, s: int, k: int, r: Ref) {
    SlotHas(m, s, k, r) && InTable(m, r) && DescrOf(m, r).seg == s
  }

  /** First slot of a descriptor in its segment, and the one after the last. */
  function LowSlot(m: Map, d: Descr): int
    requires m.step > 0 && 0 <= d.seg < |m.segs|
  {
    SlotAt(m.segs[d.seg], m.step, d.low)
  }

  function TopSlot(m: Map, d: Descr): int
    requires m.step > 0 && 0 <= d.seg < |m.segs|
  {
    var s := m.segs[d.seg];
    if SlotAt(s, m.step, d.high) > SlotAt(s, m.step, s.high) then SlotAt(s, m.step, s.high) else SlotAt(s, m.step, d.high)
  }

  /** The location of a run of the iteration by line: the line's end, if the run reaches its last slot. */
  function LineLocation(m: Map, r: Run): Location
    requires m.step > 0 && 0 <= r.seg < |m.segs| && InTable(m, r.ref)
  {
    var d := DescrOf(m, r.ref);
    Location(r.ref.unit, m.units[r.ref.unit].low + r.ref.num, SlotAddr(m.segs[r.seg], m.step, r.from),
             if d.seg == r.seg && r.to >= TopSlot(m, d) then d.high else SlotAddr(m.segs[r.seg], m.step, r.to))
  }

  lemma SlotOrder(s: Segment, step: int, j: int, k: int)
    requires step > 0
    ensures SlotAddr(s, step, j) < SlotAddr(s, step, k) <==> j < k
  {
    if j < k { SlotMonotone(s, step, j, k); }
    if k < j { SlotMonotone(s, step, k, j); }
  }

  /** The slots of a descriptor start with its addresses, and end with them or with the segment. */
  lemma DescrSlots(m: Map, off: int, r: Ref)
    requires Sound(m, off) && Startable(m) && InTable(m, r) && DescrOf(m, r).used && DescrOf(m, r).seg >= 0
    ensures var d := DescrOf(m, r);
            && DescrStarts(m, d) && 0 <= LowSlot(m, d) < TopSlot(m, d) <= |m.segs[d.seg].locs|
            && SlotAddr(m.segs[d.seg], m.step, LowSlot(m, d)) == d.low
            && SlotAddr(m.segs[d.seg], m.step, TopSlot(m, d)) == (if d.high <= m.segs[d.seg].high then d.high else m.segs[d.seg].high)
            && |m.segs[d.seg].locs| == SlotAt(m.segs[d.seg], m.step, m.segs[d.seg].high)
  {
    var d := DescrOf(m, r);
    assert DescrSound(m, off, r.unit, r.num);
    assert DescrStarts(m, m.units[r.unit].lines[r.num]);
    var s := m.segs[d.seg];
    assert Shaped(s, m.step, off);
    GridSlot(s, m.step, off, d.low);
    GridSlot(s, m.step, off, d.high);
    GridSlot(s, m.step, off, s.high);
    SlotOrder(s, m.step, LowSlot(m, d), SlotAt(s, m.step, d.high));
    SlotOrder(s, m.step, LowSlot(m, d), |s.locs|);
    SlotOrder(s, m.step, LowSlot(m, d), 0);
    SlotOrder(s, m.step, |s.locs|, SlotAt(s, m.step, d.high));
  }

  /** Every slot of a line in its segment is among those of its descriptor. */
  lemma SlotOfDescr(m: Map, off: int, s: int, k: int, r: Ref)
    requires Sound(m, off) && Startable(m) && HomeHas(m, s, k, r)
    ensures DescrOf(m, r).used && LowSlot(m, DescrOf(m, r)) <= k < TopSlot(m, DescrOf(m, r))
  {
    assert SlotSound(m, s, k);
    DescrSlots(m, off, r);
    assert DescrSound(m, off, r.unit, r.num);
    var d, g := DescrOf(m, r), m.segs[s];
    assert Shaped(g, m.step, off);
    SlotStarts(g, m.step, off, k);
    GridSlot(g, m.step, off, d.high);
    SlotOrder(g, m.step, k, LowSlot(m, d));
    SlotOrder(g, m.step, k, SlotAt(g, m.step, d.high));
  }

  /** The line of r is before line n of unit u. */
  predicate RefBefore(r: Ref, u: int, n: int) { r.unit < u || (r.unit == u && r.num < n) }

  /** The state of the iteration: line n of unit u, whose slots before k are done. */
  datatype Place = Place(unit: int, num: int, loc: int)

  /** Slot k of the line r comes before the place. */
  predicate Passed(p: Place, r: Ref, k: int) {
    RefBefore(r, p.unit, p.num) || (r == Ref(p.unit, p.num) && k < p.loc)
  }

  /** A line in use that has a segment. */
  predicate Live(m: Map, r: Ref) {
    InTable(m, r) && DescrOf(m, r).used && 0 <= DescrOf(m, r).seg < |m.segs|
  }

  /** The iteration has given a location of line r. */
  predicate Begun(p: Place, r: Ref) {
    RefBefore(r, p.unit, p.num) || (r == Ref(p.unit, p.num) && p.loc >= 0)
  }

  /** The run starts at the lowest slot of its line. */
  predicate FromLow(m: Map, run: Run, r: Ref) {
    m.step > 0 && Live(m, r) && run.ref == r && run.from == LowSlot(m, DescrOf(m, r))
  }

  /** Every slot passed at p' was passed at p or is in the run, which starts the line that was begun. */
  ghost predicate OnlyIn(m: Map, p: Place, p': Place, run: Run) {
    && (forall s, k, r :: HomeHas(m, s, k, r) && Passed(p', r, k) && !Passed(p, r, k) ==> r == run.ref && InRun(run, s, k))
    && (forall r :: Live(m, r) && Begun(p', r) && !Begun(p, r) ==> FromLow(m, run, r))
  }

  /** Nothing was passed or begun from p to p'. */
  ghost predicate NothingIn(m: Map, p: Place, p': Place) {
    && (forall s, k, r :: HomeHas(m, s, k, r) && Passed(p', r, k) ==> Passed(p, r, k))
    && (forall r :: Live(m, r) && Begun(p', r) ==> Begun(p, r))
  }

  /** The place is at a slot of its line, or before all of them, and no run goes on across it. */
  ghost predicate PlaceOk(m: Map, p: Place) {
    && m.step > 0 && 0 <= p.unit
    && (p.unit < |m.units| ==> 0 <= p.num)
    && (p.loc >= 0 ==>
          && InTable(m, Ref(p.unit, p.num)) && DescrOf(m, Ref(p.unit, p.num)).used
          && DescrStarts(m, DescrOf(m, Ref(p.unit, p.num)))
          && var d := DescrOf(m, Ref(p.unit, p.num));
             LowSlot(m, d) <= p.loc <= TopSlot(m, d) && !SlotHas(m, d.seg, p.loc, Ref(p.unit, p.num)))
  }

  /** The answer of an iterator that was at p and is now at p'. */
  ghost predicate LineFound(m: Map, p: Place, p': Place, l: Location, run: Run) {
    if l.NoLocation? then p'.unit == |m.units| && NothingIn(m, p, p')
    else
      && m.step > 0 && HomeRun(m, run) && l == LineLocation(m, run)
      && run.ref == Ref(p'.unit, p'.num) && run.to == p'.loc
      && !RefBefore(run.ref, p.unit, p.num) && (run.ref == Ref(p.unit, p.num) ==> p.loc < run.from || p.loc < 0)
      && OnlyIn(m, p, p', run)
  }

  /** The iterator went from p to p1 at the start of a line, or stayed. */
  predicate Reached(p: Place, p1: Place) {
    p1 == p || (p1.loc < 0 && (p.unit < p1.unit || (p.unit == p1.unit && p.num < p1.num)))
  }

  /** Going on from p1, reached from p without passing anything. */
  lemma FoundLater(m: Map, p: Place, p1: Place, p': Place, l: Location, run: Run)
    requires NothingIn(m, p, p1) && LineFound(m, p1, p', l, run)
    requires Reached(p, p1)
    ensures LineFound(m, p, p', l, run)
  {}

  /** No slot of line r is at loc or after. */
  ghost predicate Exhausted(m: Map, r: Ref, loc: int) {
    forall s, k :: HomeHas(m, s, k, r) ==> k < loc
  }

  /** Done with the line of p. */
  lemma LineDone(m: Map, p: Place, p1: Place)
    requires NothingIn(m, p, p1) && Exhausted(m, Ref(p1.unit, p1.num), p1.loc)
    requires Live(m, Ref(p1.unit, p1.num)) ==> p1.loc >= 0
    ensures NothingIn(m, p, Place(p1.unit, p1.num + 1, -1))
  {
    var p2 := Place(p1.unit, p1.num + 1, -1);
    forall s, k, r | HomeHas(m, s, k, r) && Passed(p2, r, k) ensures Passed(p, r, k) {
      assert Passed(p1, r, k);
    }
    forall r | Live(m, r) && Begun(p2, r) ensures Begun(p, r) {
      assert Begun(p1, r);
    }
  }

  lemma HasInTable(m: Map, off: int, s: int, k: int, r: Ref)
    requires Sound(m, off) && SlotHas(m, s, k, r)
    ensures InTable(m, r) && DescrOf(m, r).used
  {
    assert SlotSound(m, s, k);
  }

  /** Done with the last line of p1's unit. */
  lemma UnitDone(m: Map, off: int, p: Place, p1: Place)
    requires Sound(m, off) && NothingIn(m, p, p1) && 0 <= p1.unit < |m.units|
    requires p1.num == |m.units[p1.unit].lines| - 1 && p1.loc < 0
    ensures NothingIn(m, p, Place(p1.unit + 1, 0, p1.loc))
  {
    var p2 := Place(p1.unit + 1, 0, p1.loc);
    forall s, k, r | HomeHas(m, s, k, r) && Passed(p2, r, k) ensures Passed(p, r, k) {
      HasInTable(m, off, s, k, r);
      assert Passed(p1, r, k);
    }
    forall r | Live(m, r) && Begun(p2, r) ensures Begun(p, r) {
      assert Begun(p1, r);
    }
  }

  /** Where the next slots of a line start. */
  ghost predicate StartsAt(m: Map, r: Ref, d: Descr, loc: int, from: int)
    requires m.step > 0 && 0 <= d.seg < |m.segs|
  {
    && LowSlot(m, d) <= from <= TopSlot(m, d)
    && (if loc < 0 then from == LowSlot(m, d) else loc <= from && SlotHas(m, d.seg, from, r))
    && (forall k :: loc <= k < from && loc >= 0 ==> !SlotHas(m, d.seg, k, r))
  }

  /** Where they end. */
  predicate EndsAt(m: Map, r: Ref, d: Descr, from: int, to: int)
    requires m.step > 0 && 0 <= d.seg < |m.segs|
  {
    && 0 <= from <= to <= TopSlot(m, d) <= |m.segs[d.seg].locs|
    && (forall k :: from <= k < to ==> SlotHas(m, d.seg, k, r))
    && (to < TopSlot(m, d) ==> !SlotHas(m, d.seg, to, r))
  }

  lemma FoundMaximal(m: Map, off: int, r: Ref, d: Descr, loc: int, from: int, to: int)
    requires Sound(m, off) && Startable(m) && InTable(m, r) && DescrOf(m, r) == d && d.used && DescrStarts(m, d)
    requires loc >= 0 ==> !SlotHas(m, d.seg, loc, r)
    requires StartsAt(m, r, d, loc, from) && EndsAt(m, r, d, from, to)
    ensures Maximal(m, Run(d.seg, from, to, r)) && !SlotHas(m, d.seg, to, r) && (loc < from || loc < 0)
  {
    if SlotHas(m, d.seg, to, r) { SlotOfDescr(m, off, d.seg, to, r); }
    if SlotHas(m, d.seg, from - 1, r) { SlotOfDescr(m, off, d.seg, from - 1, r); }
  }

  lemma FoundOnly(m: Map, off: int, r: Ref, d: Descr, loc: int, from: int, to: int)
    requires Sound(m, off) && Startable(m) && InTable(m, r) && DescrOf(m, r) == d && d.used && DescrStarts(m, d)
    requires StartsAt(m, r, d, loc, from)
    ensures OnlyIn(m, Place(r.unit, r.num, loc), Place(r.unit, r.num, to), Run(d.seg, from, to, r))
  {
    var p, p' := Place(r.unit, r.num, loc), Place(r.unit, r.num, to);
    forall s, k, q | HomeHas(m, s, k, q) && Passed(p', q, k) && !Passed(p, q, k)
      ensures q == r && InRun(Run(d.seg, from, to, r), s, k)
    {
      SlotOfDescr(m, off, s, k, q);
    }
  }

  /** The answer for a line, from where its next slots start and end. */
  lemma FoundInLine(m: Map, off: int, r: Ref, d: Descr, loc: int, from: int, to: int)
    requires Sound(m, off) && Startable(m) && InTable(m, r) && DescrOf(m, r) == d && d.used && DescrStarts(m, d)
    requires PlaceOk(m, Place(r.unit, r.num, loc))
    requires StartsAt(m, r, d, loc, from) && EndsAt(m, r, d, from, to)
    ensures var p, p', run := Place(r.unit, r.num, loc), Place(r.unit, r.num, to), Run(d.seg, from, to, r);
            LineFound(m, p, p', LineLocation(m, run), run) && PlaceOk(m, p')
  {
    FoundMaximal(m, off, r, d, loc, from, to);
    FoundOnly(m, off, r, d, loc, from, to);
    DescrSlots(m, off, r);
  }

  /** The first slot from k on that holds r, or top. */
  method SkipOthers(locs: seq<Option<Ref>>, k: int, top: int, r: Ref) returns (j: int)
    requires 0 <= k <= top <= |locs|
    ensures k <= j <= top && (forall i :: k <= i < j ==> locs[i] != Some(r)) && (j < top ==> locs[j] == Some(r))
  {
    j := k;
    while j < top && locs[j] != Some(r)
      invariant k <= j <= top && forall i :: k <= i < j ==> locs[i] != Some(r)
    {
      j := j + 1;
    }
  }

  /** The first slot from k on that does not hold r, or top. */
  method SkipSame(locs: seq<Option<Ref>>, k: int, top: int, r: Ref) returns (j: int)
    requires 0 <= k <= top <= |locs|
    ensures k <= j <= top && (forall i :: k <= i < j ==> locs[i] == Some(r)) && (j < top ==> locs[j] != Some(r))
  {
    j := k;
    while j < top && locs[j] == Some(r)
      invariant k <= j <= top && forall i :: k <= i < j ==> locs[i] == Some(r)
    {
      j := j + 1;
    }
  }

  class LineIter {
    const m: Map
    var unit: int
    var line: int
    var loc: int

    function At(): Place
      reads this
    {
      Place(unit, if 0 <= unit < |m.units| then line - m.units[unit].low else 0, loc)
    }

    ghost predicate Valid(off: int)
      reads this
    {
      && Sound(m, off) && Startable(m) && 0 <= unit <= |m.units| && -1 <= loc
      && (unit < |m.units| ==> m.units[unit].low <= line <= m.units[unit].high + 1)
      && PlaceOk(m, At())
    }

    constructor (m: Map, ghost off: int)
      requires Sound(m, off) && Startable(m)
      ensures this.m == m && Valid(off) && At() == Place(0, 0, -1)
    {
      this.m := m;
      unit := 0;
      line := if |m.units| > 0 then m.units[0].low else 0;
      loc := -1;
    }

    /** Finds the next run of the current line; not found when there is none left. */
    method InLine(ghost off: int) returns (found: bool, l: Location, ghost run: Run)
      requires Valid(off) && unit < |m.units| && line <= m.units[unit].high
      requires m.units[unit].lines[line - m.units[unit].low].used && m.units[unit].lines[line - m.units[unit].low].seg >= 0
      modifies `loc
      ensures found ==> Valid(off) && l.Location? && LineFound(m, old(At()), At(), l, run)
      ensures !found ==> loc == old(loc) >= 0 && Exhausted(m, Ref(unit, line - m.units[unit].low), loc)
    {
      var r := Ref(unit, line - m.units[unit].low);
      DescrSlots(m, off, r);
      var to;
      found, l, to, run := NextInLine(m, off, r, m.units[unit].lines[r.num], loc);
      if found { loc := to; }
    }

    /** Goes to the next line. */
    method NextLine(ghost off: int, ghost p: Place)
      requires Valid(off) && unit < |m.units| && line <= m.units[unit].high && NothingIn(m, p, At()) && Reached(p, At())
      requires Exhausted(m, Ref(At().unit, At().num), loc) && (Live(m, Ref(At().unit, At().num)) ==> loc >= 0)
      modifies this
      ensures Valid(off) && unit == old(unit) && line == old(line) + 1 && loc == -1
      ensures NothingIn(m, p, At()) && Reached(p, At())
    {
      LineDone(m, p, At());
      line := line + 1;
      loc := -1;
    }

    /** Looks for a location of the current line; without one, goes to the next line. */
    method TryLine(ghost off: int, ghost p: Place) returns (found: bool, l: Location, ghost run: Run)
      requires Valid(off) && unit < |m.units| && line <= m.units[unit].high && NothingIn(m, p, At()) && Reached(p, At())
      modifies this
      ensures Valid(off) && unit == old(unit)
      ensures found ==> LineFound(m, p, At(), l, run)
      ensures !found ==> line == old(line) + 1 && loc == -1 && NothingIn(m, p, At()) && Reached(p, At())
    {
      var d := m.units[unit].lines[line - m.units[unit].low];
      ghost var p1 := At();
      found, l, run := false, NoLocation, Run(0, 0, 0, Ref(0, 0));
      if d.used && d.seg >= 0 {
        found, l, run := InLine(off);
        if found {
          FoundLater(m, p, p1, At(), l, run);
          return;
        }
      } else {
        NoSlots(m, off, Ref(unit, line - m.units[unit].low));
      }
      NextLine(off, p);
    }

    /** Finds the next location. */
    method Find(ghost off: int) returns (l: Location, ghost run: Run)
      requires Valid(off)
      modifies this
      ensures Valid(off) && LineFound(m, old(At()), At(), l, run)
    {
      ghost var p := At();
      while unit < |m.units|
        invariant Valid(off) && NothingIn(m, p, At()) && Reached(p, At())
        decreases |m.units| - unit
      {
        ghost var unit0 := unit;
        while line <= m.units[unit].high
          invariant unit == unit0 && Valid(off) && NothingIn(m, p, At()) && Reached(p, At())
          decreases m.units[unit].high - line
        {
          var found;
          found, l, run := TryLine(off, p);
          if found { return; }
        }
        UnitDone(m, off, p, At());
        unit := unit + 1;
        if unit < |m.units| { line := m.units[unit].low; }
      }
      return NoLocation, Run(0, 0, 0, Ref(0, 0));
    }
  }

  /** A line that is not in use has no slot. */
  lemma NoSlots(m: Map, off: int, r: Ref)
    requires Sound(m, off) && Startable(m) && InTable(m, r) && !(DescrOf(m, r).used && DescrOf(m, r).seg >= 0)
    ensures Exhausted(m, r, -1)
  {
    forall s, k | HomeHas(m, s, k, r) ensures false {
      SlotOfDescr(m, off, s, k, r);
    }
  }

  /** The slot of line r its next slots start at, from slot loc on, or its lowest slot if loc < 0. */
  method StartInLine(m: Map, ghost off: int, r: Ref, d: Descr, loc: int) returns (found: bool, from: int)
    requires Sound(m, off) && Startable(m) && InTable(m, r) && DescrOf(m, r) == d && d.used
    requires PlaceOk(m, Place(r.unit, r.num, loc)) && DescrStarts(m, d)
    ensures if found then StartsAt(m, r, d, loc, from) else loc >= 0 && Exhausted(m, r, loc)
  {
    DescrSlots(m, off, r);
    var s := m.segs[d.seg];
    found, from := true, loc;
    if loc < 0 {
      SlotFormulas(s, m.step, 0, d.low);
      from := (d.low - s.low) / m.step;
    } else {
      var top := SlotLimit(m, s, d);
      from := SkipOthers(s.locs, loc, top, r);
      found := from < top;
      if !found { NoneLeft(m, off, r, loc); }
    }
  }

  /** The slot after the last of a descriptor, or of its segment. */
  method SlotLimit(m: Map, s: Segment, d: Descr) returns (top: int)
    requires m.step > 0
    ensures 0 <= d.seg < |m.segs| && s == m.segs[d.seg] ==> top == TopSlot(m, d)
  {
    SlotFormulas(s, m.step, 0, d.high);
    SlotFormulas(s, m.step, 0, s.high);
    top := (d.high - s.low) / m.step;
    var maxTop := (s.high - s.low) / m.step;
    if top > maxTop { top := maxTop; }
  }

  /** The slots of line r from slot from on, and their location: it ends with the line's addresses if
      they reach their last slot. */
  method EndInLine(m: Map, ghost off: int, r: Ref, d: Descr, from: int) returns (l: Location, to: int)
    requires Sound(m, off) && Startable(m) && InTable(m, r) && DescrOf(m, r) == d && d.used && DescrStarts(m, d)
    requires 0 <= from <= TopSlot(m, d)
    ensures EndsAt(m, r, d, from, to) && l == LineLocation(m, Run(d.seg, from, to, r))
  {
    DescrSlots(m, off, r);
    var s := m.segs[d.seg];
    var top := SlotLimit(m, s, d);
    to := SkipSame(s.locs, from, top, r);
    SlotFormulas(s, m.step, to, 0);
    SlotFormulas(s, m.step, from, 0);
    var high := if to >= top then d.high else to * m.step + s.low;
    l := Location(r.unit, m.units[r.unit].low + r.num, from * m.step + s.low, high);
  }

  /** The next location of line r, from slot loc on, or from its lowest slot if loc < 0. */
  method NextInLine(m: Map, ghost off: int, r: Ref, d: Descr, loc: int)
    returns (found: bool, l: Location, to: int, ghost run: Run)
    requires Sound(m, off) && Startable(m) && InTable(m, r) && DescrOf(m, r) == d && d.used
    requires PlaceOk(m, Place(r.unit, r.num, loc)) && DescrStarts(m, d)
    ensures !found ==> loc >= 0 && Exhausted(m, r, loc)
    ensures found ==> to >= 0 && l.Location? && PlaceOk(m, Place(r.unit, r.num, to))
    ensures found ==> LineFound(m, Place(r.unit, r.num, loc), Place(r.unit, r.num, to), l, run)
  {
    var from;
    found, from := StartInLine(m, off, r, d, loc);
    to, l, run := from, NoLocation, Run(d.seg, from, from, r);
    if found {
      DescrSlots(m, off, r);
      l, to := EndInLine(m, off, r, d, from);
      run := Run(d.seg, from, to, r);
      FoundInLine(m, off, r, d, loc, from, to);
    }
  }

  lemma NoneLeft(m: Map, off: int, r: Ref, loc: int)
    requires Sound(m, off) && Startable(m) && InTable(m, r) && DescrOf(m, r).used && DescrStarts(m, DescrOf(m, r))
    requires forall k :: loc <= k < TopSlot(m, DescrOf(m, r)) ==> !SlotHas(m, DescrOf(m, r).seg, k, r)
    ensures Exhausted(m, r, loc)
  {
    forall s, k | HomeHas(m, s, k, r) ensures k < loc { SlotOfDescr(m, off, s, k, r); }
  }

  // ---- the whole iteration ----

  /** Runs found line after line. */
  ghost predicate LineAscending(runs: seq<Run>) {
    forall i, j :: 0 <= i < j < |runs| ==>
      RefBefore(runs[i].ref, runs[j].ref.unit, runs[j].ref.num)
      || (runs[i].ref == runs[j].ref && runs[i].to < runs[j].from)
  }

  ghost predicate InSomeOf(runs: seq<Run>, s: int, k: int, r: Ref) {
    exists i :: 0 <= i < |runs| && runs[i].ref == r && InRun(runs[i], s, k)
  }

  ghost predicate AllPassed(m: Map, runs: seq<Run>, p: Place) {
    forall s, k, r :: HomeHas(m, s, k, r) && Passed(p, r, k) ==> InSomeOf(runs, s, k, r)
  }

  /** The runs are of lines before the place, or before it on its line. */
  ghost predicate RunsPassed(runs: seq<Run>, p: Place) {
    forall i :: 0 <= i < |runs| ==>
      RefBefore(runs[i].ref, p.unit, p.num) || (runs[i].ref == Ref(p.unit, p.num) && runs[i].to <= p.loc)
  }

  /** The locations out are those of the runs. */
  ghost predicate LineLocations(m: Map, out: seq<Location>, runs: seq<Run>)
    requires m.step > 0
  {
    && |out| == |runs|
    && forall i :: 0 <= i < |runs| ==> HomeRun(m, runs[i]) && out[i] == LineLocation(m, runs[i])
  }

  /** A longest run in the segment of its line, empty only at the lowest slot of the line. */
  ghost predicate HomeRun(m: Map, run: Run)
    requires m.step > 0
  {
    && Maximal(m, run) && InTable(m, run.ref) && DescrOf(m, run.ref).used && DescrOf(m, run.ref).seg == run.seg
    && LowSlot(m, DescrOf(m, run.ref)) <= run.from <= run.to <= TopSlot(m, DescrOf(m, run.ref))
    && (run.from == run.to ==> FromLow(m, run, run.ref))
  }

  ghost predicate LineListed(m: Map, out: seq<Location>, runs: seq<Run>, p: Place) {
    && m.step > 0 && LineLocations(m, out, runs) && LineAscending(runs) && RunsPassed(runs, p) && AllPassed(m, runs, p)
    && AllBegun(m, runs, p)
  }

  /** Some run starts at the lowest slot of line r. */
  ghost predicate HasStart(m: Map, runs: seq<Run>, r: Ref) {
    exists i :: 0 <= i < |runs| && FromLow(m, runs[i], r)
  }

  ghost predicate AllBegun(m: Map, runs: seq<Run>, p: Place) {
    forall r :: Live(m, r) && Begun(p, r) ==> HasStart(m, runs, r)
  }

  /** So it does for every line in use that has a segment. */
  ghost predicate EachStarts(m: Map, runs: seq<Run>) {
    forall r :: Live(m, r) ==> HasStart(m, runs, r)
  }

  lemma BegunMore(m: Map, runs: seq<Run>, p: Place, p': Place, run: Run)
    requires AllBegun(m, runs, p) && OnlyIn(m, p, p', run)
    ensures AllBegun(m, runs + [run], p')
  {
    var t := runs + [run];
    forall r | Live(m, r) && Begun(p', r) ensures HasStart(m, t, r) {
      if Begun(p, r) {
        var i :| 0 <= i < |runs| && FromLow(m, runs[i], r);
        assert FromLow(m, t[i], r);
      } else {
        assert FromLow(m, t[|runs|], r);
      }
    }
  }

  lemma PassedMore(m: Map, runs: seq<Run>, p: Place, p': Place, run: Run)
    requires AllPassed(m, runs, p) && OnlyIn(m, p, p', run)
    ensures AllPassed(m, runs + [run], p')
  {
    var t := runs + [run];
    forall s, k, r | HomeHas(m, s, k, r) && Passed(p', r, k) ensures InSomeOf(t, s, k, r) {
      if Passed(p, r, k) {
        var i :| 0 <= i < |runs| && runs[i].ref == r && InRun(runs[i], s, k);
        assert t[i] == runs[i];
      } else {
        assert t[|runs|] == run;
      }
    }
  }

  lemma LineListedMore(m: Map, out: seq<Location>, runs: seq<Run>, p: Place, p': Place, l: Location, run: Run)
    requires LineListed(m, out, runs, p) && l.Location? && LineFound(m, p, p', l, run) && 0 <= run.from
    ensures LineListed(m, out + [l], runs + [run], p')
  {
    PassedMore(m, runs, p, p', run);
    BegunMore(m, runs, p, p', run);
    OrderMore(m, runs, p, p', run);
  }

  lemma OrderMore(m: Map, runs: seq<Run>, p: Place, p': Place, run: Run)
    requires LineAscending(runs) && RunsPassed(runs, p) && 0 <= run.from <= run.to
    requires run.ref == Ref(p'.unit, p'.num) && run.to == p'.loc
    requires !RefBefore(run.ref, p.unit, p.num) && (run.ref == Ref(p.unit, p.num) ==> p.loc < run.from || p.loc < 0)
    requires forall i :: 0 <= i < |runs| ==> 0 <= runs[i].from <= runs[i].to
    ensures LineAscending(runs + [run]) && RunsPassed(runs + [run], p')
  {}

  lemma PassedStart(m: Map, off: int)
    requires Sound(m, off)
    ensures AllPassed(m, [], Place(0, 0, -1)) && AllBegun(m, [], Place(0, 0, -1))
  {
    forall s, k, r | HomeHas(m, s, k, r) && Passed(Place(0, 0, -1), r, k) ensures false {
      HasInTable(m, off, s, k, r);
    }
  }

  lemma PassedEnd(m: Map, off: int, runs: seq<Run>, p: Place, p': Place)
    requires Sound(m, off) && AllPassed(m, runs, p) && AllBegun(m, runs, p) && NothingIn(m, p, p') && p'.unit == |m.units|
    ensures forall s, k, r :: HomeHas(m, s, k, r) ==> InSomeOf(runs, s, k, r)
    ensures EachStarts(m, runs)
  {
    forall r | Live(m, r) ensures HasStart(m, runs, r) {
      assert Begun(p', r);
    }
    forall s, k, r | HomeHas(m, s, k, r) ensures InSomeOf(runs, s, k, r) {
      HasInTable(m, off, s, k, r);
      assert Passed(p', r, k);
    }
  }

  /** Every mapped slot is in a run of its line. */
  ghost predicate HomeListed(m: Map, runs: seq<Run>) {
    forall s, k, r :: HomeHas(m, s, k, r) ==> InSomeOf(runs, s, k, r)
  }

  /** How far a place is from the end: units, lines of its unit and slots of its line. */
  function UnitsLeft(m: Map, p: Place): nat { if p.unit <= |m.units| then |m.units| - p.unit else 0 }

  function LinesLeft(m: Map, p: Place): nat {
    if 0 <= p.unit < |m.units| && p.num <= |m.units[p.unit].lines| then |m.units[p.unit].lines| - p.num else 0
  }

  function SlotsLeft(m: Map, p: Place): nat
    requires m.step > 0
  {
    if !InTable(m, Ref(p.unit, p.num)) || !(0 <= DescrOf(m, Ref(p.unit, p.num)).seg < |m.segs|) then 0
    else
      var top := TopSlot(m, DescrOf(m, Ref(p.unit, p.num)));
      if p.loc < 0 then (if top < -1 then 0 else top + 1) else if p.loc <= top then top - p.loc else 0
  }

  /** A place nearer to the end. */
  predicate Nearer(m: Map, p: Place, q: Place)
    requires m.step > 0
  {
    || UnitsLeft(m, q) < UnitsLeft(m, p)
    || (UnitsLeft(m, q) == UnitsLeft(m, p)
        && (LinesLeft(m, q) < LinesLeft(m, p) || (LinesLeft(m, q) == LinesLeft(m, p) && SlotsLeft(m, q) < SlotsLeft(m, p))))
  }

  /** Each location found brings the iteration nearer to the end. */
  lemma FoundNearer(m: Map, p: Place, q: Place, l: Location, run: Run)
    requires m.step > 0 && PlaceOk(m, p) && PlaceOk(m, q) && 0 <= q.loc && p.unit <= |m.units|
    requires l.Location? && LineFound(m, p, q, l, run)
    ensures Nearer(m, p, q)
  {
    var d := DescrOf(m, Ref(q.unit, q.num));
    assert LowSlot(m, d) <= q.loc <= TopSlot(m, d);
    if q.unit == p.unit && q.num == p.num {
      assert p.loc < q.loc;
    } else {
      assert q.unit > p.unit || (q.unit == p.unit && q.num > p.num);
    }
  }

  /** The iterator at q has found l, the last place being p. */
  ghost predicate Iterating(m: Map, out: seq<Location>, runs: seq<Run>, p: Place, q: Place, l: Location, run: Run) {
    LineListed(m, out, runs, p) && LineFound(m, p, q, l, run) && PlaceOk(m, p) && p.unit <= |m.units|
  }

  lemma IterationStep(m: Map, out: seq<Location>, runs: seq<Run>, p: Place, q: Place, l: Location, run: Run)
    requires Iterating(m, out, runs, p, q, l, run) && PlaceOk(m, q) && l.Location?
    ensures LineListed(m, out + [l], runs + [run], q) && Nearer(m, p, q)
  {
    assert 0 <= run.from <= run.to;
    LineListedMore(m, out, runs, p, q, l, run);
    FoundNearer(m, p, q, l, run);
  }

  lemma IterationEnd(m: Map, off: int, out: seq<Location>, runs: seq<Run>, p: Place, q: Place, l: Location, run: Run)
    requires Sound(m, off) && Iterating(m, out, runs, p, q, l, run) && l.NoLocation?
    ensures LineLocations(m, out, runs) && LineAscending(runs) && HomeListed(m, runs) && EachStarts(m, runs)
  {
    PassedEnd(m, off, runs, p, q);
  }

  /** All locations by line. */
  method AllByLine(m: Map, ghost off: int) returns (out: seq<Location>, ghost runs: seq<Run>)
    requires Sound(m, off) && Startable(m)
    ensures LineLocations(m, out, runs) && LineAscending(runs) && HomeListed(m, runs) && EachStarts(m, runs)
  {
    var it := new LineIter(m, off);
    out, runs := [], [];
    ghost var p, run := it.At(), Run(0, 0, 0, Ref(0, 0));
    PassedStart(m, off);
    var l;
    l, run := it.Find(off);
    while l.Location?
      invariant it.Valid(off) && it.m == m && Iterating(m, out, runs, p, it.At(), l, run)
      decreases UnitsLeft(m, p), LinesLeft(m, p), SlotsLeft(m, p)
    {
      IterationStep(m, out, runs, p, it.At(), l, run);
      out, runs := out + [l], runs + [run];
      p := it.At();
      l, run := it.Find(off);
    }
    IterationEnd(m, off, out, runs, p, it.At(), l, run);
  }

  // ---- the two iterations agree ----

  /** The runs of the iteration by line are all the runs there are, in one order only. */
  lemma RunListed(m: Map, out: seq<Location>, runs: seq<Run>, run: Run)
    requires m.step > 0 && LineLocations(m, out, runs) && HomeListed(m, runs) && EachStarts(m, runs) && HomeRun(m, run)
    ensures run in runs
  {
    if run.from < run.to {
      assert SlotHas(m, run.seg, run.from, run.ref);
      assert HomeHas(m, run.seg, run.from, run.ref);
      var i :| 0 <= i < |runs| && runs[i].ref == run.ref && InRun(runs[i], run.seg, run.from);
      MaximalUnique(m, run, runs[i], run.from);
    } else {
      assert Live(m, run.ref);
      var i :| 0 <= i < |runs| && FromLow(m, runs[i], run.ref);
      assert runs[i].from < runs[i].to ==> SlotHas(m, run.seg, run.to, run.ref);
      assert runs[i] == run;
    }
  }

  lemma RunsExactly(m: Map, out: seq<Location>, runs: seq<Run>)
    requires m.step > 0 && LineLocations(m, out, runs) && HomeListed(m, runs) && EachStarts(m, runs)
    ensures forall run :: run in runs <==> HomeRun(m, run)
  {
    forall run | HomeRun(m, run) ensures run in runs { RunListed(m, out, runs, run); }
  }

  /** Two maximal runs of the same line that share a slot are the same. */
  lemma MaximalUnique(m: Map, a: Run, b: Run, k: int)
    requires Maximal(m, a) && Maximal(m, b) && a.seg == b.seg && a.ref == b.ref && InRun(a, a.seg, k) && InRun(b, b.seg, k)
    ensures a == b
  {
    assert InRun(a, a.seg, b.from - 1) ==> SlotHas(m, a.seg, b.from - 1, a.ref);
    assert InRun(b, b.seg, a.from - 1) ==> SlotHas(m, b.seg, a.from - 1, b.ref);
    assert InRun(b, b.seg, a.to) ==> SlotHas(m, b.seg, a.to, b.ref);
    assert InRun(a, a.seg, b.to) ==> SlotHas(m, a.seg, b.to, a.ref);
  }

  /** The locations out are those of the runs, and end with their slots. */
  ghost predicate Locations(m: Map, out: seq<Location>, runs: seq<Run>) {
    && |out| == |runs|
    && forall i :: 0 <= i < |runs| ==>
         Maximal(m, runs[i]) && InTable(m, runs[i].ref) && out[i] == RunLocation(m, runs[i])
  }

  /** Every mapped slot is in a run of its line. */
  ghost predicate AllListed(m: Map, runs: seq<Run>) {
    forall s, k, r :: SlotHas(m, s, k, r) ==> InSomeOf(runs, s, k, r)
  }

  lemma ContainedStartable(m: Map, off: int)
    requires Sound(m, off) && Contained(m)
    ensures Startable(m)
  {
    forall u, n | InTable(m, Ref(u, n)) && m.units[u].lines[n].used ensures DescrStarts(m, m.units[u].lines[n]) {
      assert DescrSound(m, off, u, n);
    }
  }

  /** When lines keep to one segment, all their slots are there, and their locations end with their slots. */
  lemma ContainedAll(m: Map, off: int, out: seq<Location>, runs: seq<Run>)
    requires Sound(m, off) && Contained(m) && LineLocations(m, out, runs) && HomeListed(m, runs)
    ensures Locations(m, out, runs) && AllListed(m, runs)
  {
    ContainedStartable(m, off);
    forall s, k, r | SlotHas(m, s, k, r) ensures InSomeOf(runs, s, k, r) {
      HomeOfAll(m, off, s, k, r);
    }
    forall i | 0 <= i < |runs| ensures out[i] == RunLocation(m, runs[i]) {
      LocationOfRun(m, off, runs[i]);
    }
  }

  lemma HomeOfAll(m: Map, off: int, s: int, k: int, r: Ref)
    requires Sound(m, off) && Contained(m) && SlotHas(m, s, k, r)
    ensures HomeHas(m, s, k, r)
  {
    assert SlotSound(m, s, k);
    var d := DescrOf(m, r);
    assert DescrContained(m, m.units[r.unit].lines[r.num]);
    var a := SlotAddr(m.segs[s], m.step, k);
    assert Shaped(m.segs[s], m.step, off);
    SlotStarts(m.segs[s], m.step, off, k);
    assert In(m.segs[d.seg], a);
    SegIs(m.segs, s, a);
    SegIs(m.segs, d.seg, a);
  }

  lemma LocationOfRun(m: Map, off: int, run: Run)
    requires Sound(m, off) && Contained(m) && Startable(m) && Maximal(m, run) && InTable(m, run.ref)
    requires DescrOf(m, run.ref).used && DescrOf(m, run.ref).seg == run.seg && run.to <= TopSlot(m, DescrOf(m, run.ref))
    ensures LineLocation(m, run) == RunLocation(m, run)
  {
    assert DescrContained(m, m.units[run.ref.unit].lines[run.ref.num]);
    DescrSlots(m, off, run.ref);
  }

  /** Both iterations give the same runs; the one by line may add empty ones. */
  lemma SameRuns(m: Map, outA: seq<Location>, byAddr: seq<Run>, outL: seq<Location>, byLine: seq<Run>)
    requires Listed(m, outA, byAddr, |m.segs|, 0)
    requires Locations(m, outL, byLine) && AllListed(m, byLine)
    ensures forall r :: r in byAddr <==> r in byLine && r.from < r.to
  {
    forall r | r in byAddr ensures r in byLine && r.from < r.to {
      assert SlotHas(m, r.seg, r.from, r.ref);
      assert InSomeOf(byLine, r.seg, r.from, r.ref);
      var i :| 0 <= i < |byLine| && byLine[i].ref == r.ref && InRun(byLine[i], r.seg, r.from);
      MaximalUnique(m, r, byLine[i], r.from);
    }
    forall r | r in byLine && r.from < r.to ensures r in byAddr {
      assert SlotHas(m, r.seg, r.from, r.ref);
      assert InSome(byAddr, r.seg, r.from);
      var i :| 0 <= i < |byAddr| && InRun(byAddr[i], r.seg, r.from);
      assert SlotHas(m, byAddr[i].seg, r.from, byAddr[i].ref);
      MaximalUnique(m, r, byAddr[i], r.from);
    }
  }
}
