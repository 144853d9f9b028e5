/** From the bytes of a line-number program to the line of an address. */
module LineWhole {
  import opened Arith
  import opened Options
  import opened LineSegs
  import opened Leb128
  import opened LineProgram
  import opened LineReader
  import opened LineStandard
  import opened LineRows
  import opened LinePool
  import opened LineEmitted
  import opened LineMap
  import opened LineLookup

  /** The end of row i: the next row's address, or one step if the next row does not advance. */
  function RowTop(rows: seq<Emitted>, i: nat, step: int): int
    requires i + 1 < |rows|
  {
    if rows[i + 1].address <= rows[i].address then rows[i].address + step else rows[i + 1].address
  }

  /** Row i is about address a. */
  predicate RowCovers(rows: seq<Emitted>, i: nat, step: int, a: int) {
    i + 1 < |rows| && rows[i].line != 0 && rows[i].address <= a < RowTop(rows, i, step)
  }

  /** It is the last one that is. */
  predicate LastCovers(rows: seq<Emitted>, i: nat, step: int, a: int) {
    RowCovers(rows, i, step, a) && forall j :: i < j < |rows| ==> !RowCovers(rows, j, step, a)
  }

  function ToRows(rows: seq<Emitted>, bits: Flags -> int): seq<Row> {
    seq(|rows|, i requires 0 <= i < |rows| => ToRow(rows[i], bits))
  }

  /** The rows of the table field by field. */
  ghost predicate RowsFrom(rows: seq<Row>, es: seq<Emitted>, bits: Flags -> int) {
    && |rows| == |es|
    && forall i :: 0 <= i < |rows| ==>
         && rows[i].unit == es[i].file - 1 && rows[i].line == Mod32(es[i].line) && rows[i].addr == es[i].address
         && rows[i].flags == bits(es[i].flags) && rows[i].isa == es[i].isa
  }

  lemma RowsMapped(es: seq<Emitted>, bits: Flags -> int)
    ensures RowsFrom(ToRows(es, bits), es, bits)
  {}

  predicate LinesFit32(rows: seq<Emitted>) {
    forall i :: 0 <= i < |rows| ==> -0x8000_0000 <= rows[i].line < 0x8000_0000
  }

  /** The rows of a program that fits the reader have lines of 32 bits. */
  lemma {:induction false} StdLines(h: Header, r: Regs, ops: seq<Op>, i: nat)
    requires HeaderOk(h) && i <= |ops| && RegsFit(r) && Narrow(h, r, ops, i)
    ensures LinesFit32(StdRows(h, r, ops, i))
    decreases |ops| - i
  {
    if i < |ops| { StdLines(h, StdExec(h, r, ops[i]), ops, i + 1); }
  }

  ghost predicate AllOnGrid(rows: seq<Emitted>, step: int, off: int)
    requires step > 0
  {
    forall i :: 0 <= i < |rows| ==> OnGrid(rows[i].address, step, off)
  }

  /** The rows kept are some of the rows. */
  lemma {:induction false} KeptAre(rows: seq<Emitted>, files: nat, step: int, off: int)
    requires step > 0
    ensures LinesFit32(rows) ==> LinesFit32(Kept(rows, files))
    ensures AllOnGrid(rows, step, off) ==> AllOnGrid(Kept(rows, files), step, off)
  {
    if rows != [] { KeptAre(rows[1..], files, step, off); }
  }

  /** A row of the table covers what the emitted row does. */
  lemma CoversSame(rows: seq<Emitted>, x: Table, bits: Flags -> int, i: nat, a: int)
    requires x.rows == ToRows(rows, bits) && LinesFit32(rows)
    ensures Covers(x, i, a) <==> RowCovers(rows, i, x.step, a)
  {
    if i < |rows| {
      if rows[i].line != 0 { LineNonZero(rows[i].line); } else { SmallMod(0); }
    }
  }

  /** Segments with one empty slot a step. */
  ghost predicate EmptySegments(segs: seq<Segment>, step: int, off: int) {
    && step > 0 && AllShaped(segs, step, off) && Disjoint(segs)
    && forall s, k :: 0 <= s < |segs| && 0 <= k < |segs[s].locs| ==> segs[s].locs[k] == None
  }

  lemma TableReady(rows: seq<Emitted>, low: seq<int>, high: seq<int>, segs: seq<Segment>, step: int, off: int, bits: Flags -> int)
    requires RangesOk(rows, low, high) && LinesFit32(rows) && EmptySegments(segs, step, off) && AllOnGrid(rows, step, off)
    ensures Ready(Table(ToRows(rows, bits), ToUnits(low, high), segs, step, off))
  {
    RowsInTables(rows, low, high, bits);
  }

  /** The rows replayed from the pool are those emitted, each with the one after it. */
  lemma Replayed(vs: seq<Visit>, rows: seq<Emitted>)
    requires InOrder(vs, rows) && |vs| == |rows|
    ensures seq(|vs|, i requires 0 <= i < |vs| => vs[i].row) == rows
    ensures forall i :: 0 <= i < |vs| ==> vs[i].next == if i + 1 < |rows| then Some(rows[i + 1]) else None
  {
    forall i | 0 <= i < |vs| ensures vs[i] == VisitOf(rows, i) {}
  }

  /** The map of a program of the standard and the executable program headers. */
  method MapProgram(h: Header, bs: seq<Byte>, files: nat, ps: seq<Prog>, step: int, bits: Flags -> int,
                    ghost cuts: seq<nat>, ghost ops: seq<Op>, ghost off: int)
    returns (out: Outcome, m: Map, ghost x: Table)
    requires HeaderOk(h) && ReadableProgram(h, bs, cuts, ops) && step > 0 && ProgsDisjoint(ps) && ProgsOnGrid(ps, step, off)
    requires AllOnGrid(StdRows(h, Start(h), ops, 0), step, off)
    ensures out == Done && Built(x, m) && SameAddresses(x.segs, ps, |ps|) && x.step == step
    ensures x.rows == ToRows(Kept(StdRows(h, Start(h), ops, 0), files), bits)
    ensures RowsFrom(x.rows, Kept(StdRows(h, Start(h), ops, 0), files), bits)
  {
    var local := new Local(files);
    out := ReadStandard(h, bs, local, cuts, ops);
    ghost var es := Kept(StdRows(h, Start(h), ops, 0), files);
    assert local.rows == es;
    StdLines(h, Start(h), ops, 0);
    KeptAre(StdRows(h, Start(h), ops, 0), files, step, off);
    RowsMapped(es, bits);
    m, x := MapRows(local, ps, step, bits, off);
  }

  /** The map of the rows recorded. */
  method MapRows(local: Local, ps: seq<Prog>, step: int, bits: Flags -> int, ghost off: int) returns (m: Map, ghost x: Table)
    requires local.Valid() && LinesFit32(local.rows) && step > 0 && AllOnGrid(local.rows, step, off)
    requires ProgsDisjoint(ps) && ProgsOnGrid(ps, step, off)
    ensures Built(x, m) && SameAddresses(x.segs, ps, |ps|) && x.step == step && x.rows == ToRows(local.rows, bits)
  {
    var segs := InitSegments(ps, step, off);
    TableReady(local.rows, local.low, local.high, segs, step, off, bits);
    var rows, units := ToRows(local.rows, bits), ToUnits(local.low, local.high);
    x := Table(rows, units, segs, step, off);
    m := Build(rows, units, segs, step, off);
  }

  /** From bytes to lookup: the file and line found for an address of an executable program header are those of
      the last row of the standard that covers it. */
  method LineOfAddress(h: Header, bs: seq<Byte>, files: nat, ps: seq<Prog>, step: int, bits: Flags -> int, a: int,
                       ghost cuts: seq<nat>, ghost ops: seq<Op>, ghost off: int)
    returns (out: Outcome, found: bool, unit: int, line: int)
    requires HeaderOk(h) && ReadableProgram(h, bs, cuts, ops) && step > 0 && ProgsDisjoint(ps) && ProgsOnGrid(ps, step, off)
    requires AllOnGrid(StdRows(h, Start(h), ops, 0), step, off)
    ensures out == Done
    ensures var rows := Kept(StdRows(h, Start(h), ops, 0), files);
            if found then
              SomeProg(ps, |ps|, a)
              && exists i: nat :: LastCovers(rows, i, step, a) && unit == rows[i].file - 1 && line == Mod32(rows[i].line)
            else !SomeProg(ps, |ps|, a) || forall i: nat :: !RowCovers(rows, i, step, a)
  {
    var m;
    ghost var x;
    out, m, x := MapProgram(h, bs, files, ps, step, bits, cuts, ops, off);
    found, unit, line := LineFromAddress(m, a, x);
    ghost var rows := Kept(StdRows(h, Start(h), ops, 0), files);
    StdLines(h, Start(h), ops, 0);
    KeptAre(StdRows(h, Start(h), ops, 0), files, step, off);
    FoundRow(rows, x, bits, a, found, unit, line);
    assert SomeSeg(x.segs, a) <==> SomeProg(ps, |ps|, a);
  }

  lemma FoundRow(rows: seq<Emitted>, x: Table, bits: Flags -> int, a: int, found: bool, unit: int, line: int)
    requires x.rows == ToRows(rows, bits) && LinesFit32(rows)
    requires found ==> exists i: nat :: LastRow(x, a, i, unit, line)
    requires !found ==> SegOf(x.segs, a) < 0 || forall i :: 0 <= i < |x.rows| ==> !Covers(x, i, a)
    ensures found ==> exists i: nat :: LastCovers(rows, i, x.step, a) && unit == rows[i].file - 1 && line == Mod32(rows[i].line)
    ensures !found ==> SegOf(x.segs, a) < 0 || forall i: nat :: !RowCovers(rows, i, x.step, a)
  {
    forall i: nat ensures Covers(x, i, a) <==> RowCovers(rows, i, x.step, a) { CoversSame(rows, x, bits, i, a); }
    if found {
      var i: nat :| LastRow(x, a, i, unit, line);
      assert LastCovers(rows, i, x.step, a);
    } else if SegOf(x.segs, a) >= 0 {
      forall i: nat ensures !RowCovers(rows, i, x.step, a) { CoversSame(rows, x, bits, i, a); }
    }
  }
}
