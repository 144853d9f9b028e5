/** The line-number state machine: running a program and recording the rows it emits. */
module LineReader {
  import opened Arith
  import opened Options
  import opened Leb128
  import opened LineProgram

  /** The registers when a program starts. */
  function Start(h: Header): Regs {
    Regs(0, 0, 1, 1, 0, StartFlags(h))
  }

  function StartFlags(h: Header): Flags { Flags(h.defaultStmt, false, false, false, false) }

  /** The registers of a special opcode's row. */
  function Stepped(h: Header, r: Regs, opcode: int): Regs
    requires HeaderOk(h)
  {
    var adjusted := Mod32(opcode - h.opcodeBase);
    var index := Mod32(r.opIndex + adjusted / h.lineRange);
    r.(address := Mod32(r.address + h.minInst * (index / h.maxOps)), opIndex := index % h.maxOps,
       line := Int32(r.line + h.lineBase + adjusted % h.lineRange))
  }

  function Cleared(f: Flags): Flags { f.(block := false, prologue := false, epilogue := false) }

  /** The row an operation emits, if it emits one. */
  function Emission(h: Header, r: Regs, op: Op): Option<Emitted>
    requires HeaderOk(h)
  {
    match op
    case Special(o) => Some(RowOf(Stepped(h, r, o)))
    case Copy => Some(RowOf(r))
    case EndSequence => Some(Emitted(r.file, 0, r.address, r.flags.(ended := true), r.isa))
    case _ => None
  }

  function RowOf(r: Regs): Emitted { Emitted(r.file, r.line, r.address, r.flags, r.isa) }

  /** The registers after an operation. */
  function Exec(h: Header, r: Regs, op: Op): Regs
    requires HeaderOk(h)
  {
    match op
    case Special(o) => var s := Stepped(h, r, o); s.(flags := Cleared(s.flags))
    case Copy => r.(flags := Cleared(r.flags))
    case AdvancePc(n) => r.(address := Mod32(r.address + h.minInst * n))
    case AdvanceLine(d) => r.(line := Int32(r.line + d))
    case SetFile(n) => r.(file := Int32(n))
    case SetColumn(_) => r
    case NegateStmt => r.(flags := r.flags.(stmt := !r.flags.stmt))
    case SetBasicBlock => r.(flags := r.flags.(block := true))
    case ConstAddPc => r.(address := Mod32(r.address + h.minInst * ((255 - h.opcodeBase) / h.lineRange)))
    case FixedAdvancePc(n) => r.(address := Mod32(r.address + n))
    case SetPrologueEnd => r.(flags := r.flags.(prologue := true))
    case SetEpilogueBegin => r.(flags := r.flags.(epilogue := true))
    case SetIsa(n) => r.(isa := n % 0x1_0000)
    case EndSequence => r.(file := 1, line := 1, flags := StartFlags(h))
    case SetAddress(a) => r.(address := a)
    case SetDiscriminator(_) => r
  }

  /** The rows of the operations from i on. */
  function Rows(h: Header, r: Regs, ops: seq<Op>, i: nat): seq<Emitted>
    requires HeaderOk(h) && i <= |ops|
    decreases |ops| - i
  {
    if i == |ops| then []
    else
      (if Emission(h, r, ops[i]).Some? then [Emission(h, r, ops[i]).value] else [])
      + Rows(h, Exec(h, r, ops[i]), ops, i + 1)
  }

  /** The rows whose file number is not too high; the others are dropped. */
  function Kept(rows: seq<Emitted>, files: nat): seq<Emitted> {
    if rows == [] then []
    else (if rows[0].file - 1 >= files then [] else [rows[0]]) + Kept(rows[1..], files)
  }

  predicate FilesOk(rows: seq<Emitted>) {
    forall i :: 0 <= i < |rows| ==> rows[i].file >= 1
  }

  /** Row row is about file f, not the end of a sequence. */
  predicate About(row: Emitted, f: int) { row.line != 0 && row.file == f + 1 }

  /** low and high are the least and greatest lines of the rows of file f, or 0 if it has none. */
  ghost predicate RangeOk(rows: seq<Emitted>, f: int, low: int, high: int) {
    && (forall i :: 0 <= i < |rows| && About(rows[i], f) ==> low <= Mod32(rows[i].line) <= high)
    && if low == 0 then high == 0 && forall i :: 0 <= i < |rows| ==> !About(rows[i], f)
       else
         && (exists i :: 0 <= i < |rows| && About(rows[i], f) && Mod32(rows[i].line) == low)
         && (exists i :: 0 <= i < |rows| && About(rows[i], f) && Mod32(rows[i].line) == high)
  }

  lemma RangeKept(rows: seq<Emitted>, row: Emitted, f: int, low: int, high: int)
    requires RangeOk(rows, f, low, high) && !About(row, f)
    ensures RangeOk(rows + [row], f, low, high)
  {
    var t := rows + [row];
    if low != 0 {
      var i :| 0 <= i < |rows| && About(rows[i], f) && Mod32(rows[i].line) == low;
      var j :| 0 <= j < |rows| && About(rows[j], f) && Mod32(rows[j].line) == high;
      assert t[i] == rows[i] && t[j] == rows[j];
    }
  }

  lemma RangeFirst(rows: seq<Emitted>, row: Emitted, f: int)
    requires RangeOk(rows, f, 0, 0) && About(row, f) && Mod32(row.line) != 0
    ensures RangeOk(rows + [row], f, Mod32(row.line), Mod32(row.line))
  {
    assert (rows + [row])[|rows|] == row;
  }

  lemma RangeWider(rows: seq<Emitted>, row: Emitted, f: int, low: int, high: int)
    requires RangeOk(rows, f, low, high) && About(row, f) && low != 0 && Mod32(row.line) != 0
    ensures var n := Mod32(row.line);
            RangeOk(rows + [row], f, if n < low then n else low, if n > high then n else high)
  {
    var t, n := rows + [row], Mod32(row.line);
    var i :| 0 <= i < |rows| && About(rows[i], f) && Mod32(rows[i].line) == low;
    var j :| 0 <= j < |rows| && About(rows[j], f) && Mod32(rows[j].line) == high;
    assert t[i] == rows[i] && t[j] == rows[j] && t[|rows|] == row;
    assert low <= high;
  }

  ghost predicate RangesOk(rows: seq<Emitted>, low: seq<int>, high: seq<int>) {
    && |low| == |high|
    && (forall f :: 0 <= f < |low| ==> RangeOk(rows, f, low[f], high[f]))
    && (forall i :: 0 <= i < |rows| ==> 1 <= rows[i].file <= |low|)
  }

  /** The least and greatest lines of file f with one more line n. */
  lemma RangesWider(rows: seq<Emitted>, row: Emitted, low: seq<int>, high: seq<int>, f: nat, n: int)
    requires RangesOk(rows, low, high) && f < |low| && About(row, f) && n == Mod32(row.line) != 0
    ensures RangesOk(rows + [row], low[f := if low[f] == 0 || n < low[f] then n else low[f]],
                     high[f := if low[f] == 0 || n > high[f] then n else high[f]])
  {
    forall g | 0 <= g < |low| && g != f ensures RangeOk(rows + [row], g, low[g], high[g]) {
      RangeKept(rows, row, g, low[g], high[g]);
    }
    if low[f] == 0 { RangeFirst(rows, row, f); } else { RangeWider(rows, row, f, low[f], high[f]); }
  }

  lemma RangesKept(rows: seq<Emitted>, row: Emitted, low: seq<int>, high: seq<int>)
    requires RangesOk(rows, low, high) && row.line == 0 && 1 <= row.file <= |low|
    ensures RangesOk(rows + [row], low, high)
  {
    forall g | 0 <= g < |low| ensures RangeOk(rows + [row], g, low[g], high[g]) {
      RangeKept(rows, row, g, low[g], high[g]);
    }
  }

  lemma RangeOrder(rows: seq<Emitted>, f: int, low: int, high: int)
    requires RangeOk(rows, f, low, high)
    ensures low <= high
  {}

  /** The rows recorded so far, and the range of lines of each file. */
  class Local {
    var rows: seq<Emitted>
    var low: seq<int>
    var high: seq<int>

    ghost predicate Valid()
      reads this
    {
      RangesOk(rows, low, high)
    }

    constructor (files: nat)
      ensures Valid() && rows == [] && |low| == files
    {
      var zeros := seq(files, _ => 0);
      rows, low, high := [], zeros, zeros;
      assert forall f :: 0 <= f < files ==> RangeOk([], f, zeros[f], zeros[f]);
    }

    /** Records a row, unless its file number is too high. */
    method Emit(row: Emitted)
      requires Valid() && row.file >= 1 && (row.line != 0 ==> Mod32(row.line) != 0)
      modifies this
      ensures Valid() && |low| == old(|low|)
      ensures rows == old(rows) + if row.file - 1 >= |low| then [] else [row]
    {
      if row.file - 1 >= |low| { return; }
      var f := row.file - 1;
      if row.line != 0 {
        var n := Mod32(row.line);
        RangesWider(rows, row, low, high, f, n);
        RangeOrder(rows, f, low[f], high[f]);
        assert low == low[f := low[f]] && high == high[f := high[f]];
        if low[f] == 0 {
          low, high := low[f := n], high[f := n];
        } else if n < low[f] {
          low := low[f := n];
        } else if n > high[f] {
          high := high[f := n];
        }
      } else {
        RangesKept(rows, row, low, high);
      }
      rows := rows + [row];
    }

    /** Records the row of an operation, if it emits one; not ok for a file number below 1. */
    method Record(e: Option<Emitted>) returns (ok: bool)
      requires Valid() && (e.Some? && e.value.line != 0 ==> Mod32(e.value.line) != 0)
      modifies this
      ensures Valid() && |low| == old(|low|) && ok == (e.Some? ==> e.value.file >= 1)
      ensures rows == old(rows) + if ok then Added(e, |low|) else []
    {
      ok := true;
      if e.Some? {
        if e.value.file < 1 { return false; }
        Emit(e.value);
      }
    }
  }

  /** What recording a row adds. */
  function Added(e: Option<Emitted>, files: nat): seq<Emitted> {
    if e.Some? && e.value.file - 1 < files then [e.value] else []
  }

  /** The bytes are the operations, one after the other, when the special opcodes start at base. */
  ghost predicate Program(h: Header, base: int, bs: seq<Byte>, cuts: seq<nat>, ops: seq<Op>) {
    && |cuts| == |ops| + 1 && cuts[0] == 0 && cuts[|ops|] == |bs|
    && forall i :: 0 <= i < |ops| ==> Encodes(h, base, bs, cuts[i], cuts[i + 1], ops[i])
  }

  datatype Outcome = Done | Rejected | Lost | DefinesFile

  predicate RegsOk(r: Regs) { -0x8000_0000 <= r.line < 0x8000_0000 }

  lemma LineNonZero(n: int)
    requires -0x8000_0000 <= n < 0x8000_0000 && n != 0
    ensures Mod32(n) != 0
  {
    if n < 0 { ModBelow(n); } else { SmallMod(n); }
  }

  lemma ExecOk(h: Header, r: Regs, op: Op)
    requires HeaderOk(h) && RegsOk(r)
    ensures RegsOk(Exec(h, r, op))
    ensures Emission(h, r, op).Some? && Emission(h, r, op).value.line != 0 ==> Mod32(Emission(h, r, op).value.line) != 0
  {
    match op
    case Special(o) =>
      var n := Stepped(h, r, o).line;
      if n != 0 { LineNonZero(n); }
    case Copy => if r.line != 0 { LineNonZero(r.line); }
    case _ =>
  }

  lemma {:induction false} KeptConcat(a: seq<Emitted>, b: seq<Emitted>, files: nat)
    ensures Kept(a + b, files) == Kept(a, files) + Kept(b, files)
  {
    if a == [] {
      assert a + b == b;
    } else {
      assert (a + b)[1..] == a[1..] + b;
      KeptConcat(a[1..], b, files);
    }
  }

  // ---- what was read, whatever the bytes ----

  /** The registers after the operations from i on. */
  function RegsAfter(h: Header, r: Regs, ops: seq<Op>, i: nat): Regs
    requires HeaderOk(h) && i <= |ops|
    decreases |ops| - i
  {
    if i == |ops| then r else RegsAfter(h, Exec(h, r, ops[i]), ops, i + 1)
  }

  lemma {:induction false} AfterAppend(h: Header, r: Regs, ops: seq<Op>, i: nat, op: Op)
    requires HeaderOk(h) && i <= |ops|
    ensures RegsAfter(h, r, ops + [op], i) == Exec(h, RegsAfter(h, r, ops, i), op)
    decreases |ops| - i
  {
    if i < |ops| {
      assert (ops + [op])[i] == ops[i];
      AfterAppend(h, Exec(h, r, ops[i]), ops, i + 1, op);
    } else {
      assert RegsAfter(h, Exec(h, r, op), ops + [op], i + 1) == Exec(h, r, op);
    }
  }

  /** The row an operation adds. */
  function OneRow(e: Option<Emitted>): seq<Emitted> { if e.Some? then [e.value] else [] }

  lemma {:induction false} RowsAppend(h: Header, r: Regs, ops: seq<Op>, i: nat, op: Op)
    requires HeaderOk(h) && i <= |ops|
    ensures Rows(h, r, ops + [op], i) == Rows(h, r, ops, i) + OneRow(Emission(h, RegsAfter(h, r, ops, i), op))
    decreases |ops| - i
  {
    var t := ops + [op];
    if i < |ops| {
      assert t[i] == ops[i];
      RowsAppend(h, Exec(h, r, ops[i]), ops, i + 1, op);
    } else {
      assert t[i] == op && Rows(h, Exec(h, r, op), t, i + 1) == [];
    }
  }

  lemma KeptOne(e: Option<Emitted>, files: nat)
    ensures Kept(OneRow(e), files) == Added(e, files)
  {
    if e.Some? { assert OneRow(e)[1..] == []; }
  }

  ghost predicate AllRead(h: Header, bs: seq<Byte>, cuts: seq<nat>, ops: seq<Op>) {
    && |cuts| == |ops| + 1 && cuts[0] == 0
    && forall i :: 0 <= i < |ops| ==> Reads(h, bs, cuts[i], cuts[i + 1], ops[i])
  }

  /** The first pos bytes are read as operations ops, which leave registers r and record these rows. */
  ghost predicate Traced(h: Header, bs: seq<Byte>, cuts: seq<nat>, ops: seq<Op>, pos: nat, r: Regs,
                         rows: seq<Emitted>, files: nat)
    requires HeaderOk(h)
  {
    && AllRead(h, bs, cuts, ops) && cuts[|ops|] == pos
    && r == RegsAfter(h, Start(h), ops, 0)
    && FilesOk(Rows(h, Start(h), ops, 0)) && rows == Kept(Rows(h, Start(h), ops, 0), files)
  }

  lemma TracedStep(h: Header, bs: seq<Byte>, cuts: seq<nat>, ops: seq<Op>, pos: nat, r: Regs,
                   rows: seq<Emitted>, files: nat, op: Op, next: nat)
    requires HeaderOk(h) && Traced(h, bs, cuts, ops, pos, r, rows, files) && Reads(h, bs, pos, next, op)
    requires FilesOk(OneRow(Emission(h, r, op)))
    ensures Traced(h, bs, cuts + [next], ops + [op], next, Exec(h, r, op), rows + Added(Emission(h, r, op), files), files)
  {
    var e := Emission(h, r, op);
    AfterAppend(h, Start(h), ops, 0, op);
    RowsAppend(h, Start(h), ops, 0, op);
    KeptConcat(Rows(h, Start(h), ops, 0), OneRow(e), files);
    KeptOne(e, files);
    ReadsAppend(h, bs, cuts, ops, pos, op, next);
  }

  lemma ReadsAppend(h: Header, bs: seq<Byte>, cuts: seq<nat>, ops: seq<Op>, pos: nat, op: Op, next: nat)
    requires AllRead(h, bs, cuts, ops) && cuts[|ops|] == pos && Reads(h, bs, pos, next, op)
    ensures AllRead(h, bs, cuts + [next], ops + [op])
  {}

  /** Why the reader stops at pos: all is read, the code returns an error, it reads where it may not, takes the
      table of a file numbered below 1, or defines a file. */
  ghost predicate StopsFor(h: Header, bs: seq<Byte>, pos: nat, r: Regs, out: Outcome)
    requires HeaderOk(h)
  {
    match out
    case Done => pos == |bs|
    case Rejected => Malformed(bs, pos)
    case Lost => Overruns(bs, pos) || exists e, op :: NoTable(h, bs, pos, r, e, op)
    case DefinesFile => ExtendedIs(bs, pos, 3)
  }

  predicate NoTable(h: Header, bs: seq<Byte>, pos: nat, r: Regs, e: nat, op: Op)
    requires HeaderOk(h)
  {
    Reads(h, bs, pos, e, op) && Emission(h, r, op).Some? && Emission(h, r, op).value.file < 1
  }

  /** Two readings of the same bytes start with the same operations. */
  lemma {:induction false} SameOps(h: Header, bs: seq<Byte>, cuts: seq<nat>, ops: seq<Op>, cs: seq<nat>, os: seq<Op>, i: nat)
    requires AllRead(h, bs, cuts, ops) && AllRead(h, bs, cs, os) && i <= |os| && i <= |ops|
    ensures os[..i] == ops[..i] && cs[i] == cuts[i]
  {
    if i > 0 {
      var k := i - 1;
      SameOps(h, bs, cuts, ops, cs, os, k);
      ReadsOnce(h, bs, cs[k], cs[k + 1], os[k], cuts[k + 1], ops[k]);
    }
  }

  /** The row of operation n is one of the program's. */
  lemma {:induction false} EmissionIn(h: Header, r: Regs, ops: seq<Op>, i: nat, n: nat)
    requires HeaderOk(h) && i <= n < |ops|
    ensures var e := Emission(h, RegsAfter(h, r, ops[..n], i), ops[n]); e.Some? ==> e.value in Rows(h, r, ops, i)
    decreases n - i
  {
    if i < n { EmissionIn(h, Exec(h, r, ops[i]), ops, i + 1, n); }
  }

  /** The reader does not stop before another reading does. */
  lemma StopsLast(h: Header, bs: seq<Byte>, cuts: seq<nat>, ops: seq<Op>, cs: seq<nat>, os: seq<Op>, pos: nat, out: Outcome)
    requires HeaderOk(h) && AllRead(h, bs, cuts, ops) && FilesOk(Rows(h, Start(h), ops, 0))
    requires AllRead(h, bs, cs, os) && cs[|os|] == pos && StopsFor(h, bs, pos, RegsAfter(h, Start(h), os, 0), out)
    ensures |os| >= |ops|
  {
    var n := |os|;
    if n < |ops| {
      SameOps(h, bs, cuts, ops, cs, os, n);
      assert os == ops[..n] && Reads(h, bs, pos, cuts[n + 1], ops[n]);
      ReadsNoError(h, bs, pos, cuts[n + 1], ops[n]);
      var e, op :| NoTable(h, bs, pos, RegsAfter(h, Start(h), os, 0), e, op);
      ReadsOnce(h, bs, pos, e, op, cuts[n + 1], ops[n]);
      EmissionIn(h, Start(h), ops, 0, n);
      assert false;
    }
  }

  lemma StopsOnce(h: Header, bs: seq<Byte>, pos: nat, r: Regs, out: Outcome, out': Outcome)
    requires HeaderOk(h) && StopsFor(h, bs, pos, r, out) && StopsFor(h, bs, pos, r, out')
    ensures out == out'
  {
    forall e, op | NoTable(h, bs, pos, r, e, op) ensures pos < |bs| && !Malformed(bs, pos) && !ExtendedIs(bs, pos, 3) {
      ReadsNoError(h, bs, pos, e, op);
    }
  }

  /** A program is read as its operations. */
  lemma {:induction false} ProgramReads(h: Header, bs: seq<Byte>, cuts: seq<nat>, ops: seq<Op>)
    requires Program(h, FIRST_SPECIAL, bs, cuts, ops)
    ensures AllRead(h, bs, cuts, ops)
  {
    forall i | 0 <= i < |ops| ensures Reads(h, bs, cuts[i], cuts[i + 1], ops[i]) {
      EncodedReads(h, bs, cuts[i], cuts[i + 1], ops[i]);
    }
  }

  /** The reader has added to the rows what it recorded for the operations read. */
  ghost predicate Running(h: Header, bs: seq<Byte>, cuts: seq<nat>, ops: seq<Op>, pos: nat, r: Regs,
                          before: seq<Emitted>, rows: seq<Emitted>, files: nat)
    requires HeaderOk(h)
  {
    |before| <= |rows| && rows[..|before|] == before && Traced(h, bs, cuts, ops, pos, r, rows[|before|..], files)
  }

  lemma RunningStep(h: Header, bs: seq<Byte>, cuts: seq<nat>, ops: seq<Op>, pos: nat, r: Regs, before: seq<Emitted>,
                    rows: seq<Emitted>, files: nat, op: Op, next: nat)
    requires HeaderOk(h) && Running(h, bs, cuts, ops, pos, r, before, rows, files) && Reads(h, bs, pos, next, op)
    requires FilesOk(OneRow(Emission(h, r, op)))
    ensures Running(h, bs, cuts + [next], ops + [op], next, Exec(h, r, op), before,
                    rows + Added(Emission(h, r, op), files), files)
  {
    var n, more := |before|, Added(Emission(h, r, op), files);
    assert (rows + more)[n..] == rows[n..] + more;
    TracedStep(h, bs, cuts, ops, pos, r, rows[n..], files, op, next);
  }

  /** Some bytes are read as operations, whose rows are added in order, and the reader stops for a reason. */
  ghost predicate Ran(h: Header, bs: seq<Byte>, before: seq<Emitted>, rows: seq<Emitted>, files: nat, out: Outcome)
    requires HeaderOk(h)
  {
    exists cuts, ops, pos, r ::
      Running(h, bs, cuts, ops, pos, r, before, rows, files) && StopsFor(h, bs, pos, r, out)
  }

  /** The bytes determine the rows and the outcome. */
  lemma RanOnce(h: Header, bs: seq<Byte>, before: seq<Emitted>, rows: seq<Emitted>, rows': seq<Emitted>, files: nat,
                out: Outcome, out': Outcome)
    requires HeaderOk(h) && Ran(h, bs, before, rows, files, out) && Ran(h, bs, before, rows', files, out')
    ensures rows == rows' && out == out'
  {
    var cs, os, pos, r :| Running(h, bs, cs, os, pos, r, before, rows, files) && StopsFor(h, bs, pos, r, out);
    var cs', os', pos', r' :| Running(h, bs, cs', os', pos', r', before, rows', files) && StopsFor(h, bs, pos', r', out');
    StopsLast(h, bs, cs, os, cs', os', pos', out');
    StopsLast(h, bs, cs', os', cs, os, pos, out);
    SameOps(h, bs, cs, os, cs', os', |os|);
    assert os == os[..|os|] == os'[..|os|] == os';
    StopsOnce(h, bs, pos, r, out, out');
    assert rows == before + rows[|before|..] && rows' == before + rows'[|before|..];
  }

  /** When the bytes are a program, its rows are added. */
  lemma RanProgram(h: Header, bs: seq<Byte>, before: seq<Emitted>, rows: seq<Emitted>, files: nat, out: Outcome,
                   cuts: seq<nat>, ops: seq<Op>)
    requires HeaderOk(h) && Ran(h, bs, before, rows, files, out)
    requires Program(h, FIRST_SPECIAL, bs, cuts, ops) && FilesOk(Rows(h, Start(h), ops, 0))
    ensures out == Done && rows == before + Kept(Rows(h, Start(h), ops, 0), files)
  {
    ProgramReads(h, bs, cuts, ops);
    var added := Kept(Rows(h, Start(h), ops, 0), files);
    assert (before + added)[|before|..] == added;
    assert Running(h, bs, cuts, ops, |bs|, RegsAfter(h, Start(h), ops, 0), before, before + added, files);
    assert StopsFor(h, bs, |bs|, RegsAfter(h, Start(h), ops, 0), Done);
    RanOnce(h, bs, before, rows, before + added, files, out, Done);
  }

  /** Reads the operation at pos and records its row; Done if the reader goes on. */
  method Step(h: Header, bs: seq<Byte>, local: Local, pos: nat, r: Regs) returns (out: Outcome, op: Op, next: nat)
    requires HeaderOk(h) && local.Valid() && RegsOk(r) && pos < |bs|
    modifies local
    ensures local.Valid() && |local.low| == old(|local.low|)
    ensures out == Done ==> Reads(h, bs, pos, next, op) && RegsOk(Exec(h, r, op)) && FilesOk(OneRow(Emission(h, r, op)))
    ensures out == Done ==> local.rows == old(local.rows) + Added(Emission(h, r, op), |local.low|)
    ensures out != Done ==> StopsFor(h, bs, pos, r, out) && local.rows == old(local.rows)
  {
    var read := ReadOp(h, bs, pos);
    match read
    case BadFormat => return Rejected, Copy, pos;
    case Undefined => return Lost, Copy, pos;
    case FileDefinition => return DefinesFile, Copy, pos;
    case Decoded(o, e) =>
      ExecOk(h, r, o);
      var ok := local.Record(Emission(h, r, o));
      if !ok {
        assert NoTable(h, bs, pos, r, e, o);
        return Lost, Copy, pos;
      }
      return Done, o, e;
  }

  /** Runs a program: its operations are read and their rows recorded in order, up to where the reader stops.
      An operation that the code would read past the end, or a file number below 1, loses the reader. */
  method ReadLines(h: Header, bs: seq<Byte>, local: Local) returns (out: Outcome)
    requires HeaderOk(h) && local.Valid()
    modifies local
    ensures local.Valid() && |local.low| == old(|local.low|)
    ensures Ran(h, bs, old(local.rows), local.rows, |local.low|, out)
  {
    var r, pos := Start(h), 0;
    ghost var cuts: seq<nat>, ops: seq<Op>, before, files := [0], [], local.rows, |local.low|;
    assert local.rows[|before|..] == [];
    while pos < |bs| && !r.flags.ended
      invariant pos <= |bs| && RegsOk(r) && !r.flags.ended
      invariant local.Valid() && |local.low| == files
      invariant Running(h, bs, cuts, ops, pos, r, before, local.rows, files)
      decreases |bs| - pos
    {
      ghost var rows := local.rows;
      var stop, op, next := Step(h, bs, local, pos, r);
      if stop != Done { return stop; }
      RunningStep(h, bs, cuts, ops, pos, r, before, rows, files, op, next);
      cuts, ops := cuts + [next], ops + [op];
      NotEnded(h, r, op);
      r := Exec(h, r, op);
      pos := next;
    }
    return Done;
  }

  /** The end of a sequence starts the registers' flags again, so that no program ends the loop early. */
  lemma NotEnded(h: Header, r: Regs, op: Op)
    requires HeaderOk(h) && !r.flags.ended
    ensures !Exec(h, r, op).flags.ended
  {}
}
