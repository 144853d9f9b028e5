/** Every table can be written, with a choice of operations for each row. */
module LineWriter {
  import opened Arith
  import opened LineProgram
  import opened LineReader
  import opened LineStandard
  import opened LineTable
  import opened LineRows

  /** How to move to the next row: a special opcode, const_add_pc and a special opcode, fixed_advance_pc
      or advance_pc. A choice that cannot express the step gives way to the last one. */
  datatype Choice = Short | ConstThenShort | Fixed | Long

  /** The special opcode that moves by k instructions and d lines. */
  function ShortOpcode(h: Header, k: int, d: int): int { d - h.lineBase + h.lineRange * k + h.opcodeBase }

  predicate ShortFits(h: Header, k: int, d: int) {
    0 <= k && h.lineBase <= d < h.lineBase + h.lineRange && FIRST_SPECIAL <= ShortOpcode(h, k, d) < 256
  }

  function Chosen(h: Header, k: nat, d: int, c: Choice): Group
    requires HeaderOk(h)
  {
    if c.Short? && ShortFits(h, k, d) then Group([], Special(ShortOpcode(h, k, d)))
    else if c.ConstThenShort? && ShortFits(h, k - ConstAdvance(h), d) then
      Group([ConstAddPc], Special(ShortOpcode(h, k - ConstAdvance(h), d)))
    else if c.Fixed? && h.minInst * k < 0x1_0000 then Group([FixedAdvancePc(h.minInst * k), AdvanceLine(d)], Copy)
    else Group([AdvancePc(k), AdvanceLine(d)], Copy)
  }

  /** The special opcode moves as it was made to. */
  lemma ShortMoves(h: Header, k: int, d: int)
    requires HeaderOk(h) && ShortFits(h, k, d)
    ensures var op := Special(ShortOpcode(h, k, d));
            OpFits(h, op) && Writable(op) && Numbered(FIRST_SPECIAL, op) && AddressBy(h, op) == h.minInst * k && LineBy(h, op) == d
  {
    var adjusted := ShortOpcode(h, k, d) - h.opcodeBase;
    MulLe(0, k, h.lineRange);
    Commute(k, h.lineRange);
    DivUnique(adjusted, h.lineRange, k);
  }

  lemma OneMove(h: Header, op: Op)
    requires HeaderOk(h)
    ensures AddressSum(h, [op]) == AddressBy(h, op) && LineSum(h, [op]) == LineBy(h, op)
  {
    assert [op][1..] == [];
  }

  lemma TwoMoves(h: Header, op: Op, d: int, l: int)
    requires HeaderOk(h)
    ensures AddressSum(h, [op, AdvanceLine(d)]) == AddressBy(h, op)
    ensures LineSum(h, [op, AdvanceLine(d)]) == LineBy(h, op) + d
    ensures -0x8000_0000 <= l < 0x8000_0000 && LineBy(h, op) == 0 && -0x8000_0000 <= l + d < 0x8000_0000 ==>
              LinesFit(h, l, [op, AdvanceLine(d)])
  {
    OneMove(h, AdvanceLine(d));
    assert [op, AdvanceLine(d)][1..] == [AdvanceLine(d)] && [AdvanceLine(d)][1..] == [];
    assert LinesFit(h, l + d, []) <==> -0x8000_0000 <= l + d < 0x8000_0000;
  }

  predicate GroupWritable(g: Group) {
    && AllWritable(g.moves) && Writable(g.last) && AllNumbered(FIRST_SPECIAL, g.moves) && Numbered(FIRST_SPECIAL, g.last)
  }

  lemma Split(m: nat, n: nat, k: nat)
    requires n <= k
    ensures m * n + m * (k - n) == m * k
  {}

  /** A choice for one row comes to the row. */
  lemma ChosenReaches(h: Header, l: int, k: nat, d: int, c: Choice)
    requires HeaderOk(h) && -0x8000_0000 <= l < 0x8000_0000 && -0x8000_0000 <= l + d < 0x8000_0000
    requires k < 0x1_0000_0000 && -0x8000_0000 <= d < 0x8000_0000
    ensures var g := Chosen(h, k, d, c);
            && GroupOk(h, g) && GroupWritable(g) && LinesFit(h, l, g.moves)
            && AddressSum(h, g.moves) + AddressBy(h, g.last) == h.minInst * k && LineSum(h, g.moves) + LineBy(h, g.last) == d
  {
    var n := ConstAdvance(h);
    if c.Short? && ShortFits(h, k, d) {
      ShortMoves(h, k, d);
    } else if c.ConstThenShort? && ShortFits(h, k - n, d) {
      DivBelow(255 - h.opcodeBase, h.lineRange);
      ShortMoves(h, k - n, d);
      Split(h.minInst, n, k);
      OneMove(h, ConstAddPc);
    } else if c.Fixed? && h.minInst * k < 0x1_0000 {
      Positive(h.minInst, k);
      TwoMoves(h, FixedAdvancePc(h.minInst * k), d, l);
    } else {
      TwoMoves(h, AdvancePc(k), d, l);
    }
  }

  /** The choices set neither file nor ISA nor flags. */
  lemma ChosenKeeps(h: Header, k: nat, d: int, c: Choice, r: Regs)
    requires HeaderOk(h)
    ensures var ops := Chosen(h, k, d, c).moves;
            Moved(h, r, ops) == r.(address := r.address + AddressSum(h, ops), line := r.line + LineSum(h, ops))
  {
    var ops := Chosen(h, k, d, c).moves;
    forall i | 0 <= i < |ops| ensures Plain(ops[i]) {}
    PlainKeep(ops, r);
  }

  /** The operation sets neither file nor ISA nor flags. */
  ghost predicate Plain(op: Op) { !op.SetFile? && !op.SetIsa? && forall f :: FlagsBy(op, f) == f }

  lemma {:induction false} PlainKeep(ops: seq<Op>, r: Regs)
    requires forall i :: 0 <= i < |ops| ==> Plain(ops[i])
    ensures LastFile(ops, r.file) == r.file && LastIsa(ops, r.isa) == r.isa && FlagsAll(ops, r.flags) == r.flags
    decreases |ops|
  {
    if ops != [] {
      assert Plain(ops[0]);
      PlainKeep(ops[1..], r);
    }
  }

  // ---- file, ISA and flags ----

  function If(b: bool, op: Op): seq<Op> { if b then [op] else [] }

  /** The operations that set the file, the ISA and the flags of a row. */
  function SetUp(r: Regs, e: Emitted): seq<Op> {
    If(r.file != e.file, SetFile(e.file)) + (If(r.isa != e.isa, SetIsa(e.isa)) + FlagOps(r.flags, e.flags))
  }

  function FlagOps(f: Flags, g: Flags): seq<Op> {
    If(f.stmt != g.stmt, NegateStmt) + (If(g.block, SetBasicBlock) + (If(g.prologue, SetPrologueEnd) + If(g.epilogue, SetEpilogueBegin)))
  }

  /** The flags that a row resets are reset, and the sequence has not ended. */
  predicate Fresh(f: Flags) { f == Cleared(f) && !f.ended }

  /** What operations set; they keep address and line. */
  ghost predicate Quiet(h: Header, ops: seq<Op>, r: Regs, s: Regs)
    requires HeaderOk(h)
  {
    && AllMove(h, ops) && AllWritable(ops) && AllNumbered(FIRST_SPECIAL, ops)
    && Moved(h, r, ops) == s && s.address == r.address && s.line == r.line
    && (-0x8000_0000 <= r.line < 0x8000_0000 ==> LinesFit(h, r.line, ops))
  }

  lemma {:induction false} MovedConcat(h: Header, r: Regs, a: seq<Op>, b: seq<Op>)
    requires HeaderOk(h)
    ensures Moved(h, r, a + b) == Moved(h, Moved(h, r, a), b)
    ensures LinesFit(h, r.line, a) && LinesFit(h, r.line + LineSum(h, a), b) ==> LinesFit(h, r.line, a + b)
    decreases |a|
  {
    if a == [] {
      assert a + b == b;
    } else {
      assert (a + b)[1..] == a[1..] + b && (a + b)[0] == a[0];
      MovedConcat(h, Moved(h, r, [a[0]]), a[1..], b);
      OneMoved(h, r, a[0]);
    }
  }

  lemma OneMoved(h: Header, r: Regs, op: Op)
    requires HeaderOk(h)
    ensures Moved(h, r, [op]) == Regs(r.address + AddressBy(h, op), r.opIndex, if op.SetFile? then op.n else r.file,
                                      r.line + LineBy(h, op), if op.SetIsa? then op.n else r.isa, FlagsBy(op, r.flags))
  {
    var none: seq<Op> := [];
    assert [op][1..] == none;
    assert LastFile([op], r.file) == LastFile(none, if op.SetFile? then op.n else r.file);
    assert LastIsa([op], r.isa) == LastIsa(none, if op.SetIsa? then op.n else r.isa);
    assert FlagsAll([op], r.flags) == FlagsAll(none, FlagsBy(op, r.flags));
    OneMove(h, op);
  }

  lemma QuietConcat(h: Header, a: seq<Op>, b: seq<Op>, r: Regs, s: Regs, t: Regs)
    requires HeaderOk(h) && Quiet(h, a, r, s) && Quiet(h, b, s, t)
    ensures Quiet(h, a + b, r, t)
  {
    MovedConcat(h, r, a, b);
  }

  lemma QuietIf(h: Header, b: bool, op: Op, r: Regs)
    requires HeaderOk(h) && OpFits(h, op) && Writable(op) && Numbered(FIRST_SPECIAL, op)
    requires op.SetFile? || op.SetIsa? || op.NegateStmt? || op.SetBasicBlock? || op.SetPrologueEnd? || op.SetEpilogueBegin?
    ensures Quiet(h, If(b, op), r, if b then StdExec(h, r, op) else r)
  {
    if b {
      OneMoved(h, r, op);
      assert [op][1..] == [];
    }
  }

  lemma FlagsSet(h: Header, r: Regs, g: Flags)
    requires HeaderOk(h) && Fresh(r.flags) && !g.ended
    ensures Quiet(h, FlagOps(r.flags, g), r, r.(flags := g))
  {
    var f := r.flags;
    var f1 := f.(stmt := g.stmt);
    var f2 := f1.(block := g.block);
    var f3 := f2.(prologue := g.prologue);
    QuietIf(h, f.stmt != g.stmt, NegateStmt, r);
    QuietIf(h, g.block, SetBasicBlock, r.(flags := f1));
    QuietIf(h, g.prologue, SetPrologueEnd, r.(flags := f2));
    QuietIf(h, g.epilogue, SetEpilogueBegin, r.(flags := f3));
    QuietConcat(h, If(g.prologue, SetPrologueEnd), If(g.epilogue, SetEpilogueBegin), r.(flags := f2), r.(flags := f3), r.(flags := g));
    QuietConcat(h, If(g.block, SetBasicBlock), If(g.prologue, SetPrologueEnd) + If(g.epilogue, SetEpilogueBegin),
                r.(flags := f1), r.(flags := f2), r.(flags := g));
    QuietConcat(h, If(f.stmt != g.stmt, NegateStmt),
                If(g.block, SetBasicBlock) + (If(g.prologue, SetPrologueEnd) + If(g.epilogue, SetEpilogueBegin)),
                r, r.(flags := f1), r.(flags := g));
  }

  lemma SetUpDone(h: Header, r: Regs, e: Emitted)
    requires HeaderOk(h) && Fresh(r.flags) && RowFits(e)
    ensures Quiet(h, SetUp(r, e), r, r.(file := e.file, isa := e.isa, flags := e.flags))
  {
    var r1 := r.(file := e.file);
    var r2 := r1.(isa := e.isa);
    QuietIf(h, r.file != e.file, SetFile(e.file), r);
    QuietIf(h, r.isa != e.isa, SetIsa(e.isa), r1);
    FlagsSet(h, r2, e.flags);
    QuietConcat(h, If(r.isa != e.isa, SetIsa(e.isa)), FlagOps(r.flags, e.flags), r1, r2, r2.(flags := e.flags));
    QuietConcat(h, If(r.file != e.file, SetFile(e.file)), If(r.isa != e.isa, SetIsa(e.isa)) + FlagOps(r.flags, e.flags),
                r, r1, r2.(flags := e.flags));
  }

  // ---- the groups of a table ----

  /** The registers before row j. */
  function Before(h: Header, t: seq<Emitted>, j: nat): Regs
    requires j < |t|
  {
    if j == 0 then StartAt(h, t[0].address) else After(t[j - 1])
  }

  predicate StepsTo(h: Header, r: Regs, e: Emitted)
    requires h.minInst > 0
  {
    r.address <= e.address && (e.address - r.address) % h.minInst == 0
  }

  /** The addresses of the rows go up by whole instructions. */
  predicate Stepping(h: Header, t: seq<Emitted>)
    requires h.minInst > 0
  {
    forall j :: 0 <= j < |t| ==> StepsTo(h, Before(h, t, j), t[j])
  }

  function Step(h: Header, r: Regs, e: Emitted, c: Choice): Group
    requires HeaderOk(h) && h.minInst > 0 && StepsTo(h, r, e)
  {
    StepWith(h, r, e, c, SetUp(r, e))
  }

  function StepWith(h: Header, r: Regs, e: Emitted, c: Choice, ops: seq<Op>): Group
    requires HeaderOk(h) && h.minInst > 0 && StepsTo(h, r, e)
  {
    var g := Chosen(h, (e.address - r.address) / h.minInst, e.line - r.line, c);
    Group(ops + g.moves, g.last)
  }

  function Groups(h: Header, t: seq<Emitted>, cs: seq<Choice>): (gs: seq<Group>)
    requires HeaderOk(h) && h.minInst > 0 && |t| == |cs| && Stepping(h, t)
    ensures |gs| == |t|
  {
    seq(|t|, j requires 0 <= j < |t| => Step(h, Before(h, t, j), t[j], cs[j]))
  }

  lemma Exactly(x: nat, m: nat)
    requires m > 0 && x % m == 0
    ensures m * (x / m) == x && 0 <= x / m <= x
  {
    DivBelow(x, m);
  }

  /** A group that comes to the row e, and can be written. */
  ghost predicate GoodGroup(h: Header, r: Regs, g: Group, e: Emitted)
    requires HeaderOk(h)
  {
    GroupOk(h, g) && GroupWritable(g) && LinesFit(h, r.line, g.moves) && RowReached(h, r, g) == e
  }

  lemma StepReaches(h: Header, r: Regs, e: Emitted, c: Choice)
    requires HeaderOk(h) && h.minInst > 0 && StepsTo(h, r, e) && RegsFit(r) && 1 <= r.line && Fresh(r.flags) && RowFits(e)
    ensures GoodGroup(h, r, Step(h, r, e, c), e)
  {
    SetUpDone(h, r, e);
    MoveReaches(h, r, e, c, SetUp(r, e));
  }

  lemma MoveReaches(h: Header, r: Regs, e: Emitted, c: Choice, ops: seq<Op>)
    requires HeaderOk(h) && h.minInst > 0 && StepsTo(h, r, e) && RegsFit(r) && 1 <= r.line && RowFits(e)
    requires Quiet(h, ops, r, r.(file := e.file, isa := e.isa, flags := e.flags))
    ensures GoodGroup(h, r, StepWith(h, r, e, c, ops), e)
  {
    var k, d := (e.address - r.address) / h.minInst, e.line - r.line;
    var s := r.(file := e.file, isa := e.isa, flags := e.flags);
    Exactly(e.address - r.address, h.minInst);
    ChosenReaches(h, r.line, k, d, c);
    ChosenKeeps(h, k, d, c, s);
    JoinedReaches(h, r, s, e, ops, Chosen(h, k, d, c));
  }

  /** Operations that set registers in front of a group that moves. */
  lemma JoinedReaches(h: Header, r: Regs, s: Regs, e: Emitted, ops: seq<Op>, g: Group)
    requires HeaderOk(h) && Quiet(h, ops, r, s) && GroupOk(h, g) && GroupWritable(g)
    requires -0x8000_0000 <= r.line < 0x8000_0000 && LinesFit(h, r.line, g.moves)
    requires Moved(h, s, g.moves) == s.(address := s.address + AddressSum(h, g.moves), line := s.line + LineSum(h, g.moves))
    requires s.address + AddressSum(h, g.moves) + AddressBy(h, g.last) == e.address && s.file == e.file && s.isa == e.isa
    requires s.line + LineSum(h, g.moves) + LineBy(h, g.last) == e.line && s.flags == e.flags
    ensures GoodGroup(h, r, Group(ops + g.moves, g.last), e)
  {
    MovedConcat(h, r, ops, g.moves);
  }

  lemma GroupReaches(h: Header, t: seq<Emitted>, cs: seq<Choice>, j: nat)
    requires HeaderOk(h) && h.minInst > 0 && j < |t| == |cs| && Stepping(h, t) && TableOk(t)
    ensures GoodGroup(h, Before(h, t, j), Groups(h, t, cs)[j], t[j])
  {
    assert RowFits(t[j]) && RowFits(t[0]) && (j > 0 ==> RowFits(t[j - 1]));
    StepReaches(h, Before(h, t, j), t[j], cs[j]);
  }

  lemma {:induction false} GroupsReach(h: Header, t: seq<Emitted>, cs: seq<Choice>, j: nat)
    requires HeaderOk(h) && h.minInst > 0 && j < |t| == |cs| && Stepping(h, t) && TableOk(t)
    ensures var gs, r := Groups(h, t, cs), Before(h, t, j);
            AllReach(h, t, gs, j, r) && AllLinesFit(h, t, gs, j, r.line)
    decreases |t| - j
  {
    GroupReaches(h, t, cs, j);
    if j + 1 < |t| { GroupsReach(h, t, cs, j + 1); }
  }

  lemma {:induction false} GroupOpsWritable(gs: seq<Group>, j: nat)
    requires j <= |gs| && forall i :: 0 <= i < |gs| ==> GroupWritable(gs[i])
    ensures AllWritable(GroupOps(gs, j)) && AllNumbered(FIRST_SPECIAL, GroupOps(gs, j))
    decreases |gs| - j
  {
    if j < |gs| {
      assert GroupWritable(gs[j]);
      GroupOpsWritable(gs, j + 1);
    }
  }

  /** Every table has a program for every list of choices, in bytes that the reader takes for it. */
  lemma TableWritten(h: Header, t: seq<Emitted>, cs: seq<Choice>)
    requires HeaderOk(h) && h.minInst > 0 && |t| == |cs| && TableOk(t) && Stepping(h, t)
    ensures Writes(h, t, Groups(h, t, cs))
    ensures var ops := TableOps(t[0].address, Groups(h, t, cs));
            AllWritable(ops) && Program(h, FIRST_SPECIAL, ProgramBytes(h, ops), Cuts(h, ops), ops)
  {
    AllGood(h, t, cs);
    GroupsReach(h, t, cs, 0);
    TableOpsWritable(t[0].address, Groups(h, t, cs));
    WrittenProgram(h, FIRST_SPECIAL, TableOps(t[0].address, Groups(h, t, cs)));
  }

  lemma AllGood(h: Header, t: seq<Emitted>, cs: seq<Choice>)
    requires HeaderOk(h) && h.minInst > 0 && |t| == |cs| && TableOk(t) && Stepping(h, t)
    ensures forall j :: 0 <= j < |t| ==> GroupOk(h, Groups(h, t, cs)[j]) && GroupWritable(Groups(h, t, cs)[j])
    ensures Word(t[0].address)
  {
    forall j | 0 <= j < |t| ensures GroupOk(h, Groups(h, t, cs)[j]) && GroupWritable(Groups(h, t, cs)[j]) {
      GroupReaches(h, t, cs, j);
    }
    assert RowFits(t[0]);
  }

  lemma TableOpsWritable(a: int, gs: seq<Group>)
    requires Word(a) && forall i :: 0 <= i < |gs| ==> GroupWritable(gs[i])
    ensures AllWritable(TableOps(a, gs)) && AllNumbered(FIRST_SPECIAL, TableOps(a, gs))
  {
    GroupOpsWritable(gs, 0);
  }
}
