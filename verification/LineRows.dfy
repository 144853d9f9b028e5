/** Reading programs of the standard, and tables of rows written with any mix of operations, whatever file, ISA
    and flags the rows have. */
module LineRows {
  import opened Arith
  import opened Options
  import opened Leb128
  import opened LineProgram
  import opened LineReader
  import opened LineStandard
  import opened LineOpcodes

  /** Reads a program of the standard: the rows recorded are those the standard defines, if the opcodes are
      taken for what they are, the registers fit and the sequences set what they need. */
  method ReadStandard(h: Header, bs: seq<Byte>, local: Local, ghost cuts: seq<nat>, ghost ops: seq<Op>) returns (out: Outcome)
    requires HeaderOk(h) && local.Valid()
    modifies local
    ensures local.Valid() && |local.low| == old(|local.low|)
    ensures ReadableProgram(h, bs, cuts, ops) ==>
              out == Done && local.rows == old(local.rows) + Kept(StdRows(h, Start(h), ops, 0), |local.low|)
  {
    ghost var before := local.rows;
    out := ReadLines(h, bs, local);
    if ReadableProgram(h, bs, cuts, ops) {
      ProgramTaken(h, bs, cuts, ops);
      ReaderMeetsStandard(h, ops);
      RanProgram(h, bs, before, local.rows, |local.low|, out, cuts, ops);
    }
  }

  ghost predicate ReadableProgram(h: Header, bs: seq<Byte>, cuts: seq<nat>, ops: seq<Op>)
    requires HeaderOk(h)
  {
    && Program(h, h.opcodeBase, bs, cuts, ops) && AllOpcodesTaken(h, bs, cuts, |ops|)
    && StepsAlike(h, Start(h), ops, 0) && Narrow(h, Start(h), ops, 0) && Sets(h, Start(h), ops, 0)
    && FilesOk(StdRows(h, Start(h), ops, 0))
  }

  // ---- tables ----

  /** A table: rows about lines, before the end of the sequence. */
  predicate TableOk(t: seq<Emitted>) {
    t != [] && forall j :: 0 <= j < |t| ==> RowFits(t[j])
  }

  predicate RowFits(e: Emitted) {
    && 0 <= e.address < 0x1_0000_0000 && 1 <= e.line < 0x8000_0000 && 1 <= e.file < 0x8000_0000
    && 0 <= e.isa < 0x1_0000 && !e.flags.ended
  }

  /** The operations of a row: any number that change registers, but for an absolute address, and one that
      emits the row. */
  datatype Group = Group(moves: seq<Op>, last: Op)

  predicate Moves(op: Op) { !Emits(op) && !op.SetAddress? }

  predicate AllMove(h: Header, ops: seq<Op>) {
    forall i :: 0 <= i < |ops| ==> Moves(ops[i]) && OpFits(h, ops[i])
  }

  predicate GroupOk(h: Header, g: Group) {
    AllMove(h, g.moves) && (g.last.Copy? || g.last.Special?) && OpFits(h, g.last)
  }

  /** How far an operation moves the address. */
  function AddressBy(h: Header, op: Op): int
    requires HeaderOk(h)
  {
    match op
    case Special(o) => h.minInst * ((o - h.opcodeBase) / h.lineRange)
    case AdvancePc(n) => h.minInst * n
    case ConstAddPc => h.minInst * ConstAdvance(h)
    case FixedAdvancePc(n) => n
    case _ => 0
  }

  /** How far it moves the line. */
  function LineBy(h: Header, op: Op): int
    requires HeaderOk(h)
  {
    match op
    case Special(o) => h.lineBase + (o - h.opcodeBase) % h.lineRange
    case AdvanceLine(d) => d
    case _ => 0
  }

  function AddressSum(h: Header, ops: seq<Op>): int
    requires HeaderOk(h)
  {
    if ops == [] then 0 else AddressBy(h, ops[0]) + AddressSum(h, ops[1..])
  }

  function LineSum(h: Header, ops: seq<Op>): int
    requires HeaderOk(h)
  {
    if ops == [] then 0 else LineBy(h, ops[0]) + LineSum(h, ops[1..])
  }

  /** The last file set, else f; and so for the ISA. */
  function LastFile(ops: seq<Op>, f: int): int {
    if ops == [] then f else LastFile(ops[1..], if ops[0].SetFile? then ops[0].n else f)
  }

  function LastIsa(ops: seq<Op>, i: int): int {
    if ops == [] then i else LastIsa(ops[1..], if ops[0].SetIsa? then ops[0].n else i)
  }

  /** The flags after an operation. */
  function FlagsBy(op: Op, f: Flags): Flags {
    match op
    case NegateStmt => f.(stmt := !f.stmt)
    case SetBasicBlock => f.(block := true)
    case SetPrologueEnd => f.(prologue := true)
    case SetEpilogueBegin => f.(epilogue := true)
    case _ => f
  }

  function FlagsAll(ops: seq<Op>, f: Flags): Flags {
    if ops == [] then f else FlagsAll(ops[1..], FlagsBy(ops[0], f))
  }

  /** The registers after operations that move. */
  function Moved(h: Header, r: Regs, ops: seq<Op>): Regs
    requires HeaderOk(h)
  {
    Regs(r.address + AddressSum(h, ops), r.opIndex, LastFile(ops, r.file), r.line + LineSum(h, ops),
         LastIsa(ops, r.isa), FlagsAll(ops, r.flags))
  }

  /** The row a group emits, from registers r. */
  function RowReached(h: Header, r: Regs, g: Group): Emitted
    requires HeaderOk(h)
  {
    FinalRow(h, Moved(h, r, g.moves), g.last)
  }

  function FinalRow(h: Header, r: Regs, op: Op): Emitted
    requires HeaderOk(h)
  {
    Emitted(r.file, r.line + LineBy(h, op), r.address + AddressBy(h, op), r.flags, r.isa)
  }

  /** The registers after a row. */
  function After(e: Emitted): Regs { Regs(e.address, 0, e.file, e.line, e.isa, Cleared(e.flags)) }

  /** From row j on, every group comes to its row: its advances add up to the row's address and line, the last file
      and ISA it sets are the row's, and so are the flags. */
  predicate AllReach(h: Header, t: seq<Emitted>, gs: seq<Group>, j: nat, r: Regs)
    requires HeaderOk(h) && j <= |t| == |gs|
    decreases |t| - j
  {
    j < |t| ==> RowReached(h, r, gs[j]) == t[j] && AllReach(h, t, gs, j + 1, After(t[j]))
  }

  /** The operations of the groups from j on, and the end of the sequence. */
  function GroupOps(gs: seq<Group>, j: nat): seq<Op>
    requires j <= |gs|
    decreases |gs| - j
  {
    if j == |gs| then [EndSequence] else gs[j].moves + ([gs[j].last] + GroupOps(gs, j + 1))
  }

  /** The program that starts at address a. */
  function TableOps(a: int, gs: seq<Group>): seq<Op> { [SetAddress(a)] + GroupOps(gs, 0) }

  function StartAt(h: Header, a: int): Regs { Start(h).(address := a) }

  /** The rows of the table from j on, and the end of the sequence, from registers r. */
  function TableRows(h: Header, t: seq<Emitted>, j: nat, r: Regs): seq<Emitted>
    requires j <= |t|
    decreases |t| - j
  {
    if j == |t| then [Emitted(r.file, 0, r.address, r.flags.(ended := true), r.isa)]
    else [t[j]] + TableRows(h, t, j + 1, After(t[j]))
  }

  // ---- an operation in front of others ----

  lemma {:induction false} RowsShift(h: Header, r: Regs, op: Op, ops: seq<Op>, i: nat)
    requires HeaderOk(h) && i <= |ops|
    ensures StdRows(h, r, [op] + ops, i + 1) == StdRows(h, r, ops, i)
    ensures Narrow(h, r, [op] + ops, i + 1) == Narrow(h, r, ops, i)
    decreases |ops| - i
  {
    if i < |ops| { RowsShift(h, StdExec(h, r, ops[i]), op, ops, i + 1); }
  }

  lemma {:induction false} SetShift(op: Op, ops: seq<Op>, i: nat)
    requires i <= |ops|
    ensures AddressSet([op] + ops, i + 1) == AddressSet(ops, i) && IsaSet([op] + ops, i + 1) == IsaSet(ops, i)
    decreases |ops| - i
  {
    if i < |ops| { SetShift(op, ops, i + 1); }
  }

  lemma {:induction false} SetsShift(h: Header, r: Regs, op: Op, ops: seq<Op>, i: nat)
    requires HeaderOk(h) && i <= |ops|
    ensures Sets(h, r, [op] + ops, i + 1) == Sets(h, r, ops, i)
    decreases |ops| - i
  {
    if i < |ops| {
      SetsShift(h, StdExec(h, r, ops[i]), op, ops, i + 1);
      SetShift(op, ops, i + 1);
    }
  }

  /** The rest of a program after a first operation that does not end the sequence. */
  lemma FirstOp(h: Header, r: Regs, op: Op, ops: seq<Op>)
    requires HeaderOk(h) && !op.EndSequence?
    ensures StdRows(h, r, [op] + ops, 0)
            == (if StdEmission(h, r, op).Some? then [StdEmission(h, r, op).value] else []) + StdRows(h, StdExec(h, r, op), ops, 0)
    ensures Narrow(h, r, [op] + ops, 0) <==> StepFits(h, r, op) && Narrow(h, StdExec(h, r, op), ops, 0)
    ensures Sets(h, r, [op] + ops, 0) <==> Sets(h, StdExec(h, r, op), ops, 0)
  {
    RowsShift(h, StdExec(h, r, op), op, ops, 0);
    SetsShift(h, StdExec(h, r, op), op, ops, 0);
    assert ([op] + ops)[0] == op;
  }

  // ---- what a group does ----

  lemma MoveDone(h: Header, r: Regs, op: Op)
    requires HeaderOk(h) && h.maxOps == 1 && r.opIndex == 0 && Moves(op)
    ensures StdExec(h, r, op) == Regs(r.address + AddressBy(h, op), 0, if op.SetFile? then op.n else r.file,
                                      r.line + LineBy(h, op), if op.SetIsa? then op.n else r.isa, FlagsBy(op, r.flags))
    ensures StdEmission(h, r, op).None?
  {
    if op.AdvancePc? { AdvancedFlat(h, r, op.n); }
    if op.ConstAddPc? { AdvancedFlat(h, r, ConstAdvance(h)); }
  }

  lemma LastDone(h: Header, r: Regs, op: Op)
    requires HeaderOk(h) && h.maxOps == 1 && r.opIndex == 0 && (op.Copy? || op.Special?)
    ensures var s := r.(address := r.address + AddressBy(h, op), line := r.line + LineBy(h, op));
            && StdEmission(h, r, op) == Some(RowOf(s)) && StdExec(h, r, op) == s.(flags := Cleared(s.flags))
            && (op.Special? ==> StdStepped(h, r, op.opcode) == s)
  {
    if op.Special? { AdvancedFlat(h, r, (op.opcode - h.opcodeBase) / h.lineRange); }
  }

  lemma {:induction false} MovesDone(h: Header, r: Regs, moves: seq<Op>, rest: seq<Op>)
    requires HeaderOk(h) && h.maxOps == 1 && r.opIndex == 0 && AllMove(h, moves)
    ensures StdRows(h, r, moves + rest, 0) == StdRows(h, Moved(h, r, moves), rest, 0)
    ensures Sets(h, r, moves + rest, 0) <==> Sets(h, Moved(h, r, moves), rest, 0)
    decreases |moves|
  {
    if moves == [] {
      assert moves + rest == rest;
    } else {
      var op := moves[0];
      assert moves + rest == [op] + (moves[1..] + rest);
      MoveDone(h, r, op);
      FirstOp(h, r, op, moves[1..] + rest);
      MovesDone(h, StdExec(h, r, op), moves[1..], rest);
    }
  }

  /** A group emits one row, the one it comes to. */
  lemma GroupDone(h: Header, r: Regs, g: Group, rest: seq<Op>)
    requires HeaderOk(h) && h.maxOps == 1 && r.opIndex == 0 && GroupOk(h, g)
    ensures var e := RowReached(h, r, g); var ops := g.moves + ([g.last] + rest);
            && StdRows(h, r, ops, 0) == [e] + StdRows(h, After(e), rest, 0)
            && (Sets(h, r, ops, 0) <==> Sets(h, After(e), rest, 0))
  {
    MovesDone(h, r, g.moves, [g.last] + rest);
    FinalRows(h, Moved(h, r, g.moves), g.last, rest);
  }

  /** The row of the operation that emits it, and those after it. */
  lemma FinalRows(h: Header, r: Regs, op: Op, rest: seq<Op>)
    requires HeaderOk(h) && h.maxOps == 1 && r.opIndex == 0 && (op.Copy? || op.Special?)
    ensures var e := FinalRow(h, r, op);
            && StdRows(h, r, [op] + rest, 0) == [e] + StdRows(h, After(e), rest, 0)
            && (Sets(h, r, [op] + rest, 0) <==> Sets(h, After(e), rest, 0))
  {
    FinalStep(h, r, op);
    FirstOp(h, r, op, rest);
  }

  lemma FinalStep(h: Header, r: Regs, op: Op)
    requires HeaderOk(h) && h.maxOps == 1 && r.opIndex == 0 && (op.Copy? || op.Special?)
    ensures StdEmission(h, r, op) == Some(FinalRow(h, r, op)) && StdExec(h, r, op) == After(FinalRow(h, r, op))
  {
    LastDone(h, r, op);
  }

  lemma FinalNarrow(h: Header, r: Regs, op: Op, rest: seq<Op>)
    requires HeaderOk(h) && h.maxOps == 1 && r.opIndex == 0 && (op.Copy? || op.Special?)
    requires OpFits(h, op) && RowFits(FinalRow(h, r, op)) && Narrow(h, After(FinalRow(h, r, op)), rest, 0)
    ensures Narrow(h, r, [op] + rest, 0)
  {
    LastFits(h, r, op);
    FirstOp(h, r, op, rest);
  }

  lemma LastFits(h: Header, r: Regs, op: Op)
    requires HeaderOk(h) && h.maxOps == 1 && r.opIndex == 0 && (op.Copy? || op.Special?)
    requires OpFits(h, op) && RowFits(FinalRow(h, r, op))
    ensures StepFits(h, r, op) && StdExec(h, r, op) == After(FinalRow(h, r, op))
  {
    LastDone(h, r, op);
  }

  lemma EndDone(h: Header, r: Regs)
    requires HeaderOk(h)
    ensures StdRows(h, r, [EndSequence], 0) == [Emitted(r.file, 0, r.address, r.flags.(ended := true), r.isa)]
    ensures Sets(h, r, [EndSequence], 0)
    ensures Narrow(h, r, [EndSequence], 0)
  {
    var ops := [EndSequence];
    assert StdRows(h, Start(h), ops, 1) == [];
    assert AddressSet(ops, 1) && IsaSet(ops, 1);
  }

  /** Groups have the rows of a table exactly when each comes to its row. */
  lemma {:induction false} GroupRows(h: Header, t: seq<Emitted>, gs: seq<Group>, j: nat, r: Regs)
    requires HeaderOk(h) && h.maxOps == 1 && r.opIndex == 0 && j <= |t| == |gs| && forall i :: 0 <= i < |gs| ==> GroupOk(h, gs[i])
    ensures StdRows(h, r, GroupOps(gs, j), 0) == TableRows(h, t, j, r) <==> AllReach(h, t, gs, j, r)
    ensures Sets(h, r, GroupOps(gs, j), 0)
    decreases |t| - j
  {
    if j < |t| {
      var e, rest := RowReached(h, r, gs[j]), GroupOps(gs, j + 1);
      GroupDone(h, r, gs[j], rest);
      GroupRows(h, t, gs, j + 1, After(e));
      FirstRows(e, t[j], StdRows(h, After(e), rest, 0), TableRows(h, t, j + 1, After(t[j])));
    } else {
      EndDone(h, r);
    }
  }

  /** A program made of groups has the rows of a table exactly when each group comes to its row, whatever mix
      of operations it is. */
  lemma ProgramRows(h: Header, t: seq<Emitted>, gs: seq<Group>, a: int)
    requires HeaderOk(h) && h.maxOps == 1 && |t| == |gs| && forall i :: 0 <= i < |gs| ==> GroupOk(h, gs[i])
    ensures StdRows(h, Start(h), TableOps(a, gs), 0) == TableRows(h, t, 0, StartAt(h, a)) <==> AllReach(h, t, gs, 0, StartAt(h, a))
    ensures Sets(h, Start(h), TableOps(a, gs), 0)
  {
    GroupRows(h, t, gs, 0, StartAt(h, a));
    FirstOp(h, Start(h), SetAddress(a), GroupOps(gs, 0));
  }

  // ---- within the reader's widths ----

  /** The lines on the way are within 32 bits. */
  predicate LinesFit(h: Header, l: int, moves: seq<Op>)
    requires HeaderOk(h)
    decreases |moves|
  {
    -0x8000_0000 <= l < 0x8000_0000 && (moves != [] ==> LinesFit(h, l + LineBy(h, moves[0]), moves[1..]))
  }

  predicate AllLinesFit(h: Header, t: seq<Emitted>, gs: seq<Group>, j: nat, l: int)
    requires HeaderOk(h) && j <= |t| == |gs|
    decreases |t| - j
  {
    j < |t| ==> LinesFit(h, l, gs[j].moves) && AllLinesFit(h, t, gs, j + 1, t[j].line)
  }

  lemma AddressUp(h: Header, op: Op)
    requires HeaderOk(h) && OpFits(h, op)
    ensures AddressBy(h, op) >= 0
  {
    match op
    case Special(o) => DivBelow(o - h.opcodeBase, h.lineRange); Positive(h.minInst, (o - h.opcodeBase) / h.lineRange);
    case AdvancePc(n) => Positive(h.minInst, n);
    case ConstAddPc => DivBelow(255 - h.opcodeBase, h.lineRange); Positive(h.minInst, ConstAdvance(h));
    case _ =>
  }

  lemma Positive(m: nat, n: nat)
    ensures m * n >= 0
  {}

  lemma {:induction false} AddressesUp(h: Header, ops: seq<Op>)
    requires HeaderOk(h) && AllMove(h, ops)
    ensures AddressSum(h, ops) >= 0
    decreases |ops|
  {
    if ops != [] {
      AddressUp(h, ops[0]);
      AddressesUp(h, ops[1..]);
    }
  }

  lemma {:induction false} MovesNarrow(h: Header, r: Regs, moves: seq<Op>, rest: seq<Op>)
    requires HeaderOk(h) && h.maxOps == 1 && r.opIndex == 0 && RegsFit(r) && AllMove(h, moves) && LinesFit(h, r.line, moves)
    requires r.address + AddressSum(h, moves) < 0x1_0000_0000 && Narrow(h, Moved(h, r, moves), rest, 0)
    ensures Narrow(h, r, moves + rest, 0) && RegsFit(Moved(h, r, moves))
    decreases |moves|
  {
    if moves == [] {
      assert moves + rest == rest;
    } else {
      assert moves + rest == [moves[0]] + (moves[1..] + rest);
      FirstMove(h, r, moves);
      MovesNarrow(h, StdExec(h, r, moves[0]), moves[1..], rest);
      FirstOp(h, r, moves[0], moves[1..] + rest);
    }
  }

  /** The first of operations that move. */
  lemma FirstMove(h: Header, r: Regs, moves: seq<Op>)
    requires HeaderOk(h) && h.maxOps == 1 && r.opIndex == 0 && RegsFit(r) && AllMove(h, moves) && moves != []
    requires LinesFit(h, r.line, moves) && r.address + AddressSum(h, moves) < 0x1_0000_0000
    ensures var r', more := StdExec(h, r, moves[0]), moves[1..];
            && StepFits(h, r, moves[0]) && RegsFit(r') && r'.opIndex == 0 && Moved(h, r', more) == Moved(h, r, moves)
            && AllMove(h, more) && LinesFit(h, r'.line, more) && r'.address + AddressSum(h, more) < 0x1_0000_0000
  {
    AddressUp(h, moves[0]);
    AddressesUp(h, moves[1..]);
    MoveNarrow(h, r, moves[0]);
    MoveDone(h, r, moves[0]);
  }

  lemma MoveNarrow(h: Header, r: Regs, op: Op)
    requires HeaderOk(h) && h.maxOps == 1 && r.opIndex == 0 && RegsFit(r) && Moves(op) && OpFits(h, op)
    requires 0 <= r.address + AddressBy(h, op) < 0x1_0000_0000 && -0x8000_0000 <= r.line + LineBy(h, op) < 0x8000_0000
    ensures StepFits(h, r, op) && RegsFit(StdExec(h, r, op))
  {
    MoveDone(h, r, op);
  }

  lemma GroupNarrow(h: Header, r: Regs, g: Group, rest: seq<Op>)
    requires HeaderOk(h) && h.maxOps == 1 && r.opIndex == 0 && RegsFit(r) && GroupOk(h, g) && LinesFit(h, r.line, g.moves)
    requires RowFits(RowReached(h, r, g)) && Narrow(h, After(RowReached(h, r, g)), rest, 0)
    ensures Narrow(h, r, g.moves + ([g.last] + rest), 0)
  {
    AddressUp(h, g.last);
    FinalNarrow(h, Moved(h, r, g.moves), g.last, rest);
    MovesNarrow(h, r, g.moves, [g.last] + rest);
  }

  lemma {:induction false} GroupsNarrow(h: Header, t: seq<Emitted>, gs: seq<Group>, j: nat, r: Regs)
    requires HeaderOk(h) && h.maxOps == 1 && j <= |t| == |gs| && (forall i :: 0 <= i < |gs| ==> GroupOk(h, gs[i]))
    requires r.opIndex == 0 && RegsFit(r) && TableOk(t) && AllReach(h, t, gs, j, r) && AllLinesFit(h, t, gs, j, r.line)
    ensures Narrow(h, r, GroupOps(gs, j), 0)
    decreases |t| - j
  {
    if j < |t| {
      assert RowFits(t[j]) && GroupOk(h, gs[j]);
      GroupsNarrow(h, t, gs, j + 1, After(t[j]));
      GroupNarrow(h, r, gs[j], GroupOps(gs, j + 1));
    } else {
      EndDone(h, r);
    }
  }

  // ---- reading a table back ----

  /** The groups make up the table from its first address, and the lines on the way fit. */
  ghost predicate Writes(h: Header, t: seq<Emitted>, gs: seq<Group>)
    requires HeaderOk(h)
  {
    && TableOk(t) && |gs| == |t| && (forall i :: 0 <= i < |gs| ==> GroupOk(h, gs[i]))
    && AllReach(h, t, gs, 0, StartAt(h, t[0].address)) && AllLinesFit(h, t, gs, 0, 1)
  }

  lemma TableRead(h: Header, t: seq<Emitted>, gs: seq<Group>)
    requires HeaderOk(h) && h.maxOps == 1 && Writes(h, t, gs)
    ensures Rows(h, Start(h), TableOps(t[0].address, gs), 0) == TableRows(h, t, 0, StartAt(h, t[0].address))
  {
    var a := t[0].address;
    assert RowFits(t[0]);
    ProgramRows(h, t, gs, a);
    GroupsNarrow(h, t, gs, 0, StartAt(h, a));
    FirstOp(h, Start(h), SetAddress(a), GroupOps(gs, 0));
    FlatAlike(h, Start(h), TableOps(a, gs), 0);
    ReaderMeetsStandard(h, TableOps(a, gs));
  }

  lemma {:induction false} TableFiles(h: Header, t: seq<Emitted>, j: nat, r: Regs, files: nat)
    requires j <= |t| && 1 <= r.file <= files && forall i :: 0 <= i < |t| ==> 1 <= t[i].file <= files
    ensures FilesOk(TableRows(h, t, j, r)) && Kept(TableRows(h, t, j, r), files) == TableRows(h, t, j, r)
    decreases |t| - j
  {
    if j < |t| {
      TableFiles(h, t, j + 1, After(t[j]), files);
      FirstKept(t[j], TableRows(h, t, j + 1, After(t[j])), files);
    } else {
      FirstKept(TableRows(h, t, j, r)[0], [], files);
    }
  }

  lemma FirstKept(row: Emitted, rest: seq<Emitted>, files: nat)
    requires 1 <= row.file <= files && FilesOk(rest)
    ensures FilesOk([row] + rest) && Kept([row] + rest, files) == [row] + Kept(rest, files)
  {
    assert ([row] + rest)[1..] == rest;
  }

  /** Reading any bytes that encode groups for a table records exactly the table. */
  method ReadBack(h: Header, bs: seq<Byte>, local: Local, ghost cuts: seq<nat>, ghost t: seq<Emitted>, ghost gs: seq<Group>)
    returns (out: Outcome)
    requires HeaderOk(h) && h.maxOps == 1 && Writes(h, t, gs) && local.Valid()
    requires |local.low| >= 1 && forall i :: 0 <= i < |t| ==> t[i].file <= |local.low|
    requires Program(h, FIRST_SPECIAL, bs, cuts, TableOps(t[0].address, gs))
    modifies local
    ensures out == Done && local.rows == old(local.rows) + TableRows(h, t, 0, StartAt(h, t[0].address))
  {
    TableRead(h, t, gs);
    assert forall i :: 0 <= i < |t| ==> RowFits(t[i]);
    TableFiles(h, t, 0, StartAt(h, t[0].address), |local.low|);
    ghost var before := local.rows;
    out := ReadLines(h, bs, local);
    RanProgram(h, bs, before, local.rows, |local.low|, out, cuts, TableOps(t[0].address, gs));
  }
}
