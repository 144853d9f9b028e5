/** The line-number state machine as sections 6.2.2 and 6.2.5 of DWARF 4 define it, on unbounded numbers,
    and exactly when the reader agrees with it. */
module LineStandard {
  import opened Arith
  import opened Options
  import opened LineProgram
  import opened LineReader

  /** Section 6.2.5.1: moving on by an operation advance. */
  function Advanced(h: Header, r: Regs, n: int): Regs
    requires HeaderOk(h)
  {
    var index := r.opIndex + n;
    r.(address := r.address + h.minInst * (index / h.maxOps), opIndex := index % h.maxOps)
  }

  function ConstAdvance(h: Header): int
    requires HeaderOk(h)
  {
    (255 - h.opcodeBase) / h.lineRange
  }

  /** The registers of a special opcode's row. */
  function StdStepped(h: Header, r: Regs, opcode: int): Regs
    requires HeaderOk(h)
  {
    var adjusted := opcode - h.opcodeBase;
    var s := Advanced(h, r, adjusted / h.lineRange);
    s.(line := s.line + h.lineBase + adjusted % h.lineRange)
  }

  function StdEmission(h: Header, r: Regs, op: Op): Option<Emitted>
    requires HeaderOk(h)
  {
    match op
    case Special(o) => Some(RowOf(StdStepped(h, r, o)))
    case Copy => Some(RowOf(r))
    case EndSequence => Some(Emitted(r.file, 0, r.address, r.flags.(ended := true), r.isa))
    case _ => None
  }

  function StdExec(h: Header, r: Regs, op: Op): Regs
    requires HeaderOk(h)
  {
    match op
    case Special(o) => var s := StdStepped(h, r, o); s.(flags := Cleared(s.flags))
    case Copy => r.(flags := Cleared(r.flags))
    case AdvancePc(n) => Advanced(h, r, n)
    case AdvanceLine(d) => r.(line := r.line + d)
    case SetFile(n) => r.(file := n)
    case SetColumn(_) => r
    case NegateStmt => r.(flags := r.flags.(stmt := !r.flags.stmt))
    case SetBasicBlock => r.(flags := r.flags.(block := true))
    case ConstAddPc => Advanced(h, r, ConstAdvance(h))
    case FixedAdvancePc(n) => r.(address := r.address + n, opIndex := 0)
    case SetPrologueEnd => r.(flags := r.flags.(prologue := true))
    case SetEpilogueBegin => r.(flags := r.flags.(epilogue := true))
    case SetIsa(n) => r.(isa := n)
    case EndSequence => Start(h)
    case SetAddress(a) => r.(address := a, opIndex := 0)
    case SetDiscriminator(_) => r
  }

  function StdRows(h: Header, r: Regs, ops: seq<Op>, i: nat): seq<Emitted>
    requires HeaderOk(h) && i <= |ops|
    decreases |ops| - i
  {
    if i == |ops| then []
    else
      (if StdEmission(h, r, ops[i]).Some? then [StdEmission(h, r, ops[i]).value] else [])
      + StdRows(h, StdExec(h, r, ops[i]), ops, i + 1)
  }

  // ---- when the reader agrees ----

  /** The operation emits a row. */
  predicate Emits(op: Op) { op.Special? || op.Copy? || op.EndSequence? }

  /** The address is set before the next row, if there is one. */
  predicate AddressSet(ops: seq<Op>, i: nat)
    requires i <= |ops|
    decreases |ops| - i
  {
    i == |ops| || ops[i].SetAddress? || (!Emits(ops[i]) && AddressSet(ops, i + 1))
  }

  /** So is the ISA. */
  predicate IsaSet(ops: seq<Op>, i: nat)
    requires i <= |ops|
    decreases |ops| - i
  {
    i == |ops| || ops[i].SetIsa? || (!Emits(ops[i]) && IsaSet(ops, i + 1))
  }

  predicate RegsFit(r: Regs) {
    0 <= r.address < 0x1_0000_0000 && -0x8000_0000 <= r.line < 0x8000_0000 && 0 <= r.file < 0x8000_0000
    && 0 <= r.isa < 0x1_0000
  }

  /** The operation's operand is one it can have, within the reader's width. */
  predicate OpFits(h: Header, op: Op) {
    match op
    case Special(o) => h.opcodeBase <= o < 256
    case AdvancePc(n) => 0 <= n
    case SetFile(n) => 0 <= n < 0x8000_0000
    case SetIsa(n) => 0 <= n < 0x1_0000
    case FixedAdvancePc(n) => 0 <= n
    case _ => true
  }

  /** The operation keeps the registers within the reader's widths. */
  predicate StepFits(h: Header, r: Regs, op: Op)
    requires HeaderOk(h)
  {
    && OpFits(h, op) && RegsFit(StdExec(h, r, op))
    && (op.Special? ==> RegsFit(StdStepped(h, r, op.opcode)))
  }

  /** So do all operations from i on. */
  predicate Narrow(h: Header, r: Regs, ops: seq<Op>, i: nat)
    requires HeaderOk(h) && i <= |ops|
    decreases |ops| - i
  {
    i < |ops| ==> StepFits(h, r, ops[i]) && Narrow(h, StdExec(h, r, ops[i]), ops, i + 1)
  }

  /** A sequence that does not end at address 0 is followed by one that sets its address before its first row,
      and likewise for the ISA. */
  predicate Sets(h: Header, r: Regs, ops: seq<Op>, i: nat)
    requires HeaderOk(h) && i <= |ops|
    decreases |ops| - i
  {
    i < |ops| ==>
      && (ops[i].EndSequence? ==> (r.address == 0 || AddressSet(ops, i + 1)) && (r.isa == 0 || IsaSet(ops, i + 1)))
      && Sets(h, StdExec(h, r, ops[i]), ops, i + 1)
  }

  /** One operation an instruction, or instructions without length: the address never depends on the
      operation index. */
  predicate FlatHeader(h: Header) { h.maxOps == 1 || h.minInst == 0 }

  /** The reader moves by the operation as the standard does, and leaves the same operation index: an operation
      advance is one of instructions or none, and the index is 0 where the standard resets it. */
  predicate StepAlike(h: Header, r: Regs, op: Op)
    requires HeaderOk(h)
  {
    h.minInst == 0 ||
    match op
    case AdvancePc(n) => h.maxOps == 1 || n == 0
    case ConstAddPc => h.maxOps == 1 || ConstAdvance(h) == 0
    case FixedAdvancePc(_) => r.opIndex == 0
    case SetAddress(_) => r.opIndex == 0
    case EndSequence => r.opIndex == 0
    case _ => true
  }

  /** So it does for all operations from i on. */
  predicate StepsAlike(h: Header, r: Regs, ops: seq<Op>, i: nat)
    requires HeaderOk(h) && i <= |ops|
    decreases |ops| - i
  {
    i < |ops| ==> StepAlike(h, r, ops[i]) && StepsAlike(h, StdExec(h, r, ops[i]), ops, i + 1)
  }

  /** The reader's registers c and the standard's s, but for address and ISA. */
  predicate Even(h: Header, c: Regs, s: Regs) {
    && c.file == s.file && c.line == s.line && c.flags == s.flags
    && (h.minInst == 0 || c.opIndex == s.opIndex < h.maxOps)
    && 0 <= c.address < 0x1_0000_0000 && 0 <= c.isa < 0x1_0000 && RegsFit(s)
  }

  lemma Int32Fits(n: int)
    requires -0x8000_0000 <= n < 0x8000_0000
    ensures Int32(n) == n
  {}

  /** With one operation an instruction, or none to move by. */
  lemma WholeMove(h: Header, index: nat, n: int)
    requires HeaderOk(h) && index < h.maxOps && (h.maxOps == 1 || n == 0)
    ensures (index + n) / h.maxOps == n && (index + n) % h.maxOps == index
  {
    if h.maxOps == 1 { assert (index + n) / 1 == n && (index + n) % 1 == 0; }
  }

  lemma AdvancedFlat(h: Header, r: Regs, n: int)
    requires HeaderOk(h) && h.maxOps == 1 && r.opIndex == 0
    ensures Advanced(h, r, n) == r.(address := r.address + h.minInst * n)
  {
    WholeMove(h, 0, n);
  }

  lemma AdjustedFits(h: Header, o: int)
    requires HeaderOk(h) && h.opcodeBase <= o < 256
    ensures var a := o - h.opcodeBase; Mod32(a) == a && 0 <= a / h.lineRange <= a
  {
    DivBelow(o - h.opcodeBase, h.lineRange);
  }

  /** Two addresses of 32 bits that move on alike stay equal or different. */
  lemma AddressMoves(c: int, s: int, move: int)
    requires 0 <= c < 0x1_0000_0000 && 0 <= s < 0x1_0000_0000 && 0 <= s + move < 0x1_0000_0000
    ensures Mod32(c + move) == s + move <==> c == s
  {
    SmallMod(s + move);
    if c < s { ModUp(c + move, s - c); } else if c > s { ModUp(s + move, c - s); }
  }

  lemma ModUp(x: int, d: int)
    requires 0 < d < 0x1_0000_0000
    ensures Mod32(x + d) != Mod32(x)
  {}

  /** A special opcode. */
  lemma SteppedAgree(h: Header, c: Regs, s: Regs, o: int)
    requires HeaderOk(h) && h.opcodeBase <= o < 256 && Even(h, c, s) && RegsFit(StdStepped(h, s, o))
    ensures var c', s' := Stepped(h, c, o), StdStepped(h, s, o);
            Even(h, c', s') && c'.isa == c.isa && s'.isa == s.isa && (c'.address == s'.address <==> c.address == s.address)
  {
    var n := (o - h.opcodeBase) / h.lineRange;
    AdjustedFits(h, o);
    Int32Fits(StdStepped(h, s, o).line);
    if h.minInst == 0 {
      NoLength(h.minInst, Mod32(c.opIndex + n) / h.maxOps, (s.opIndex + n) / h.maxOps);
      AddressMoves(c.address, s.address, 0);
    } else {
      SmallMod(c.opIndex + n);
      AddressMoves(c.address, s.address, h.minInst * ((s.opIndex + n) / h.maxOps));
    }
  }

  lemma NoLength(m: int, a: int, b: int)
    requires m == 0
    ensures m * a == m * b == 0
  {}

  /** The rows from i on are the same exactly when these hold. */
  ghost predicate Agreeing(h: Header, c: Regs, s: Regs, ops: seq<Op>, i: nat)
    requires HeaderOk(h) && i <= |ops|
  {
    (c.address == s.address || AddressSet(ops, i)) && (c.isa == s.isa || IsaSet(ops, i)) && Sets(h, s, ops, i)
  }

  /** An operation that emits a row: it is the same row exactly when address and ISA are the same. */
  lemma RowStep(h: Header, c: Regs, s: Regs, ops: seq<Op>, i: nat)
    requires HeaderOk(h) && i < |ops| && Even(h, c, s) && StepFits(h, s, ops[i]) && StepAlike(h, s, ops[i]) && Emits(ops[i])
    ensures Even(h, Exec(h, c, ops[i]), StdExec(h, s, ops[i]))
    ensures Emission(h, c, ops[i]).Some? && StdEmission(h, s, ops[i]).Some?
    ensures Emission(h, c, ops[i]) == StdEmission(h, s, ops[i]) <==> c.address == s.address && c.isa == s.isa
    ensures Agreeing(h, c, s, ops, i) <==>
              Emission(h, c, ops[i]) == StdEmission(h, s, ops[i])
              && Agreeing(h, Exec(h, c, ops[i]), StdExec(h, s, ops[i]), ops, i + 1)
  {
    if ops[i].Special? { SteppedAgree(h, c, s, ops[i].opcode); }
  }

  /** An operation that moves the address. */
  lemma AdvanceStep(h: Header, c: Regs, s: Regs, op: Op)
    requires HeaderOk(h) && Even(h, c, s) && StepFits(h, s, op) && StepAlike(h, s, op)
    requires op.AdvancePc? || op.ConstAddPc? || op.FixedAdvancePc?
    ensures var c', s' := Exec(h, c, op), StdExec(h, s, op);
            Even(h, c', s') && c'.isa == c.isa && s'.isa == s.isa && (c'.address == s'.address <==> c.address == s.address)
  {
    if op.FixedAdvancePc? {
      AddressMoves(c.address, s.address, op.n);
    } else {
      var n := if op.AdvancePc? then op.n else ConstAdvance(h);
      if h.minInst == 0 {
        NoLength(h.minInst, n, (s.opIndex + n) / h.maxOps);
        AddressMoves(c.address, s.address, 0);
      } else {
        WholeMove(h, s.opIndex, n);
        AddressMoves(c.address, s.address, h.minInst * n);
      }
    }
  }

  /** Any other operation. */
  lemma OtherStep(h: Header, c: Regs, s: Regs, op: Op)
    requires HeaderOk(h) && Even(h, c, s) && StepFits(h, s, op) && StepAlike(h, s, op) && !Emits(op)
    requires !op.AdvancePc? && !op.ConstAddPc? && !op.FixedAdvancePc?
    ensures var c', s' := Exec(h, c, op), StdExec(h, s, op);
            && Even(h, c', s')
            && (c'.address == s'.address <==> c.address == s.address || op.SetAddress?)
            && (c'.isa == s'.isa <==> c.isa == s.isa || op.SetIsa?)
  {
    match op
    case AdvanceLine(d) => Int32Fits(s.line + d);
    case SetFile(n) => Int32Fits(n);
    case _ =>
  }

  /** An operation that emits none. */
  lemma QuietStep(h: Header, c: Regs, s: Regs, ops: seq<Op>, i: nat)
    requires HeaderOk(h) && i < |ops| && Even(h, c, s) && StepFits(h, s, ops[i]) && StepAlike(h, s, ops[i]) && !Emits(ops[i])
    ensures Even(h, Exec(h, c, ops[i]), StdExec(h, s, ops[i]))
    ensures Agreeing(h, c, s, ops, i) <==> Agreeing(h, Exec(h, c, ops[i]), StdExec(h, s, ops[i]), ops, i + 1)
  {
    if ops[i].AdvancePc? || ops[i].ConstAddPc? || ops[i].FixedAdvancePc? {
      AdvanceStep(h, c, s, ops[i]);
    } else {
      OtherStep(h, c, s, ops[i]);
    }
  }

  /** The rows of the first operation and those of the others. */
  lemma RowsOfFirst(h: Header, c: Regs, s: Regs, ops: seq<Op>, i: nat)
    requires HeaderOk(h) && i < |ops|
    ensures var x, y := Emission(h, c, ops[i]), StdEmission(h, s, ops[i]);
            var a, b := Rows(h, Exec(h, c, ops[i]), ops, i + 1), StdRows(h, StdExec(h, s, ops[i]), ops, i + 1);
            Rows(h, c, ops, i) == StdRows(h, s, ops, i) <==> x == y && a == b
  {
    var x, y := Emission(h, c, ops[i]), StdEmission(h, s, ops[i]);
    var a, b := Rows(h, Exec(h, c, ops[i]), ops, i + 1), StdRows(h, StdExec(h, s, ops[i]), ops, i + 1);
    if Emits(ops[i]) {
      FirstRows(x.value, y.value, a, b);
    } else {
      assert [] + a == a && [] + b == b;
    }
  }

  /** The reader emits the rows the standard defines exactly when every sequence that starts with a register
      left over from the one before sets it. */
  lemma {:induction false} AgreeFrom(h: Header, c: Regs, s: Regs, ops: seq<Op>, i: nat)
    requires HeaderOk(h) && i <= |ops| && Even(h, c, s) && Narrow(h, s, ops, i) && StepsAlike(h, s, ops, i)
    ensures Rows(h, c, ops, i) == StdRows(h, s, ops, i) <==> Agreeing(h, c, s, ops, i)
    decreases |ops| - i
  {
    if i < |ops| {
      RowsOfFirst(h, c, s, ops, i);
      if Emits(ops[i]) { RowStep(h, c, s, ops, i); } else { QuietStep(h, c, s, ops, i); }
      AgreeFrom(h, Exec(h, c, ops[i]), StdExec(h, s, ops[i]), ops, i + 1);
    }
  }

  lemma FirstRows(x: Emitted, y: Emitted, a: seq<Emitted>, b: seq<Emitted>)
    ensures [x] + a == [y] + b <==> x == y && a == b
  {
    assert ([x] + a)[0] == x && ([y] + b)[0] == y && ([x] + a)[1..] == a && ([y] + b)[1..] == b;
  }

  /** The same for whole programs. */
  lemma ReaderMeetsStandard(h: Header, ops: seq<Op>)
    requires HeaderOk(h) && Narrow(h, Start(h), ops, 0) && StepsAlike(h, Start(h), ops, 0)
    ensures Rows(h, Start(h), ops, 0) == StdRows(h, Start(h), ops, 0) <==> Sets(h, Start(h), ops, 0)
  {
    AgreeFrom(h, Start(h), Start(h), ops, 0);
  }

  /** Under such a header every program moves alike. */
  lemma {:induction false} FlatAlike(h: Header, s: Regs, ops: seq<Op>, i: nat)
    requires HeaderOk(h) && FlatHeader(h) && i <= |ops| && (h.maxOps == 1 ==> s.opIndex == 0)
    ensures StepsAlike(h, s, ops, i)
    decreases |ops| - i
  {
    if i < |ops| { FlatAlike(h, StdExec(h, s, ops[i]), ops, i + 1); }
  }

  /** Under any header, so does a program that moves by addresses only. */
  lemma FixedAlike(h: Header, n: int)
    requires HeaderOk(h) && 0 <= n < 0x1_0000
    ensures var ops := [FixedAdvancePc(n), Copy];
            Narrow(h, Start(h), ops, 0) && StepsAlike(h, Start(h), ops, 0)
            && Rows(h, Start(h), ops, 0) == StdRows(h, Start(h), ops, 0)
  {
    var ops, r := [FixedAdvancePc(n), Copy], Start(h);
    assert StdExec(h, r, ops[0]) == r.(address := n);
    assert Narrow(h, r.(address := n), ops, 1) && StepsAlike(h, r.(address := n), ops, 1);
    assert Sets(h, r.(address := n), ops, 1);
    ReaderMeetsStandard(h, ops);
  }

  /** Without its own address, a second sequence goes on from the end of the first. */
  lemma StaleAddress(h: Header)
    requires HeaderOk(h)
    ensures var ops := [SetAddress(64), EndSequence, Copy];
            Rows(h, Start(h), ops, 0) != StdRows(h, Start(h), ops, 0)
  {
    var ops := [SetAddress(64), EndSequence, Copy];
    var c, s := Exec(h, Exec(h, Start(h), ops[0]), ops[1]), Start(h);
    assert Rows(h, c, ops, 2)[0].address == 64;
    assert StdRows(h, s, ops, 2)[0].address == 0;
    assert Rows(h, Start(h), ops, 0)[1].address == 64;
    assert StdRows(h, Start(h), ops, 0)[1].address == 0;
  }

  /** With more than one operation an instruction, advance_pc moves by instructions instead of operations. */
  lemma WideAdvance(h: Header)
    requires HeaderOk(h) && !FlatHeader(h)
    ensures var ops := [AdvancePc(1), Copy]; Narrow(h, Start(h), ops, 0) && Sets(h, Start(h), ops, 0)
    ensures var ops := [AdvancePc(1), Copy]; Rows(h, Start(h), ops, 0) != StdRows(h, Start(h), ops, 0)
  {
    var ops, s := [AdvancePc(1), Copy], Start(h);
    var c', s' := Exec(h, s, ops[0]), StdExec(h, s, ops[0]);
    WideMoves(h);
    assert Narrow(h, s', ops, 1);
    assert Rows(h, c', ops, 1)[0].address == h.minInst && StdRows(h, s', ops, 1)[0].address == 0;
    RowsOfFirst(h, s, s, ops, 0);
  }

  lemma WideMoves(h: Header)
    requires HeaderOk(h) && !FlatHeader(h)
    ensures StdExec(h, Start(h), AdvancePc(1)) == Start(h).(opIndex := 1)
    ensures Exec(h, Start(h), AdvancePc(1)) == Start(h).(address := h.minInst)
  {
    assert 1 / h.maxOps == 0 && 1 % h.maxOps == 1;
    SmallMod(h.minInst);
  }

  /** The programs that fit the reader and set what they need are read as the standard says. */
  ghost predicate ReadsAll(h: Header)
    requires HeaderOk(h)
  {
    forall ops: seq<Op> :: Narrow(h, Start(h), ops, 0) && Sets(h, Start(h), ops, 0) ==>
      Rows(h, Start(h), ops, 0) == StdRows(h, Start(h), ops, 0)
  }

  /** That holds of a header exactly when it has one operation an instruction, or instructions without length. */
  lemma ReadsAllIff(h: Header)
    requires HeaderOk(h)
    ensures ReadsAll(h) <==> FlatHeader(h)
  {
    if FlatHeader(h) {
      forall ops: seq<Op> | Narrow(h, Start(h), ops, 0) && Sets(h, Start(h), ops, 0)
        ensures Rows(h, Start(h), ops, 0) == StdRows(h, Start(h), ops, 0)
      {
        FlatAlike(h, Start(h), ops, 0);
        ReaderMeetsStandard(h, ops);
      }
    } else {
      WideAdvance(h);
    }
  }
}
