/** What some bytes stand for: operands of either endianness, and a program with the rows it makes. */
module LineExample {
  import opened Arith
  import opened Options
  import opened Leb128
  import opened LineProgram
  import opened LineReader

  /** 0x8000 on four bytes and 0x102 on two. */
  lemma Words(h: Header, a: seq<Byte>, b: seq<Byte>)
    requires |a| == 4 && a == if h.bigEndian then [0, 0, 0x80, 0] else [0, 0x80, 0, 0]
    requires |b| == 2 && b == if h.bigEndian then [1, 2] else [2, 1]
    ensures Word32(h, a) == 0x8000 && Word16(h, b) == 0x102
  {}

  predicate Head(h: Header) { h.minInst == 4 && h.maxOps == 1 && h.lineBase == -3 && h.lineRange == 12 && h.opcodeBase == 13 }

  const CODE: seq<Byte> := [7, 10, 11, 1, 6, 12, 2, 82, 0, 1, 1, 1]

  const CUTS: seq<nat> := [0, 1, 2, 3, 4, 5, 7, 8, 11, 12]

  const OPS: seq<Op> :=
    [SetBasicBlock, SetPrologueEnd, SetEpilogueBegin, Copy, NegateStmt, SetIsa(2), Special(82), EndSequence, Copy]

  function Table(stmt: bool): seq<Emitted> {
    [
      Emitted(1, 1, 0, Flags(stmt, true, true, true, false), 0),
      Emitted(1, 7, 20, Flags(!stmt, false, false, false, false), 2),
      Emitted(1, 0, 20, Flags(!stmt, false, false, false, true), 2),
      Emitted(1, 1, 20, Flags(stmt, false, false, false, false), 2)
    ]
  }

  // ---- the bytes are those operations ----

  /** An integer in one byte. */
  lemma OneByteValue(bs: seq<Byte>, p: nat)
    requires p < |bs| && bs[p] < 128
    ensures EncodesUnsigned(bs[p..p + 1], bs[p])
  {
    var one := bs[p..p + 1];
    assert one[1..] == [] && one[0] == bs[p];
    assert Value(one) == bs[p];
  }

  lemma PlainAt(h: Header)
    ensures Encodes(h, 13, CODE, 0, 1, SetBasicBlock) && Encodes(h, 13, CODE, 1, 2, SetPrologueEnd)
    ensures Encodes(h, 13, CODE, 2, 3, SetEpilogueBegin) && Encodes(h, 13, CODE, 3, 4, Copy)
    ensures Encodes(h, 13, CODE, 4, 5, NegateStmt) && Encodes(h, 13, CODE, 11, 12, Copy)
  {}

  lemma OthersAt(h: Header)
    ensures Encodes(h, 13, CODE, 5, 7, SetIsa(2)) && Encodes(h, 13, CODE, 7, 8, Special(82))
    ensures Encodes(h, 13, CODE, 8, 11, EndSequence)
  {
    OneByteValue(CODE, 6);
    OneByteValue(CODE, 9);
  }

  lemma IsProgram(h: Header, bs: seq<Byte>)
    requires bs == CODE
    ensures Program(h, 13, bs, CUTS, OPS)
  {
    PlainAt(h);
    OthersAt(h);
  }

  // ---- the operations make those rows ----

  lemma Quiet(h: Header, ops: seq<Op>, i: nat, op: Op, r: Regs, s: Regs)
    requires HeaderOk(h) && i < |ops| && ops[i] == op && Emission(h, r, op).None? && Exec(h, r, op) == s
    ensures Rows(h, r, ops, i) == Rows(h, s, ops, i + 1)
  {}

  lemma Loud(h: Header, ops: seq<Op>, i: nat, op: Op, r: Regs, s: Regs, e: Emitted)
    requires HeaderOk(h) && i < |ops| && ops[i] == op && Emission(h, r, op) == Some(e) && Exec(h, r, op) == s
    ensures Rows(h, r, ops, i) == [e] + Rows(h, s, ops, i + 1)
  {}

  /** The end of the sequence, and a row after it. */
  lemma LastRows(h: Header, ops: seq<Op>, r: Regs, s: Regs, rows: seq<Emitted>)
    requires HeaderOk(h) && |ops| == 9 && ops[7] == EndSequence && ops[8] == Copy
    requires r == Regs(20, 0, 1, 7, 2, Flags(!h.defaultStmt, false, false, false, false))
    requires s == Regs(20, 0, 1, 1, 2, Flags(h.defaultStmt, false, false, false, false))
    requires rows == [Emitted(1, 0, 20, r.flags.(ended := true), 2), Emitted(1, 1, 20, s.flags, 2)]
    ensures Rows(h, r, ops, 7) == rows
  {
    Loud(h, ops, 7, EndSequence, r, s, rows[0]);
    Loud(h, ops, 8, Copy, s, s, rows[1]);
  }

  lemma SpecialStep(h: Header, r: Regs)
    requires HeaderOk(h) && Head(h) && r.address == 0 && r.opIndex == 0 && r.line == 1
    ensures Stepped(h, r, 82) == r.(address := 20, line := 7)
  {
    var adjusted := Mod32(82 - h.opcodeBase);
    assert adjusted == 69 && adjusted / 12 == 5 && adjusted % 12 == 9;
  }

  lemma SpecialRow(h: Header, ops: seq<Op>, r: Regs, s: Regs, rest: seq<Emitted>)
    requires HeaderOk(h) && Head(h) && |ops| == 9 && ops[6] == Special(82)
    requires r == Regs(0, 0, 1, 1, 2, Flags(!h.defaultStmt, false, false, false, false))
    requires s == r.(address := 20, line := 7) && Rows(h, s, ops, 7) == rest
    ensures Rows(h, r, ops, 6) == [Emitted(1, 7, 20, r.flags, 2)] + rest
  {
    SpecialStep(h, r);
    Loud(h, ops, 6, Special(82), r, s, Emitted(1, 7, 20, r.flags, 2));
  }

  lemma TurnedOff(h: Header, ops: seq<Op>, r: Regs, s: Regs, rest: seq<Emitted>)
    requires HeaderOk(h) && |ops| == 9 && ops[4] == NegateStmt && ops[5] == SetIsa(2)
    requires r == Regs(0, 0, 1, 1, 0, Flags(h.defaultStmt, false, false, false, false))
    requires s == Regs(0, 0, 1, 1, 2, Flags(!h.defaultStmt, false, false, false, false)) && Rows(h, s, ops, 6) == rest
    ensures Rows(h, r, ops, 4) == rest
  {
    Quiet(h, ops, 4, NegateStmt, r, s.(isa := 0));
    Quiet(h, ops, 5, SetIsa(2), s.(isa := 0), s);
  }

  lemma FirstRow(h: Header, ops: seq<Op>, r: Regs, s: Regs, rest: seq<Emitted>)
    requires HeaderOk(h) && |ops| == 9 && ops[3] == Copy
    requires r == Regs(0, 0, 1, 1, 0, Flags(h.defaultStmt, true, true, true, false))
    requires s == Regs(0, 0, 1, 1, 0, Flags(h.defaultStmt, false, false, false, false)) && Rows(h, s, ops, 4) == rest
    ensures Rows(h, r, ops, 3) == [Emitted(1, 1, 0, r.flags, 0)] + rest
  {
    Loud(h, ops, 3, Copy, r, s, Emitted(1, 1, 0, r.flags, 0));
  }

  lemma FlagsSet(h: Header, ops: seq<Op>, r: Regs, rest: seq<Emitted>)
    requires HeaderOk(h) && |ops| == 9 && ops[0] == SetBasicBlock && ops[1] == SetPrologueEnd && ops[2] == SetEpilogueBegin
    requires r == Regs(0, 0, 1, 1, 0, Flags(h.defaultStmt, true, true, true, false)) && Rows(h, r, ops, 3) == rest
    ensures Rows(h, Start(h), ops, 0) == rest
  {
    var f := r.flags;
    var p := r.(flags := f.(prologue := false, epilogue := false));
    Quiet(h, ops, 0, SetBasicBlock, Start(h), p);
    Quiet(h, ops, 1, SetPrologueEnd, p, r.(flags := f.(epilogue := false)));
    Quiet(h, ops, 2, SetEpilogueBegin, r.(flags := f.(epilogue := false)), r);
  }

  lemma TailRows(h: Header, r: Regs, t: seq<Emitted>)
    requires HeaderOk(h) && Head(h) && t == Table(h.defaultStmt)
    requires r == Regs(0, 0, 1, 1, 2, Flags(!h.defaultStmt, false, false, false, false))
    ensures Rows(h, r, OPS, 6) == t[1..]
  {
    LastRows(h, OPS, r.(address := 20, line := 7), Regs(20, 0, 1, 1, 2, t[3].flags), t[2..]);
    SpecialRow(h, OPS, r, r.(address := 20, line := 7), t[2..]);
  }

  lemma MiddleRows(h: Header, r: Regs, t: seq<Emitted>)
    requires HeaderOk(h) && Head(h) && t == Table(h.defaultStmt)
    requires r == Regs(0, 0, 1, 1, 0, Flags(h.defaultStmt, false, false, false, false))
    ensures Rows(h, r, OPS, 4) == t[1..]
  {
    var off := Regs(0, 0, 1, 1, 2, Flags(!h.defaultStmt, false, false, false, false));
    TailRows(h, off, t);
    TurnedOff(h, OPS, r, off, t[1..]);
  }

  lemma HeadRows(h: Header, r: Regs, s: Regs, t: seq<Emitted>, rest: seq<Emitted>)
    requires HeaderOk(h) && Head(h) && t == Table(h.defaultStmt) && rest == t[1..]
    requires r == Regs(0, 0, 1, 1, 0, Flags(h.defaultStmt, false, false, false, false)) && s == r.(flags := t[0].flags)
    ensures Rows(h, s, OPS, 3) == [t[0]] + rest
  {
    MiddleRows(h, r, t);
    FirstRow(h, OPS, s, r, rest);
  }

  lemma MakesRows(h: Header, t: seq<Emitted>)
    requires HeaderOk(h) && Head(h) && t == Table(h.defaultStmt)
    ensures Rows(h, Start(h), OPS, 0) == t
  {
    var r := Regs(0, 0, 1, 1, 0, Flags(h.defaultStmt, false, false, false, false));
    HeadRows(h, r, r.(flags := t[0].flags), t, t[1..]);
    assert [t[0]] + t[1..] == t;
    FlagsSet(h, OPS, r.(flags := t[0].flags), t);
  }

  lemma OneFile(t: seq<Emitted>, stmt: bool)
    requires t == Table(stmt)
    ensures forall i :: 0 <= i < |t| ==> t[i].file == 1
  {}

  lemma {:induction false} AllKept(rows: seq<Emitted>, files: nat)
    requires forall i :: 0 <= i < |rows| ==> 1 <= rows[i].file <= files
    ensures Kept(rows, files) == rows && FilesOk(rows)
  {
    if rows != [] { AllKept(rows[1..], files); }
  }

  /** Reading the bytes adds those rows. */
  lemma ReadsTable(h: Header, bs: seq<Byte>, before: seq<Emitted>, rows: seq<Emitted>, files: nat, out: Outcome, t: seq<Emitted>)
    requires HeaderOk(h) && Head(h) && files >= 1 && bs == CODE && Ran(h, bs, before, rows, files, out)
    requires t == Table(h.defaultStmt)
    ensures out == Done && rows == before + t
  {
    IsProgram(h, bs);
    MakesRows(h, t);
    OneFile(t, h.defaultStmt);
    AllKept(t, files);
    RanProgram(h, bs, before, rows, files, out, CUTS, OPS);
  }
}
