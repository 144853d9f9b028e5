/** Line-number programs: their operations, how these are encoded, and the reader that runs them. */
module LineProgram {
  import opened Arith
  import opened Options
  import opened Leb128

  /** The header fields a program depends on; endianness is that of the file. */
  datatype Header = Header(minInst: nat, maxOps: nat, defaultStmt: bool, lineBase: int, lineRange: nat,
                           opcodeBase: nat, bigEndian: bool)

  predicate HeaderOk(h: Header) {
    h.minInst < 256 && 1 <= h.maxOps < 256 && -128 <= h.lineBase < 128 && 1 <= h.lineRange < 256 && 1 <= h.opcodeBase < 256
  }

  datatype Flags = Flags(stmt: bool, block: bool, prologue: bool, epilogue: bool, ended: bool)

  datatype Regs = Regs(address: int, opIndex: nat, file: int, line: int, isa: int, flags: Flags)

  /** A row as the program emits it; line 0 ends a sequence. */
  datatype Emitted = Emitted(file: int, line: int, address: int, flags: Flags, isa: int)

  datatype Op =
    | Special(opcode: int)
    | Copy
    | AdvancePc(n: int)
    | AdvanceLine(d: int)
    | SetFile(n: int)
    | SetColumn(n: int)
    | NegateStmt
    | SetBasicBlock
    | ConstAddPc
    | FixedAdvancePc(n: int)
    | SetPrologueEnd
    | SetEpilogueBegin
    | SetIsa(n: int)
    | EndSequence
    | SetAddress(a: int)
    | SetDiscriminator(n: int)

  // ---- encodings, section 6.2.5 of DWARF 4 ----

  /** An unsigned operand in at most five bytes. */
  predicate EncodesUnsigned(bs: seq<Byte>, n: int) {
    Encoding(bs) && |bs| <= 5 && Value(bs) == n < 0x1_0000_0000
  }

  predicate EncodesSigned(bs: seq<Byte>, n: int) {
    Encoding(bs) && |bs| <= 5 && SignedValue(bs) == n && -0x8000_0000 <= n < 0x8000_0000
  }

  function Word16(h: Header, bs: seq<Byte>): int
    requires |bs| == 2
  {
    var x: int, y: int := bs[0], bs[1];
    if h.bigEndian then x * 256 + y else y * 256 + x
  }

  function Word32(h: Header, bs: seq<Byte>): int
    requires |bs| == 4
  {
    if h.bigEndian then Word16(h, bs[..2]) * 0x1_0000 + Word16(h, bs[2..])
    else Word16(h, bs[2..]) * 0x1_0000 + Word16(h, bs[..2])
  }

  /** The opcode of a standard operation without operand, 0 for the others. */
  function PlainOpcode(op: Op): int {
    match op
    case Copy => 1
    case NegateStmt => 6
    case SetBasicBlock => 7
    case ConstAddPc => 8
    case SetPrologueEnd => 10
    case SetEpilogueBegin => 11
    case _ => 0
  }

  /** The first special opcode, for the reader. */
  const FIRST_SPECIAL := 13

  datatype Class = ExtendedOpcode | StandardOpcode | SpecialOpcode

  /** What an opcode is when the special ones start at base. */
  function ClassOf(base: int, opcode: int): Class {
    if opcode == 0 then ExtendedOpcode else if opcode < base then StandardOpcode else SpecialOpcode
  }

  function OpClass(op: Op): Class {
    match op
    case Special(_) => SpecialOpcode
    case EndSequence => ExtendedOpcode
    case SetAddress(_) => ExtendedOpcode
    case SetDiscriminator(_) => ExtendedOpcode
    case _ => StandardOpcode
  }

  /** The bytes from p to e are one operation, when the special opcodes start at base. */
  ghost predicate Encodes(h: Header, base: int, bs: seq<Byte>, p: nat, e: nat, op: Op) {
    && p < e <= |bs| && ClassOf(base, bs[p]) == OpClass(op)
    && match op
       case Special(o) => e == p + 1 && bs[p] == o
       case FixedAdvancePc(n) => e == p + 3 && bs[p] == 9 && Word16(h, bs[p + 1..e]) == n
       case AdvanceLine(d) => bs[p] == 3 && EncodesSigned(bs[p + 1..e], d)
       case EndSequence => Extended(bs, p, e - 1, 1, 1)
       case SetAddress(a) => e >= 5 && Extended(bs, p, e - 5, 2, 5) && Word32(h, bs[e - 4..e]) == a
       case SetDiscriminator(n) =>
         exists k :: DiscriminatorAt(bs, p, k, e, n)
       case AdvancePc(n) => bs[p] == 2 && EncodesUnsigned(bs[p + 1..e], n)
       case SetFile(n) => bs[p] == 4 && EncodesUnsigned(bs[p + 1..e], n)
       case SetColumn(n) => bs[p] == 5 && EncodesUnsigned(bs[p + 1..e], n)
       case SetIsa(n) => bs[p] == 12 && EncodesUnsigned(bs[p + 1..e], n)
       case _ => e == p + 1 && bs[p] == PlainOpcode(op)
  }

  /** The start of an extended operation at p: 0, the announced size, the opcode at k. */
  predicate Extended(bs: seq<Byte>, p: nat, k: int, opcode: int, announced: int) {
    p + 1 < k < |bs| && bs[p] == 0 && bs[k] == opcode && EncodesUnsigned(bs[p + 1..k], announced)
  }

  /** A discriminator whose opcode is at k. The reader does not look at the announced size. */
  predicate DiscriminatorAt(bs: seq<Byte>, p: nat, k: int, e: nat, n: int) {
    p < k < e <= |bs| && Extended(bs, p, k, 4, e - k) && EncodesUnsigned(bs[k + 1..e], n)
  }

  // ---- reading one operation ----

  /** Undefined: the code would read past the end of the program, or shift too far. */
  datatype Read = Decoded(op: Op, next: nat) | BadFormat | Undefined | FileDefinition

  /** A 32-bit word as a signed number. */
  function Int32(x: int): (r: int)
    ensures -0x8000_0000 <= r < 0x8000_0000
  {
    Mod32(x + 0x8000_0000) - 0x8000_0000
  }

  lemma Int32Back(n: int)
    requires -0x8000_0000 <= n < 0x8000_0000
    ensures Int32(Mod32(n)) == n
  {
    if n < 0 { ModBelow(n); } else { SmallMod(n); }
  }

  /** The integer from p to e, cut to 32 bits. */
  predicate Operand(bs: seq<Byte>, p: nat, e: nat, n: int) {
    Readable(bs, p) && End(bs, p) == Some(e) && n == Mod32(Value(bs[p..e]))
  }

  predicate SignedOperand(bs: seq<Byte>, p: nat, e: nat, d: int) {
    Readable(bs, p) && End(bs, p) == Some(e) && bs[p..e] != [] && d == Int32(Mod32(SignedValue(bs[p..e])))
  }

  predicate Truncated(bs: seq<Byte>, p: nat) { Readable(bs, p) && End(bs, p).None? }

  /** Where the opcode of the extended operation at p is, beyond the end when there is none. */
  function OpcodeAt(bs: seq<Byte>, p: nat): nat { if End(bs, p + 1).Some? then End(bs, p + 1).value else |bs| }

  predicate HasOpcode(bs: seq<Byte>, p: nat) { Readable(bs, p + 1) && OpcodeAt(bs, p) < |bs| }

  /** The announced size, cut to 32 bits. */
  function SizeAt(bs: seq<Byte>, p: nat): nat
    requires HasOpcode(bs, p)
  {
    Mod32(Value(bs[p + 1..OpcodeAt(bs, p)]))
  }

  /** An extended operation at p with its opcode. */
  predicate ExtendedIs(bs: seq<Byte>, p: nat, opcode: int) {
    p < |bs| && bs[p] == 0 && HasOpcode(bs, p) && bs[OpcodeAt(bs, p)] == opcode
  }

  /** The reader takes the bytes from p to e as an operation: as the standard encodes it, except that integers are
      cut to 32 bits and that the size announced for a discriminator is not looked at. */
  predicate Reads(h: Header, bs: seq<Byte>, p: nat, e: nat, op: Op) {
    && p < e <= |bs|
    && match op
       case Special(o) => bs[p] == o >= 13 && e == p + 1
       case AdvancePc(n) => bs[p] == 2 && Operand(bs, p + 1, e, n)
       case AdvanceLine(d) => bs[p] == 3 && SignedOperand(bs, p + 1, e, d)
       case SetFile(n) => bs[p] == 4 && Operand(bs, p + 1, e, n)
       case SetColumn(n) => bs[p] == 5 && Operand(bs, p + 1, e, n)
       case FixedAdvancePc(n) => bs[p] == 9 && e == p + 3 && Word16(h, bs[p + 1..e]) == n
       case SetIsa(n) => bs[p] == 12 && Operand(bs, p + 1, e, n)
       case EndSequence => ExtendedIs(bs, p, 1) && SizeAt(bs, p) == 1 && e == OpcodeAt(bs, p) + 1
       case SetAddress(a) =>
         ExtendedIs(bs, p, 2) && SizeAt(bs, p) == 5 && e == OpcodeAt(bs, p) + 5 && Word32(h, bs[e - 4..e]) == a
       case SetDiscriminator(n) => ExtendedIs(bs, p, 4) && Operand(bs, OpcodeAt(bs, p) + 1, e, n)
       case _ => bs[p] == PlainOpcode(op) && e == p + 1
  }

  predicate HasOperand(opcode: int) { 2 <= opcode <= 5 || opcode == 12 }

  /** A truncated operand, an unknown extended opcode or a wrong announced size: the code returns an error. */
  predicate Malformed(bs: seq<Byte>, p: nat) {
    && p < |bs|
    && ((HasOperand(bs[p]) && Truncated(bs, p + 1))
        || (bs[p] == 0 && HasOpcode(bs, p) && BadTail(bs, OpcodeAt(bs, p), SizeAt(bs, p))))
  }

  predicate BadTail(bs: seq<Byte>, k: nat, size: nat)
    requires k < |bs|
  {
    || (bs[k] == 1 && size != 1) || (bs[k] == 2 && size != 5) || (bs[k] == 4 && Truncated(bs, k + 1))
    || bs[k] == 0 || bs[k] > 4
  }

  /** The code would read past the end of the program, or shift by more than a word. */
  predicate Overruns(bs: seq<Byte>, p: nat) {
    && p < |bs|
    && ((HasOperand(bs[p]) && !Readable(bs, p + 1)) || (bs[p] == 9 && p + 3 > |bs|)
        || (bs[p] == 0 && !HasOpcode(bs, p))
        || (ExtendedIs(bs, p, 2) && SizeAt(bs, p) == 5 && OpcodeAt(bs, p) + 5 > |bs|)
        || (ExtendedIs(bs, p, 4) && !Readable(bs, OpcodeAt(bs, p) + 1)))
  }

  /** The outcome of reading at p. */
  predicate ReadIs(h: Header, bs: seq<Byte>, p: nat, r: Read) {
    match r
    case Decoded(op, e) => Reads(h, bs, p, e, op)
    case BadFormat => Malformed(bs, p)
    case Undefined => Overruns(bs, p)
    case FileDefinition => ExtendedIs(bs, p, 3)
  }

  /** The opcode, and for an extended operation -1 less the extended one. */
  function Key(op: Op): int {
    match op
    case Special(o) => o
    case AdvancePc(_) => 2
    case AdvanceLine(_) => 3
    case SetFile(_) => 4
    case SetColumn(_) => 5
    case FixedAdvancePc(_) => 9
    case SetIsa(_) => 12
    case EndSequence => -2
    case SetAddress(_) => -3
    case SetDiscriminator(_) => -5
    case _ => PlainOpcode(op)
  }

  lemma ReadsKey(h: Header, bs: seq<Byte>, p: nat, e: nat, op: Op)
    requires Reads(h, bs, p, e, op)
    ensures Key(op) >= 0 ==> bs[p] == Key(op) != 0
    ensures Key(op) < 0 ==> ExtendedIs(bs, p, -1 - Key(op))
  {}

  lemma SameKey(h: Header, bs: seq<Byte>, p: nat, e: nat, op: Op, e': nat, op': Op)
    requires Reads(h, bs, p, e, op) && Reads(h, bs, p, e', op') && Key(op) == Key(op')
    ensures op == op' && e == e'
  {}

  lemma ReadsOnce(h: Header, bs: seq<Byte>, p: nat, e: nat, op: Op, e': nat, op': Op)
    requires Reads(h, bs, p, e, op) && Reads(h, bs, p, e', op')
    ensures op == op' && e == e'
  {
    ReadsKey(h, bs, p, e, op);
    ReadsKey(h, bs, p, e', op');
    SameKey(h, bs, p, e, op, e', op');
  }

  lemma ReadsNoError(h: Header, bs: seq<Byte>, p: nat, e: nat, op: Op)
    requires Reads(h, bs, p, e, op)
    ensures !Malformed(bs, p) && !Overruns(bs, p) && !ExtendedIs(bs, p, 3)
  {
    ReadsKey(h, bs, p, e, op);
  }

  /** There is one outcome. */
  lemma OneOutcome(h: Header, bs: seq<Byte>, p: nat, r: Read, q: Read)
    requires ReadIs(h, bs, p, r) && ReadIs(h, bs, p, q)
    ensures r == q
  {
    if r.Decoded? { ReadsNoError(h, bs, p, r.next, r.op); }
    if q.Decoded? { ReadsNoError(h, bs, p, q.next, q.op); }
    if r.Decoded? && q.Decoded? { ReadsOnce(h, bs, p, r.next, r.op, q.next, q.op); }
  }

  /** An operand found where it should be is read back, whatever follows. */
  lemma OperandRead(bs: seq<Byte>, pos: nat, e: nat)
    requires pos <= e <= |bs| && Encoding(bs[pos..e]) && e - pos <= 5
    ensures Readable(bs, pos) && End(bs, pos) == Some(e)
  {
    EndOf(bs, pos, e);
    assert bs[pos..e][e - pos - 1] == bs[e - 1];
  }

  lemma UnsignedFound(bs: seq<Byte>, p: nat, e: nat, n: int)
    requires p <= e <= |bs| && EncodesUnsigned(bs[p..e], n)
    ensures Operand(bs, p, e, n)
  {
    OperandRead(bs, p, e);
    SmallMod(n);
  }

  lemma SignedFound(bs: seq<Byte>, p: nat, e: nat, d: int)
    requires p <= e <= |bs| && EncodesSigned(bs[p..e], d)
    ensures SignedOperand(bs, p, e, d)
  {
    OperandRead(bs, p, e);
    Int32Back(d);
  }

  lemma ExtendedFound(bs: seq<Byte>, p: nat, k: nat, opcode: int, announced: int)
    requires Extended(bs, p, k, opcode, announced)
    ensures ExtendedIs(bs, p, opcode) && OpcodeAt(bs, p) == k && SizeAt(bs, p) == announced
  {
    UnsignedFound(bs, p + 1, k, announced);
  }

  lemma DiscriminatorFound(h: Header, bs: seq<Byte>, p: nat, e: nat, n: int)
    requires Encodes(h, FIRST_SPECIAL, bs, p, e, SetDiscriminator(n))
    ensures Reads(h, bs, p, e, SetDiscriminator(n))
  {
    var k :| DiscriminatorAt(bs, p, k, e, n);
    ExtendedFound(bs, p, k, 4, e - k);
    UnsignedFound(bs, k + 1, e, n);
  }

  /** The reader takes what encodes an operation as that operation, whatever follows. */
  lemma EncodedReads(h: Header, bs: seq<Byte>, p: nat, e: nat, op: Op)
    requires Encodes(h, FIRST_SPECIAL, bs, p, e, op)
    ensures Reads(h, bs, p, e, op)
  {
    match op
    case EndSequence => ExtendedFound(bs, p, e - 1, 1, 1);
    case SetAddress(_) => ExtendedFound(bs, p, e - 5, 2, 5);
    case SetDiscriminator(n) => DiscriminatorFound(h, bs, p, e, n);
    case AdvanceLine(d) => SignedFound(bs, p + 1, e, d);
    case AdvancePc(n) => UnsignedFound(bs, p + 1, e, n);
    case SetFile(n) => UnsignedFound(bs, p + 1, e, n);
    case SetColumn(n) => UnsignedFound(bs, p + 1, e, n);
    case SetIsa(n) => UnsignedFound(bs, p + 1, e, n);
    case _ =>
  }

  /** An operation with an unsigned operand, given its opcode. */
  function OperandOp(opcode: int, n: int): Op {
    if opcode == 2 then AdvancePc(n) else if opcode == 4 then SetFile(n)
    else if opcode == 5 then SetColumn(n) else SetIsa(n)
  }

  /** Operations with an integer for operand. */
  method ReadOperandOp(h: Header, bs: seq<Byte>, pos: nat) returns (r: Read)
    requires pos < |bs| && HasOperand(bs[pos])
    ensures ReadIs(h, bs, pos, r)
  {
    if !Readable(bs, pos + 1) { return Undefined; }
    if bs[pos] == 3 {
      var ok, value, e := ReadSigned(bs, pos + 1);
      if !ok { return BadFormat; }
      return Decoded(AdvanceLine(Int32(value)), e);
    }
    var ok, value, e := ReadUnsigned(bs, pos + 1);
    if !ok { return BadFormat; }
    return Decoded(OperandOp(bs[pos], value), e);
  }

  method ReadFixedAdvance(h: Header, bs: seq<Byte>, pos: nat) returns (r: Read)
    requires pos < |bs| && bs[pos] == 9
    ensures ReadIs(h, bs, pos, r)
  {
    if pos + 3 > |bs| { return Undefined; }
    return Decoded(FixedAdvancePc(Word16(h, bs[pos + 1..pos + 3])), pos + 3);
  }

  /** Extended operations. */
  method ReadExtended(h: Header, bs: seq<Byte>, pos: nat) returns (r: Read)
    requires pos < |bs| && bs[pos] == 0
    ensures ReadIs(h, bs, pos, r)
  {
    if !Readable(bs, pos + 1) { return Undefined; }
    var ok, size, e := ReadUnsigned(bs, pos + 1);
    if !ok || e >= |bs| { return Undefined; }
    if bs[e] == 1 {
      if size != 1 { return BadFormat; }
      return Decoded(EndSequence, e + 1);
    } else if bs[e] == 2 {
      if size != 5 { return BadFormat; }
      if e + 5 > |bs| { return Undefined; }
      return Decoded(SetAddress(Word32(h, bs[e + 1..e + 5])), e + 5);
    } else if bs[e] == 3 {
      return FileDefinition;
    } else if bs[e] == 4 {
      r := ReadDiscriminator(h, bs, pos, e);
    } else {
      return BadFormat;
    }
  }

  method ReadDiscriminator(h: Header, bs: seq<Byte>, pos: nat, e: nat) returns (r: Read)
    requires ExtendedIs(bs, pos, 4) && e == OpcodeAt(bs, pos)
    ensures ReadIs(h, bs, pos, r)
  {
    if !Readable(bs, e + 1) { return Undefined; }
    var ok, value, e' := ReadUnsigned(bs, e + 1);
    if !ok { return BadFormat; }
    return Decoded(SetDiscriminator(value), e');
  }

  /** An operation without operand, given its opcode. */
  function PlainOp(opcode: int): Op {
    if opcode == 1 then Copy else if opcode == 6 then NegateStmt else if opcode == 7 then SetBasicBlock
    else if opcode == 8 then ConstAddPc else if opcode == 10 then SetPrologueEnd
    else if opcode == 11 then SetEpilogueBegin else Special(opcode)
  }

  /** Reads the operation at pos. */
  method ReadOp(h: Header, bs: seq<Byte>, pos: nat) returns (r: Read)
    requires pos < |bs|
    ensures ReadIs(h, bs, pos, r)
    ensures bs[pos] == 1 ==> r == Decoded(Copy, pos + 1)
    ensures bs[pos] == 6 ==> r == Decoded(NegateStmt, pos + 1)
    ensures bs[pos] == 7 ==> r == Decoded(SetBasicBlock, pos + 1)
    ensures bs[pos] == 8 ==> r == Decoded(ConstAddPc, pos + 1)
    ensures bs[pos] == 10 ==> r == Decoded(SetPrologueEnd, pos + 1)
    ensures bs[pos] == 11 ==> r == Decoded(SetEpilogueBegin, pos + 1)
    ensures bs[pos] >= 13 ==> r == Decoded(Special(bs[pos]), pos + 1)
    ensures forall op, e :: Encodes(h, FIRST_SPECIAL, bs, pos, e, op) ==> r == Decoded(op, e)
  {
    var opcode := bs[pos];
    if HasOperand(opcode) {
      r := ReadOperandOp(h, bs, pos);
    } else if opcode == 9 {
      r := ReadFixedAdvance(h, bs, pos);
    } else if opcode == 0 {
      r := ReadExtended(h, bs, pos);
    } else {
      r := Decoded(PlainOp(opcode), pos + 1);
    }
    forall op, e | Encodes(h, FIRST_SPECIAL, bs, pos, e, op) ensures r == Decoded(op, e) {
      EncodedReads(h, bs, pos, e, op);
      OneOutcome(h, bs, pos, r, Decoded(op, e));
    }
  }
}
