/** Writing the operations of a line-number program as bytes. */
module LineTable {
  import opened Leb128
  import opened LineProgram
  import opened LineReader

  // ---- writing operations ----

  function Bytes16(h: Header, n: nat): (bs: seq<Byte>)
    requires n < 0x1_0000
    ensures |bs| == 2 && Word16(h, bs) == n
  {
    if h.bigEndian then [n / 256, n % 256] else [n % 256, n / 256]
  }

  function Bytes32(h: Header, n: nat): (bs: seq<Byte>)
    requires n < 0x1_0000_0000
    ensures |bs| == 4
  {
    if h.bigEndian then Bytes16(h, n / 0x1_0000) + Bytes16(h, n % 0x1_0000)
    else Bytes16(h, n % 0x1_0000) + Bytes16(h, n / 0x1_0000)
  }

  lemma Bytes32Back(h: Header, n: nat)
    requires n < 0x1_0000_0000
    ensures Word32(h, Bytes32(h, n)) == n
  {
    var bs := Bytes32(h, n);
    var a, b := if h.bigEndian then n / 0x1_0000 else n % 0x1_0000, if h.bigEndian then n % 0x1_0000 else n / 0x1_0000;
    assert bs[..2] == Bytes16(h, a) && bs[2..] == Bytes16(h, b);
  }

  predicate Word(n: int) { 0 <= n < 0x1_0000_0000 }

  /** The operation can be written so that the reader takes it back. */
  predicate Writable(op: Op) {
    match op
    case Special(o) => 0 < o < 256
    case AdvancePc(n) => Word(n)
    case AdvanceLine(d) => -0x8000_0000 <= d < 0x8000_0000
    case SetFile(n) => Word(n)
    case SetColumn(n) => Word(n)
    case FixedAdvancePc(n) => 0 <= n < 0x1_0000
    case SetIsa(n) => Word(n)
    case SetAddress(a) => Word(a)
    case SetDiscriminator(n) => Word(n)
    case _ => true
  }

  /** The first byte of an operation. */
  function Opcode(op: Op): int {
    match op
    case Special(o) => o
    case AdvancePc(_) => 2
    case AdvanceLine(_) => 3
    case SetFile(_) => 4
    case SetColumn(_) => 5
    case FixedAdvancePc(_) => 9
    case SetIsa(_) => 12
    case _ => PlainOpcode(op)
  }

  /** The opcode is one of its class when the special opcodes start at base. */
  predicate Numbered(base: int, op: Op) { ClassOf(base, Opcode(op)) == OpClass(op) }

  function OpBytes(h: Header, op: Op): seq<Byte>
    requires Writable(op)
  {
    match op
    case Special(o) => [o]
    case AdvancePc(n) => [2] + EncodeUnsigned(n)
    case AdvanceLine(d) => [3] + EncodeSigned(d)
    case SetFile(n) => [4] + EncodeUnsigned(n)
    case SetColumn(n) => [5] + EncodeUnsigned(n)
    case FixedAdvancePc(n) => [9] + Bytes16(h, n)
    case SetIsa(n) => [12] + EncodeUnsigned(n)
    case EndSequence => [0, 1, 1]
    case SetAddress(a) => [0, 5, 2] + Bytes32(h, a)
    case SetDiscriminator(n) => [0] + EncodeUnsigned(|EncodeUnsigned(n)| + 1) + [4] + EncodeUnsigned(n)
    case _ => [PlainOpcode(op)]
  }

  lemma UnsignedOperand(n: int)
    requires Word(n)
    ensures EncodesUnsigned(EncodeUnsigned(n), n)
  {
    Powers();
    PowSeven(LAST);
    UnsignedRoundTrip(n, 5);
  }

  lemma SignedOperand(n: int)
    requires -0x8000_0000 <= n < 0x8000_0000
    ensures EncodesSigned(EncodeSigned(n), n)
  {
    Powers();
    PowSeven(LAST - 1);
    PowSeven(LAST);
    SignedRoundTrip(n, 5);
  }

  lemma SmallOperand(n: int)
    requires 0 <= n < 128
    ensures EncodesUnsigned([n], n)
  {
    var bs: seq<Byte> := [n];
    assert bs[1..] == [];
  }

  /** bs stands at p in all. */
  ghost predicate Stands(all: seq<Byte>, p: nat, bs: seq<Byte>) {
    p + |bs| <= |all| && all[p..p + |bs|] == bs
  }

  lemma StandsAt(all: seq<Byte>, p: nat, bs: seq<Byte>, i: nat, j: nat)
    requires Stands(all, p, bs) && i <= j <= |bs|
    ensures all[p + i..p + j] == bs[i..j]
    ensures i < j ==> all[p + i] == bs[i]
  {
    var s, t := all[p..p + |bs|][i..j], all[p + i..p + j];
    assert |s| == |t|;
    assert forall k :: 0 <= k < |t| ==> s[k] == all[p..p + |bs|][i + k] == all[p + (i + k)] == t[k];
    assert s == t;
    if i < j { assert all[p..p + |bs|][i] == all[p + i]; }
  }

  lemma OperandStands(all: seq<Byte>, p: nat, opcode: Byte, bs: seq<Byte>)
    requires Stands(all, p, [opcode] + bs)
    ensures all[p] == opcode && all[p + 1..p + 1 + |bs|] == bs
  {
    var s := [opcode] + bs;
    StandsAt(all, p, s, 0, 1);
    StandsAt(all, p, s, 1, |s|);
    assert s[1..|s|] == bs;
  }

  lemma ExtendedStands(all: seq<Byte>, p: nat, size: seq<Byte>, opcode: Byte, rest: seq<Byte>)
    requires Stands(all, p, [0] + size + [opcode] + rest)
    ensures var k := p + 1 + |size|;
            k < |all| && all[p] == 0 && all[p + 1..k] == size && all[k] == opcode && all[k + 1..k + 1 + |rest|] == rest
  {
    var s := [0] + size + [opcode] + rest;
    var k := 1 + |size|;
    StandsAt(all, p, s, 0, 1);
    StandsAt(all, p, s, 1, k);
    StandsAt(all, p, s, k, k + 1);
    StandsAt(all, p, s, k + 1, |s|);
    assert s[1..k] == size && s[k + 1..|s|] == rest;
  }

  lemma PlainEncodes(h: Header, base: int, op: Op, all: seq<Byte>, p: nat)
    requires PlainOpcode(op) != 0 && Numbered(base, op) && Stands(all, p, OpBytes(h, op))
    ensures Encodes(h, base, all, p, p + |OpBytes(h, op)|, op)
  {
    StandsAt(all, p, [PlainOpcode(op)], 0, 1);
  }

  lemma SpecialEncodes(h: Header, base: int, o: int, all: seq<Byte>, p: nat)
    requires Writable(Special(o)) && Numbered(base, Special(o)) && Stands(all, p, OpBytes(h, Special(o)))
    ensures Encodes(h, base, all, p, p + 1, Special(o))
  {
    StandsAt(all, p, [o], 0, 1);
  }

  lemma UnsignedEncodes(h: Header, base: int, op: Op, all: seq<Byte>, p: nat)
    requires Writable(op) && Numbered(base, op) && Stands(all, p, OpBytes(h, op))
    requires op.AdvancePc? || op.SetFile? || op.SetColumn? || op.SetIsa?
    ensures Encodes(h, base, all, p, p + |OpBytes(h, op)|, op)
  {
    match op
    case AdvancePc(n) => OperandEncodes(all, p, 2, n);
    case SetFile(n) => OperandEncodes(all, p, 4, n);
    case SetColumn(n) => OperandEncodes(all, p, 5, n);
    case SetIsa(n) => OperandEncodes(all, p, 12, n);
  }

  lemma FixedEncodes(h: Header, base: int, op: Op, all: seq<Byte>, p: nat)
    requires Writable(op) && Numbered(base, op) && Stands(all, p, OpBytes(h, op)) && (op.AdvanceLine? || op.FixedAdvancePc?)
    ensures Encodes(h, base, all, p, p + |OpBytes(h, op)|, op)
  {
    if op.AdvanceLine? {
      SignedOperand(op.d);
      OperandStands(all, p, 3, EncodeSigned(op.d));
    } else {
      OperandStands(all, p, 9, Bytes16(h, op.n));
    }
  }

  lemma EndEncodes(h: Header, base: int, all: seq<Byte>, p: nat)
    requires Stands(all, p, OpBytes(h, EndSequence))
    ensures Encodes(h, base, all, p, p + 3, EndSequence)
  {
    SmallOperand(1);
    assert [0] + [1] + [1] + [] == OpBytes(h, EndSequence);
    ExtendedStands(all, p, [1], 1, []);
  }

  /** The bytes of an operation are an encoding of it, wherever they stand. */
  lemma OpEncodes(h: Header, base: int, op: Op, all: seq<Byte>, p: nat)
    requires Writable(op) && Numbered(base, op) && Stands(all, p, OpBytes(h, op))
    ensures Encodes(h, base, all, p, p + |OpBytes(h, op)|, op)
  {
    if PlainOpcode(op) != 0 {
      PlainEncodes(h, base, op, all, p);
    } else if op.AdvancePc? || op.SetFile? || op.SetColumn? || op.SetIsa? {
      UnsignedEncodes(h, base, op, all, p);
    } else if op.AdvanceLine? || op.FixedAdvancePc? {
      FixedEncodes(h, base, op, all, p);
    } else if op.EndSequence? {
      EndEncodes(h, base, all, p);
    } else if op.SetAddress? {
      AddressEncodes(h, base, all, p, op.a);
    } else if op.SetDiscriminator? {
      DiscriminatorEncodes(h, base, all, p, op.n);
    } else {
      SpecialEncodes(h, base, op.opcode, all, p);
    }
  }

  lemma OperandEncodes(all: seq<Byte>, p: nat, opcode: Byte, n: int)
    requires Word(n) && Stands(all, p, [opcode] + EncodeUnsigned(n))
    ensures var e := p + 1 + |EncodeUnsigned(n)|;
            all[p] == opcode && e <= |all| && EncodesUnsigned(all[p + 1..e], n)
  {
    UnsignedOperand(n);
    OperandStands(all, p, opcode, EncodeUnsigned(n));
  }

  lemma AddressEncodes(h: Header, base: int, all: seq<Byte>, p: nat, a: int)
    requires Word(a) && Stands(all, p, OpBytes(h, SetAddress(a)))
    ensures Encodes(h, base, all, p, p + 7, SetAddress(a))
  {
    var bs := Bytes32(h, a);
    SmallOperand(5);
    Bytes32Back(h, a);
    assert [0] + [5] + [2] + bs == [0, 5, 2] + bs;
    ExtendedStands(all, p, [5], 2, bs);
  }

  lemma DiscriminatorEncodes(h: Header, base: int, all: seq<Byte>, p: nat, n: int)
    requires Word(n) && Stands(all, p, OpBytes(h, SetDiscriminator(n)))
    ensures Encodes(h, base, all, p, p + |OpBytes(h, SetDiscriminator(n))|, SetDiscriminator(n))
  {
    var bs := EncodeUnsigned(n);
    var size := EncodeUnsigned(|bs| + 1);
    UnsignedOperand(n);
    UnsignedOperand(|bs| + 1);
    ExtendedStands(all, p, size, 4, bs);
    assert DiscriminatorAt(all, p, p + 1 + |size|, p + 2 + |size| + |bs|, n);
  }

  /** All have opcodes of their class. */
  predicate AllNumbered(base: int, ops: seq<Op>) {
    forall i :: 0 <= i < |ops| ==> Numbered(base, ops[i])
  }

  predicate AllWritable(ops: seq<Op>) {
    forall i :: 0 <= i < |ops| ==> Writable(ops[i])
  }

  /** The first n pieces, one after the other. */
  function Flat(pieces: seq<seq<Byte>>, n: nat): seq<Byte>
    requires n <= |pieces|
  {
    if n == 0 then [] else Flat(pieces, n - 1) + pieces[n - 1]
  }

  lemma {:induction false} FlatPrefix(pieces: seq<seq<Byte>>, i: nat, n: nat)
    requires i <= n <= |pieces|
    ensures |Flat(pieces, i)| <= |Flat(pieces, n)| && Flat(pieces, n)[..|Flat(pieces, i)|] == Flat(pieces, i)
  {
    if i < n { FlatPrefix(pieces, i, n - 1); }
  }

  lemma PieceStands(pieces: seq<seq<Byte>>, i: nat)
    requires i < |pieces|
    ensures Stands(Flat(pieces, |pieces|), |Flat(pieces, i)|, pieces[i])
    ensures |Flat(pieces, i + 1)| == |Flat(pieces, i)| + |pieces[i]|
  {
    var all, q, b := Flat(pieces, |pieces|), Flat(pieces, i), pieces[i];
    FlatPrefix(pieces, i + 1, |pieces|);
    assert all[..|q + b|] == q + b;
    assert all[|q|..|q| + |b|] == all[..|q + b|][|q|..] == b;
  }

  function Pieces(h: Header, ops: seq<Op>): seq<seq<Byte>>
    requires AllWritable(ops)
  {
    seq(|ops|, i requires 0 <= i < |ops| => OpBytes(h, ops[i]))
  }

  /** The bytes of a list of operations. */
  function ProgramBytes(h: Header, ops: seq<Op>): seq<Byte>
    requires AllWritable(ops)
  {
    Flat(Pieces(h, ops), |ops|)
  }

  function Cuts(h: Header, ops: seq<Op>): seq<nat>
    requires AllWritable(ops)
  {
    seq(|ops| + 1, i requires 0 <= i <= |ops| => |Flat(Pieces(h, ops), i)|)
  }

  lemma PieceEncodes(h: Header, base: int, ops: seq<Op>, i: nat)
    requires AllWritable(ops) && AllNumbered(base, ops) && i < |ops|
    ensures Encodes(h, base, ProgramBytes(h, ops), Cuts(h, ops)[i], Cuts(h, ops)[i + 1], ops[i])
  {
    PieceStands(Pieces(h, ops), i);
    assert Numbered(base, ops[i]);
    OpEncodes(h, base, ops[i], ProgramBytes(h, ops), Cuts(h, ops)[i]);
  }

  /** They are a program of exactly these operations. */
  lemma WrittenProgram(h: Header, base: int, ops: seq<Op>)
    requires AllWritable(ops) && AllNumbered(base, ops)
    ensures Program(h, base, ProgramBytes(h, ops), Cuts(h, ops), ops)
  {
    var all, cuts := ProgramBytes(h, ops), Cuts(h, ops);
    forall i | 0 <= i < |ops| ensures Encodes(h, base, all, cuts[i], cuts[i + 1], ops[i]) {
      PieceEncodes(h, base, ops, i);
    }
  }
}
