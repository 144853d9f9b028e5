/** Opcodes of a header that does not start its special opcodes at 13, as the reader always does. */
module LineOpcodes {
  import opened Arith
  import opened Leb128
  import opened LineProgram
  import opened LineReader
  import opened LineStandard

  /** The reader takes an opcode for what it is in section 6.2.5 of DWARF 4: extended, standard or special. */
  predicate Taken(h: Header, b: Byte) { ClassOf(FIRST_SPECIAL, b) == ClassOf(h.opcodeBase, b) }

  /** It does exactly when the opcode is below both first special opcodes, or below none. */
  lemma ByteTaken(h: Header, b: Byte)
    requires HeaderOk(h)
    ensures Taken(h, b) <==> (b < h.opcodeBase && b < FIRST_SPECIAL) || (h.opcodeBase <= b && FIRST_SPECIAL <= b)
  {}

  /** All opcodes are taken for what they are exactly when the special ones start at 13. */
  lemma AllTaken(h: Header)
    requires HeaderOk(h)
    ensures (forall b: Byte :: Taken(h, b)) <==> h.opcodeBase == FIRST_SPECIAL
  {
    var low: Byte, high: Byte := 12, 13;
    assert h.opcodeBase < FIRST_SPECIAL ==> !Taken(h, low);
    assert h.opcodeBase > FIRST_SPECIAL ==> !Taken(h, high);
  }

  predicate AllOpcodesTaken(h: Header, bs: seq<Byte>, cuts: seq<nat>, n: nat)
    requires n <= |cuts|
  {
    forall i :: 0 <= i < n ==> cuts[i] < |bs| && Taken(h, bs[cuts[i]])
  }

  /** A program of the standard is the same program for the reader exactly when all its opcodes are taken for
      what they are. */
  lemma ProgramTaken(h: Header, bs: seq<Byte>, cuts: seq<nat>, ops: seq<Op>)
    requires Program(h, h.opcodeBase, bs, cuts, ops)
    ensures Program(h, FIRST_SPECIAL, bs, cuts, ops) <==> AllOpcodesTaken(h, bs, cuts, |ops|)
  {
    if Program(h, FIRST_SPECIAL, bs, cuts, ops) {
      forall i | 0 <= i < |ops| ensures cuts[i] < |bs| && Taken(h, bs[cuts[i]]) {
        OpTaken(h, bs, cuts[i], cuts[i + 1], ops[i]);
      }
    }
    if AllOpcodesTaken(h, bs, cuts, |ops|) {
      forall i | 0 <= i < |ops| ensures Encodes(h, FIRST_SPECIAL, bs, cuts[i], cuts[i + 1], ops[i]) {
        OpTaken(h, bs, cuts[i], cuts[i + 1], ops[i]);
        assert Taken(h, bs[cuts[i]]);
      }
    }
  }

  lemma OpTaken(h: Header, bs: seq<Byte>, p: nat, e: nat, op: Op)
    requires Encodes(h, h.opcodeBase, bs, p, e, op)
    ensures p < |bs| && (Encodes(h, FIRST_SPECIAL, bs, p, e, op) <==> Taken(h, bs[p]))
  {}

  /** Every program of the standard's operations is the same one for the reader. */
  ghost predicate SamePrograms(h: Header) {
    forall bs, cuts, ops :: Program(h, h.opcodeBase, bs, cuts, ops) ==> Program(h, FIRST_SPECIAL, bs, cuts, ops)
  }

  /** That holds exactly when the special opcodes do not start below 13. */
  lemma SameProgramsIff(h: Header)
    requires HeaderOk(h)
    ensures SamePrograms(h) <==> h.opcodeBase >= FIRST_SPECIAL
  {
    if h.opcodeBase >= FIRST_SPECIAL {
      forall bs, cuts, ops | Program(h, h.opcodeBase, bs, cuts, ops) ensures Program(h, FIRST_SPECIAL, bs, cuts, ops) {
        forall i | 0 <= i < |ops| ensures cuts[i] < |bs| && Taken(h, bs[cuts[i]]) {
          KnownOpcode(h, bs, cuts[i], cuts[i + 1], ops[i]);
        }
        ProgramTaken(h, bs, cuts, ops);
      }
    } else {
      LostRows(h);
      assert !Encodes(h, FIRST_SPECIAL, TWELVES, 0, 1, Special(12));
      assert [0, 1, 2][0] == 0 && [0, 1, 2][1] == 1;
    }
  }

  /** No operation has an opcode from 13 on but a special one. */
  lemma KnownOpcode(h: Header, bs: seq<Byte>, p: nat, e: nat, op: Op)
    requires HeaderOk(h) && h.opcodeBase >= FIRST_SPECIAL && Encodes(h, h.opcodeBase, bs, p, e, op)
    ensures p < |bs| && Taken(h, bs[p])
  {}

  const TWELVES: seq<Byte> := [12, 12]

  /** With fewer than twelve standard opcodes, two special opcodes are taken for one set_isa; both rows are lost. */
  lemma LostRows(h: Header)
    requires HeaderOk(h) && h.opcodeBase < FIRST_SPECIAL
    ensures Program(h, h.opcodeBase, TWELVES, [0, 1, 2], [Special(12), Special(12)])
    ensures Program(h, FIRST_SPECIAL, TWELVES, [0, 2], [SetIsa(12)])
    ensures |StdRows(h, Start(h), [Special(12), Special(12)], 0)| == 2 && Rows(h, Start(h), [SetIsa(12)], 0) == []
  {
    var ops, r := [Special(12), Special(12)], Start(h);
    var operand: seq<Byte> := TWELVES[1..2];
    assert operand == [12] && operand[1..] == [];
    assert EncodesUnsigned(operand, 12);
    assert Encodes(h, FIRST_SPECIAL, TWELVES, 0, 2, SetIsa(12));
    assert Encodes(h, h.opcodeBase, TWELVES, 0, 1, ops[0]) && Encodes(h, h.opcodeBase, TWELVES, 1, 2, ops[1]);
    assert StdRows(h, StdExec(h, StdExec(h, r, ops[0]), ops[1]), ops, 2) == [];
    assert |StdRows(h, StdExec(h, r, ops[0]), ops, 1)| == 1;
    assert Rows(h, Exec(h, r, SetIsa(12)), [SetIsa(12)], 1) == [];
  }

  lemma FirstOperation(h: Header, base: int, bs: seq<Byte>, cuts: seq<nat>, ops: seq<Op>)
    ensures Program(h, base, bs, cuts, ops) && bs != [] ==> ops != [] && Encodes(h, base, bs, 0, cuts[1], ops[0])
  {}

  /** With more than twelve standard opcodes, one the reader does not know is taken for a special one, which
      makes a row; its distance from the first special opcode wraps. */
  lemma InventedRow(h: Header, b: Byte)
    requires HeaderOk(h) && FIRST_SPECIAL <= b < h.opcodeBase
    ensures forall cuts, ops :: !Program(h, h.opcodeBase, [b], cuts, ops)
    ensures Program(h, FIRST_SPECIAL, [b], [0, 1], [Special(b)])
    ensures Mod32(b - h.opcodeBase) == b - h.opcodeBase + 0x1_0000_0000
    ensures |Rows(h, Start(h), [Special(b)], 0)| == 1
  {
    forall cuts, ops ensures !Program(h, h.opcodeBase, [b], cuts, ops) {
      FirstOperation(h, h.opcodeBase, [b], cuts, ops);
    }
    ModBelow(b - h.opcodeBase);
    assert Encodes(h, FIRST_SPECIAL, [b], 0, 1, Special(b));
    assert Rows(h, Exec(h, Start(h), Special(b)), [Special(b)], 1) == [];
  }
}
