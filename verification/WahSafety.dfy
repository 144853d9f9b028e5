/** Exactly when packing the result of an OR or of a bit update drops a group, and the
    length lost by the operators that return a new vector. */
module WahSafety {
  import opened Bits
  import opened WahWords
  import opened WahBuilder
  import opened WahLogic
  import opened WahVector
  import opened WahOperations

  /** Group k has its top bit equal to b, and is no fill. */
  predicate TopBitLiteral(e: seq<nat>, k: nat, b: bool)
    requires k < |e|
  {
    IsLiteral(e[k]) && (e[k] >= ONES) == b
  }

  /** A change before the last group is always safe. */
  lemma InnerNeverLoses(e: seq<nat>, rem: nat, k: nat, j: nat, v: bool)
    requires 0 < rem < GROUP && k < |e| - 1 && LastForm(e[|e| - 1], rem)
    ensures !LosesGroup(Assign(e, k, j, v), rem)
  {
    var c := Assign(e, k, j, v);
    assert c[|c| - 1] == e[|e| - 1];
    FormBits(e[|e| - 1], rem);
    UniformIsFill(c, rem);
  }

  /** A group is lost when the last one becomes uniform after a literal whose top bit is like it. */
  lemma LosesIs(c: seq<nat>, rem: nat)
    requires 0 < rem < GROUP && |c| >= 2
    ensures LosesGroup(c, rem) <==>
            && IsLiteral(c[|c| - 1])
            && ((NoBits(c[|c| - 1], rem) && TopBitLiteral(c, |c| - 2, false))
                || (FullBits(c[|c| - 1], rem) && TopBitLiteral(c, |c| - 2, true)))
  {
    KeptUniform(c[|c| - 1], rem);
  }

  /** Every bit below rem but j is set. */
  ghost predicate FullBut(x: nat, rem: nat, j: nat) {
    forall i: nat :: i < rem && i != j ==> Bit(x, i)
  }

  lemma SetBitsOf(x: nat, j: nat, g: nat, rem: nat)
    requires j < rem < GROUP && IsLogic(Or, x, Pow2(j), g)
    ensures FullBits(g, rem) <==> FullBut(x, rem, j)
    ensures Bit(g, j)
    ensures Bit(g, 30) == Bit(x, 30)
  {
    forall i: nat | i < GROUP ensures Bit(g, i) == (Bit(x, i) || i == j) { PowBit(j, i); }
    if FullBits(g, rem) {
      forall i: nat | i < rem && i != j ensures Bit(x, i) { assert Bit(g, i); }
    }
  }

  lemma SetLastForm(x: nat, j: nat, g: nat, rem: nat)
    requires 0 < rem < GROUP && j < rem && LastForm(x, rem) && IsLogic(Or, x, Pow2(j), g)
    ensures x == ALL_ONES ==> g == ALL_ONES
    ensures x != ALL_ONES ==> IsLiteral(g) && !NoBits(g, rem)
    ensures x != ALL_ONES ==> (FullBits(g, rem) <==> FullBut(x, rem, j))
  {
    SetBitsOf(x, j, g, rem);
    if x == ALL_ONES {
      OnesBits(GROUP);
      FullIsOnes(g);
    } else {
      FormBits(x, rem);
      ZeroBit(j);
      assert Bit(ALL_ONES, 30) by { OnesBits(GROUP); }
      assert !Bit(g, 30);
      assert g != 0 && g != ALL_ONES && g <= ALL_ONES by { GroupPow(); }
    }
  }

  /** Setting bit j of the last group loses a group exactly when it completes the partial group
      after a literal whose top bit is set. */
  lemma SetLoses(e: seq<nat>, rem: nat, j: nat)
    requires 0 < rem < GROUP && j < rem && |e| >= 2 && LastForm(e[|e| - 1], rem)
    ensures LosesGroup(Assign(e, |e| - 1, j, true), rem) <==>
            && e[|e| - 1] != ALL_ONES
            && FullBut(e[|e| - 1], rem, j)
            && TopBitLiteral(e, |e| - 2, true)
  {
    var x := e[|e| - 1];
    var c := Assign(e, |e| - 1, j, true);
    var g := c[|c| - 1];
    assert IsLogic(Or, x, Pow2(j), g) by { LogicIs(Or, x, Pow2(j)); }
    SetLastForm(x, j, g, rem);
    LosesIs(c, rem);
  }

  lemma ClearLastForm(x: nat, j: nat, g: nat, rem: nat)
    requires 0 < rem < GROUP && j < rem && LastForm(x, rem) && IsLogic(Reset, x, Pow2(j), g)
    ensures !FullBits(g, rem)
    ensures x != ALL_ONES && NoBits(g, rem) ==> g == 0
    ensures x == ALL_ONES ==> IsLiteral(g) && (NoBits(g, rem) <==> rem == 1)
  {
    FormBits(x, rem);
    PowBit(j, j);
    PowBit(j, 30);
    assert !Bit(g, j);
    if x == ALL_ONES {
      OnesBits(GROUP);
      ZeroBit(30);
      assert Bit(g, 30);
      assert g != 0 && g != ALL_ONES && g <= ALL_ONES by { GroupPow(); }
      if rem > 1 {
        var i: nat := if j == 0 then 1 else 0;
        PowBit(j, i);
        assert Bit(g, i);
      }
    } else if NoBits(g, rem) {
      NoBitsIsZero(g);
    }
  }

  /** Clearing bit j of the last group loses a group exactly when this group is the single bit
      ending a run of ones of length one, after a literal whose top bit is clear. */
  lemma ClearLoses(e: seq<nat>, rem: nat, j: nat)
    requires 0 < rem < GROUP && j < rem && |e| >= 2 && LastForm(e[|e| - 1], rem)
    ensures LosesGroup(Assign(e, |e| - 1, j, false), rem) <==>
            rem == 1 && e[|e| - 1] == ALL_ONES && TopBitLiteral(e, |e| - 2, false)
  {
    var x := e[|e| - 1];
    var c := Assign(e, |e| - 1, j, false);
    var g := c[|c| - 1];
    assert IsLogic(Reset, x, Pow2(j), g) by { LogicIs(Reset, x, Pow2(j)); }
    ClearLastForm(x, j, g, rem);
    LosesIs(c, rem);
  }

  /** Two canonical vectors of 33 bits whose OR the code stores in a single group. */
  lemma OrCounterexample()
    ensures Canonical([0x4000_0000, 1], 2) && Canonical([0x4000_0000, 2], 2)
    ensures |Expand([0x4000_0000, 1])| == |Expand([0x4000_0000, 2])| == 2
    ensures Unsafe(Or, [0x4000_0000, 1], [0x4000_0000, 2], 2)
  {
    TwoLiterals(0x4000_0000, 1);
    TwoLiterals(0x4000_0000, 2);
    TwoBitsFull();
    OrOfTwo(0x4000_0000, 1, 2);
  }

  lemma TwoBitsFull()
    ensures TogetherFull(1, 2, 2)
  {
    assert Mask(2) == 3;
    assert Bit(1, 0) && Bit(2, 1);
  }

  lemma OrOfTwo(v: nat, x: nat, y: nat)
    requires ONES <= v < ALL_ONES && LastForm(x, 2) && LastForm(y, 2) && TogetherFull(x, y, 2)
    ensures LosesGroup(Combine(Or, [v, x], [v, y]), 2)
  {
    var e, f := [v, x], [v, y];
    OrLoses(e, f, Combine(Or, e, f), 2);
    CombineAt(Or, e, f, 2, 0);
    SelfOr(v);
  }

  lemma SelfOr(x: nat)
    requires x < FILL
    ensures Logic(Or, x, x, GROUP) == x
  {
    LogicIs(Or, x, x);
    GroupPow();
    BitsDetermine(Logic(Or, x, x, GROUP), x, GROUP);
  }

  /** Two literals, the second of two bits. */
  lemma TwoLiterals(v: Word, w: Word)
    requires IsLiteral(v) && 0 < w < 3
    ensures Expand([v, w]) == [v, w] && Canonical([v, w], 2)
  {
    assert OkWord(v) && OkWord(w) && !IsFill(v) && !IsFill(w) && Mask(2) == 3;
    ExpandOne(v);
    ExpandPush([v], w);
    assert [v] + [w] == [v, w];
  }

  /** Setting bit 31 of these 32 bits, 30 zeroes, a one and a zero, leaves one group. */
  lemma SetCounterexample()
    ensures Canonical([0x4000_0000, Fill(1, false)], 1) && Expand([0x4000_0000, Fill(1, false)]) == [0x4000_0000, 0]
    ensures LosesGroup(Assign([0x4000_0000, 0], 1, 0, true), 1)
  {
    LiteralAndFill(0x4000_0000, false);
    SetLoses([0x4000_0000, 0], 1, 0);
  }

  /** Clearing bit 31 of these, a one, 30 zeroes and a one, does as well. */
  lemma ClearCounterexample()
    ensures Canonical([1, Fill(1, true)], 1) && Expand([1, Fill(1, true)]) == [1, ALL_ONES]
    ensures LosesGroup(Assign([1, ALL_ONES], 1, 0, false), 1)
  {
    LiteralAndFill(1, true);
    ClearLoses([1, ALL_ONES], 1, 0);
  }

  lemma LiteralAndFill(v: Word, ones: bool)
    requires IsLiteral(v)
    ensures Canonical([v, Fill(1, ones)], 1) && Expand([v, Fill(1, ones)]) == [v, FillGroup(ones)]
  {
    var f := Fill(1, ones);
    GroupPow();
    ExpandOne(v);
    ExpandPush([v], f);
    assert [v] + [f] == [v, f];
  }

  /** makeAnd, makeOr and makeReset: the operation stores its words in a vector built empty,
      whose rem stays 0. The length is that of the operands only when they end on a whole group. */
  method Make(op: Op, v1: Vector, v2: Vector) returns (r: Vector)
    requires v1.Valid() && v2.Valid() && v1.rem == v2.rem && |Expand(v1.words)| == |Expand(v2.words)|
    ensures fresh(r) && r.rem == 0
    ensures !Unsafe(op, v1.words, v2.words, v1.rem) ==>
              IsResult(op, v1.words, v2.words, r.words, v1.rem) && (r.Length() == v1.Length() <==> v1.rem == 0)
    ensures Unsafe(op, v1.words, v2.words, v1.rem) ==> |Expand(r.words)| == |Expand(v1.words)| - 1
  {
    r := new Vector.Empty();
    DoBinary(op, r, v1, v2);
  }

  /** applyAnd, applyOr, applyReset: the result replaces the first operand. */
  method Apply(op: Op, v1: Vector, v2: Vector)
    requires v1.Valid() && v2.Valid() && v1.rem == v2.rem && |Expand(v1.words)| == |Expand(v2.words)|
    modifies v1
    ensures v1.rem == old(v1.rem)
    ensures !old(Unsafe(op, v1.words, v2.words, v1.rem)) ==>
              v1.Valid() && v1.Length() == old(v1.Length()) && IsResult(op, old(v1.words), old(v2.words), v1.words, v1.rem)
    ensures old(Unsafe(op, v1.words, v2.words, v1.rem)) ==> |Expand(v1.words)| == |old(Expand(v1.words))| - 1
  {
    DoBinary(op, v1, v1, v2);
  }

  /** makeNot: rem stays 0 as well. */
  method MakeNot(v: Vector) returns (r: Vector)
    requires v.Valid()
    ensures fresh(r) && r.Valid() && r.rem == 0
    ensures IsNegation(v.words, r.words, v.rem) && (r.Length() == v.Length() <==> v.rem == 0)
  {
    r := new Vector.Empty();
    DoNot(r, v);
  }

  /** From bit rem on, y has the bits x has not. */
  ghost predicate Opposite(x: nat, y: nat, rem: nat) {
    forall j: nat :: rem <= j < GROUP ==> Bit(y, j) == !Bit(x, j)
  }

  lemma OppositeAt(x: nat, y: nat, rem: nat, j: nat)
    requires rem <= j < GROUP
    ensures Opposite(x, y, rem) ==> Bit(y, j) == !Bit(x, j)
  {}

  /** The last group of a vector and of its negation: the padding of one is the opposite of the other's
      exactly for fills. */
  lemma LastNegated(x: nat, y: nat, rem: nat)
    requires 0 < rem < GROUP && LastForm(x, rem) && LastForm(y, rem)
    requires forall j: nat :: j < rem ==> Bit(y, j) == !Bit(x, j)
    ensures Opposite(x, y, rem) <==> x == 0 || x == ALL_ONES
  {
    FormBits(x, rem);
    FormBits(y, rem);
    if x != 0 && x != ALL_ONES {
      OnesBits(rem);
      if FullBits(y, rem) { NoneBelow(x, y, rem); }
      assert y != ALL_ONES;
      OppositeAt(x, y, rem, 30);
      assert !Bit(x, 30) && !Bit(y, 30);
    } else if x == 0 {
      assert FullBits(y, rem);
    } else {
      assert NoBits(y, rem);
    }
  }

  lemma NoneBelow(x: nat, y: nat, rem: nat)
    requires FullBits(y, rem) && forall j: nat :: j < rem ==> Bit(y, j) == !Bit(x, j)
    ensures NoBits(x, rem)
  {}

  /** The bits of two vectors negated on the way, the second time as a vector of whole groups. */
  lemma NegatedTwice(e: seq<nat>, e': seq<nat>, e'': seq<nat>, rem: nat)
    requires 0 < rem < GROUP && |e| > 0 && Negated(e, e', rem) && Negated(e', e'', 0)
    requires LastForm(e[|e| - 1], rem) && LastForm(e'[|e| - 1], rem)
    ensures SameVector(e'', e, 0) <==> e[|e| - 1] == 0 || e[|e| - 1] == ALL_ONES
  {
    var k := |e| - 1;
    var x, y := e[k], e'[k];
    forall j: nat | j < rem ensures Bit(y, j) == !Bit(x, j) {
      BitsOfGroup(e, rem, k, j);
      BitsOfGroup(e', rem, k, j);
    }
    LastNegated(x, y, rem);
    forall j: nat | j < GROUP ensures BitAt(e'', GROUP * k + j) == !Bit(y, j) && BitAt(e, GROUP * k + j) == Bit(x, j) {
      BitsOfGroup(e, 0, k, j);
      BitsOfGroup(e', 0, k, j);
    }
    if x == 0 || x == ALL_ONES {
      forall i: nat | i < BitLength(|e|, 0) ensures BitAt(e'', i) == BitAt(e, i) {
        if i >= BitLength(|e|, rem) {
          var j: nat := i - GROUP * k;
          assert rem <= j < GROUP && Bit(y, j) == !Bit(x, j);
          assert i == GROUP * k + j;
        } else {
          assert BitAt(e', i) == !BitAt(e, i);
        }
      }
    } else {
      var j: nat :| rem <= j < GROUP && Bit(y, j) == Bit(x, j);
      assert BitAt(e'', GROUP * k + j) != BitAt(e, GROUP * k + j);
    }
  }

  /** makeNot twice gives the words back exactly when the vector ends on a whole group or with a fill. */
  method MakeNotTwice(v: Vector) returns (r: Vector)
    requires v.Valid()
    ensures r.words == v.words <==> v.rem == 0 || IsFill(v.words[|v.words| - 1])
  {
    var n := MakeNot(v);
    r := MakeNot(n);
    MadeTwice(v.words, n.words, r.words, v.rem);
  }

  lemma MadeTwice(w: seq<Word>, w': seq<Word>, w'': seq<Word>, rem: nat)
    requires rem < GROUP && Canonical(w, rem) && IsNegation(w, w', rem) && IsNegation(w', w'', 0)
    ensures w'' == w <==> rem == 0 || IsFill(w[|w| - 1])
  {
    LastGroup(w, rem);
    LastGroup(w', rem);
    if rem == 0 {
      NegationInvolutive(w, w', w'', 0);
    } else {
      CanonicalUnique(w'', w, 0);
      NegatedTwice(Expand(w), Expand(w'), Expand(w''), rem);
    }
  }

  /** applyNot twice leaves the vector as it was, word for word. */
  method ApplyNotTwice(v: Vector)
    requires v.Valid()
    modifies v
    ensures v.Valid() && v.words == old(v.words) && v.rem == old(v.rem)
  {
    ghost var w := v.words;
    DoNot(v, v);
    ghost var w' := v.words;
    DoNot(v, v);
    NegationInvolutive(w, w', v.words, v.rem);
  }
}
