/** Group-wise meaning of the vector operations, and when packing their result is safe. */
module WahLogic {
  import opened Bits
  import opened WahWords
  import opened WahBuilder

  /** The operator applied group by group. */
  function CombineTo(op: Op, a: seq<nat>, b: seq<nat>, n: nat): (c: seq<nat>)
    requires n <= |a| == |b|
    ensures |c| == n
  {
    if n == 0 then [] else CombineTo(op, a, b, n - 1) + [Logic(op, a[n - 1], b[n - 1], GROUP)]
  }

  function Combine(op: Op, a: seq<nat>, b: seq<nat>): (c: seq<nat>)
    requires |a| == |b|
  {
    CombineTo(op, a, b, |a|)
  }

  lemma {:induction false} CombineAt(op: Op, a: seq<nat>, b: seq<nat>, n: nat, k: nat)
    requires k < n <= |a| == |b|
    ensures CombineTo(op, a, b, n)[k] == Logic(op, a[k], b[k], GROUP)
  {
    if k < n - 1 { CombineAt(op, a, b, n - 1, k); }
  }

  function Complement(a: seq<nat>): seq<nat> {
    Combine(Reset, Repeat(ALL_ONES, |a|), a)
  }

  /** Every bit of c is the operator applied to the bits of a and b. */
  ghost predicate Pointwise(op: Op, a: seq<nat>, b: seq<nat>, c: seq<nat>, rem: nat)
    requires rem < GROUP
  {
    && |a| == |b| == |c|
    && (forall i: nat :: i < BitLength(|c|, rem) ==> BitAt(c, i) == op.Of(BitAt(a, i), BitAt(b, i)))
  }

  /** Every bit of c is the negation of that of a. */
  ghost predicate Negated(a: seq<nat>, c: seq<nat>, rem: nat)
    requires rem < GROUP
  {
    && |a| == |c|
    && (forall i: nat :: i < BitLength(|c|, rem) ==> BitAt(c, i) == !BitAt(a, i))
  }

  /** c has bit index equal to v and every other bit of a. */
  ghost predicate Assigned(a: seq<nat>, index: nat, v: bool, c: seq<nat>, rem: nat)
    requires rem < GROUP
  {
    && |a| == |c|
    && (forall i: nat :: i < BitLength(|c|, rem) ==> BitAt(c, i) == if i == index then v else BitAt(a, i))
  }

  lemma CombinePointwise(op: Op, a: seq<nat>, b: seq<nat>, c: seq<nat>, rem: nat)
    requires |a| == |b| && rem < GROUP && SameVector(Combine(op, a, b), c, rem)
    ensures Pointwise(op, a, b, c, rem)
  {
    forall i: nat | i < BitLength(|c|, rem) ensures BitAt(c, i) == op.Of(BitAt(a, i), BitAt(b, i)) {
      assert BitAt(Combine(op, a, b), i) == BitAt(c, i);
      CombineAt(op, a, b, |a|, i / GROUP);
      LogicBit(op, a[i / GROUP], b[i / GROUP], GROUP, i % GROUP);
    }
  }

  lemma ComplementNegated(a: seq<nat>, c: seq<nat>, rem: nat)
    requires rem < GROUP && SameVector(Complement(a), c, rem)
    ensures Negated(a, c, rem)
  {
    forall i: nat | i < BitLength(|c|, rem) ensures BitAt(c, i) == !BitAt(a, i) {
      assert BitAt(Complement(a), i) == BitAt(c, i);
      CombineAt(Reset, Repeat(ALL_ONES, |a|), a, |a|, i / GROUP);
      LogicBit(Reset, ALL_ONES, a[i / GROUP], GROUP, i % GROUP);
      OnesBits(GROUP);
    }
  }

  /** Group k of a with bit j set or cleared. */
  function Assign(a: seq<nat>, k: nat, j: nat, v: bool): seq<nat>
    requires k < |a|
  {
    a[k := Logic(if v then Or else Reset, a[k], Pow2(j), GROUP)]
  }

  lemma AssignAssigned(a: seq<nat>, index: nat, v: bool, c: seq<nat>, rem: nat)
    requires rem < GROUP && index < BitLength(|a|, rem)
    requires SameVector(Assign(a, index / GROUP, index % GROUP, v), c, rem)
    ensures Assigned(a, index, v, c, rem)
  {
    var k, j := index / GROUP, index % GROUP;
    forall i: nat | i < BitLength(|c|, rem)
      ensures BitAt(c, i) == if i == index then v else BitAt(a, i)
    {
      assert BitAt(Assign(a, k, j, v), i) == BitAt(c, i);
      if i / GROUP == k {
        LogicBit(if v then Or else Reset, a[k], Pow2(j), GROUP, i % GROUP);
        PowBit(j, i % GROUP);
      }
    }
  }

  // ---- one run of equal groups at a time ----

  lemma {:induction false} ExtendCombine(op: Op, a: seq<nat>, b: seq<nat>, p: nat, n: nat, x: nat, y: nat)
    requires |a| == |b| && p + n <= |a|
    requires forall k :: p <= k < p + n ==> a[k] == x
    requires forall k :: p <= k < p + n ==> b[k] == y
    ensures CombineTo(op, a, b, p + n) == CombineTo(op, a, b, p) + Repeat(Logic(op, x, y, GROUP), n)
  {
    var g := Logic(op, x, y, GROUP);
    if n == 0 {
      assert CombineTo(op, a, b, p) + Repeat(g, 0) == CombineTo(op, a, b, p);
    } else {
      ExtendCombine(op, a, b, p, n - 1, x, y);
      Associates(CombineTo(op, a, b, p), Repeat(g, n - 1), [g]);
    }
  }

  /** A word-wide operator on two fills gives a fill. */
  lemma LogicOfFills(op: Op, x: nat, y: nat)
    requires (x == 0 || x == ALL_ONES) && (y == 0 || y == ALL_ONES)
    ensures Logic(op, x, y, GROUP) == FillGroup(op.Of(x != 0, y != 0))
  {
    LogicIs(op, x, y);
    LogicFill(op, x, y, Logic(op, x, y, GROUP));
  }

  lemma LogicFill(op: Op, x: nat, y: nat, g: nat)
    requires (x == 0 || x == ALL_ONES) && (y == 0 || y == ALL_ONES) && IsLogic(op, x, y, g)
    ensures g == FillGroup(op.Of(x != 0, y != 0))
  {
    OnesBits(GROUP);
    if op.Of(x != 0, y != 0) { FullIsOnes(g); } else { NoBitsIsZero(g); }
  }

  // ---- which results Fix packs safely ----

  /** The last group of a canonical vector with a partial last group. */
  predicate LastForm(g: nat, rem: nat) {
    g == 0 || g == ALL_ONES || 0 < g < Mask(rem)
  }

  lemma PartialBits(g: nat, rem: nat)
    requires 0 < rem < GROUP && 0 < g < Mask(rem)
    ensures !NoBits(g, rem) && !FullBits(g, rem)
    ensures forall i: nat :: rem <= i ==> !Bit(g, i)
  {
    OnesBits(rem);
    if NoBits(g, rem) { BitsDetermine(g, 0, rem); }
    if FullBits(g, rem) { BitsDetermine(g, Mask(rem), rem); }
    forall i: nat | rem <= i ensures !Bit(g, i) { HighBit(g, rem, i); }
  }

  /** g is the operator applied bit by bit to two groups. */
  ghost predicate IsLogic(op: Op, x: nat, y: nat, g: nat) {
    g < Pow2(GROUP) && forall i: nat :: i < GROUP ==> Bit(g, i) == op.Of(Bit(x, i), Bit(y, i))
  }

  lemma LogicIs(op: Op, x: nat, y: nat)
    ensures IsLogic(op, x, y, Logic(op, x, y, GROUP))
  {
    forall i: nat | i < GROUP ensures Bit(Logic(op, x, y, GROUP), i) == op.Of(Bit(x, i), Bit(y, i)) {
      LogicBit(op, x, y, GROUP, i);
    }
  }

  lemma NoBitsIsZero(g: nat)
    requires g < Pow2(GROUP) && NoBits(g, GROUP)
    ensures g == 0
  {
    OnesBits(GROUP);
    BitsDetermine(g, 0, GROUP);
  }

  lemma FullIsOnes(g: nat)
    requires g < Pow2(GROUP) && FullBits(g, GROUP)
    ensures g == ALL_ONES
  {
    OnesBits(GROUP);
    GroupPow();
    BitsDetermine(g, ALL_ONES, GROUP);
  }

  /** The bits of the three forms a last group takes. */
  lemma FormBits(g: nat, rem: nat)
    requires LastForm(g, rem) && 0 < rem < GROUP
    ensures g == 0 ==> NoBits(g, GROUP)
    ensures g == ALL_ONES ==> FullBits(g, GROUP)
    ensures g != 0 && g != ALL_ONES ==> !NoBits(g, rem) && !FullBits(g, rem)
    ensures g != ALL_ONES ==> forall i: nat :: rem <= i < GROUP ==> !Bit(g, i)
    ensures FullBits(g, rem) ==> g == ALL_ONES
    ensures NoBits(g, rem) ==> g == 0
  {
    OnesBits(GROUP);
    assert !Bit(0, 0) && Bit(ALL_ONES, 0);
    if 0 < g < Mask(rem) { PartialBits(g, rem); }
  }

  /** An AND full on rem bits comes from two full groups; one empty there is empty. */
  lemma AndForm(x: nat, y: nat, g: nat, rem: nat)
    requires 0 < rem < GROUP && LastForm(x, rem) && LastForm(y, rem) && IsLogic(And, x, y, g)
    ensures FullBits(g, rem) ==> g == ALL_ONES
    ensures NoBits(g, rem) ==> g == 0
  {
    FormBits(x, rem);
    FormBits(y, rem);
    if FullBits(g, rem) {
      assert FullBits(x, rem) && FullBits(y, rem);
      assert Bit(x, 0) && Bit(y, 0);
      FullIsOnes(g);
    }
    if NoBits(g, rem) {
      assert !Bit(g, 0);
      assert x != ALL_ONES || y != ALL_ONES;
      if x == ALL_ONES {
        assert forall i: nat :: i < GROUP ==> Bit(g, i) == Bit(y, i);
      } else if y == ALL_ONES {
        assert forall i: nat :: i < GROUP ==> Bit(g, i) == Bit(x, i);
      }
      NoBitsIsZero(g);
    }
  }

  /** The same for AND-NOT. */
  lemma ResetForm(x: nat, y: nat, g: nat, rem: nat)
    requires 0 < rem < GROUP && LastForm(x, rem) && LastForm(y, rem) && IsLogic(Reset, x, y, g)
    ensures FullBits(g, rem) ==> g == ALL_ONES
    ensures NoBits(g, rem) ==> g == 0
  {
    FormBits(x, rem);
    FormBits(y, rem);
    if FullBits(g, rem) {
      assert FullBits(x, rem) && NoBits(y, rem);
      assert Bit(x, 0) && !Bit(y, 0);
      FullIsOnes(g);
    }
    if NoBits(g, rem) {
      if x == ALL_ONES {
        assert FullBits(y, rem);
        assert Bit(y, 0);
      }
      NoBitsIsZero(g);
    }
  }

  lemma KeptUniform(g: nat, rem: nat)
    requires 0 < rem < GROUP
    ensures Kept(g, rem) == 0 <==> NoBits(g, rem)
    ensures Kept(g, rem) == Mask(rem) <==> FullBits(g, rem)
  {
    KeptBits(g, rem);
    OnesBits(rem);
    if NoBits(g, rem) { BitsDetermine(Kept(g, rem), 0, rem); }
    if FullBits(g, rem) { BitsDetermine(Kept(g, rem), Mask(rem), rem); }
  }

  lemma CanonicalLast(ws: seq<Word>, rem: nat)
    requires Canonical(ws, rem) && rem != 0
    ensures Expand(ws) != [] && LastForm(Expand(ws)[|Expand(ws)| - 1], rem)
  {
    LastGroup(ws, rem);
  }

  /** Nothing is lost when a last group uniform on its rem bits is a fill already. */
  lemma UniformIsFill(c: seq<nat>, rem: nat)
    requires 0 < rem < GROUP && c != []
    requires FullBits(c[|c| - 1], rem) ==> c[|c| - 1] == ALL_ONES
    requires NoBits(c[|c| - 1], rem) ==> c[|c| - 1] == 0
    ensures !LosesGroup(c, rem)
  {
    KeptUniform(c[|c| - 1], rem);
  }

  lemma LastNeverLoses(op: Op, x: nat, y: nat, c: seq<nat>, rem: nat)
    requires op != Or && 0 < rem < GROUP && c != []
    requires LastForm(x, rem) && LastForm(y, rem) && IsLogic(op, x, y, c[|c| - 1])
    ensures !LosesGroup(c, rem)
  {
    if op == And { AndForm(x, y, c[|c| - 1], rem); } else { ResetForm(x, y, c[|c| - 1], rem); }
    UniformIsFill(c, rem);
  }

  /** AND, AND-NOT and NOT of canonical vectors never reach the unsafe branch of Fix. */
  lemma NeverLoses(op: Op, a: seq<nat>, b: seq<nat>, rem: nat)
    requires op != Or && rem < GROUP && |a| == |b| > 0
    requires rem != 0 ==> LastForm(a[|a| - 1], rem) && LastForm(b[|b| - 1], rem)
    ensures !LosesGroup(Combine(op, a, b), rem)
  {
    if rem != 0 {
      LogicIs(op, a[|a| - 1], b[|b| - 1]);
      CombineAt(op, a, b, |a|, |a| - 1);
      LastNeverLoses(op, a[|a| - 1], b[|b| - 1], Combine(op, a, b), rem);
    }
  }

  /** The last partial group is filled by x and y together, by neither alone. */
  ghost predicate TogetherFull(x: nat, y: nat, rem: nat) {
    && 0 < x < Mask(rem)
    && 0 < y < Mask(rem)
    && (forall i: nat {:trigger Bit(x, i)} :: i < rem ==> Bit(x, i) || Bit(y, i))
  }

  lemma OrForm(x: nat, y: nat, g: nat, rem: nat)
    requires 0 < rem < GROUP && LastForm(x, rem) && LastForm(y, rem) && IsLogic(Or, x, y, g)
    ensures NoBits(g, rem) ==> g == 0
    ensures FullBits(g, rem) && g != ALL_ONES <==> TogetherFull(x, y, rem)
  {
    FormBits(x, rem);
    FormBits(y, rem);
    if NoBits(g, rem) {
      assert !Bit(g, 0) && NoBits(x, rem) && NoBits(y, rem);
      NoBitsIsZero(g);
    }
    if x == ALL_ONES || y == ALL_ONES {
      FullIsOnes(g);
      assert Mask(rem) < ALL_ONES by { PowMonotone(rem, 30); GroupPow(); }
    } else {
      assert !Bit(g, 30);
      assert g != ALL_ONES by { OnesBits(GROUP); }
      if FullBits(g, rem) {
        forall i: nat | i < rem ensures Bit(x, i) || Bit(y, i) { assert Bit(g, i); }
        assert NoBits(x, rem) ==> FullBits(y, rem);
        assert NoBits(y, rem) ==> FullBits(x, rem);
        assert x != 0 && y != 0;
      }
    }
  }

  /** OR loses a group exactly when two literals together fill the last partial group and the
      group before it has its top bit set without being full. */
  lemma OrLoses(a: seq<nat>, b: seq<nat>, c: seq<nat>, rem: nat)
    requires 0 < rem < GROUP && |a| == |b| >= 2 && c == Combine(Or, a, b)
    requires LastForm(a[|a| - 1], rem) && LastForm(b[|b| - 1], rem)
    ensures LosesGroup(c, rem) <==>
            TogetherFull(a[|a| - 1], b[|b| - 1], rem) && ONES <= c[|c| - 2] < ALL_ONES
  {
    assert IsLogic(Or, a[|a| - 1], b[|b| - 1], c[|c| - 1]) by {
      LogicIs(Or, a[|a| - 1], b[|b| - 1]);
      CombineAt(Or, a, b, |a|, |a| - 1);
    }
    LastOrLoses(a[|a| - 1], b[|b| - 1], c, rem);
  }

  lemma LastOrLoses(x: nat, y: nat, c: seq<nat>, rem: nat)
    requires 0 < rem < GROUP && |c| >= 2
    requires LastForm(x, rem) && LastForm(y, rem) && IsLogic(Or, x, y, c[|c| - 1])
    ensures LosesGroup(c, rem) <==> TogetherFull(x, y, rem) && ONES <= c[|c| - 2] < ALL_ONES
  {
    var g := c[|c| - 1];
    OrForm(x, y, g, rem);
    KeptUniform(g, rem);
    assert g <= ALL_ONES by { GroupPow(); }
    if g == 0 { FullEmpty(g, rem); }
  }

  lemma FullEmpty(g: nat, rem: nat)
    requires g == 0 && rem > 0
    ensures !FullBits(g, rem)
  {
    assert !Bit(g, 0);
  }
}
