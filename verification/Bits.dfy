/** Bit-level reading of non-negative integers: the shifts, masks and word-wide
    logical operators of the source, each tied to the single bits of its result. */
module Bits {

  /** 1 << n */
  function Pow2(n: nat): (r: nat)
    ensures 1 <= r
  {
    if n == 0 then 1 else 2 * Pow2(n - 1)
  }

  /** Bit i of w: (w >> i) & 1 */
  predicate Bit(w: nat, i: nat) {
    if i == 0 then w % 2 == 1 else Bit(w / 2, i - 1)
  }

  /** The logical operators: a & b, a | b and a & ~b. */
  datatype Op = And | Or | Reset {
    predicate Of(a: bool, b: bool) {
      match this
      case And => a && b
      case Or => a || b
      case Reset => a && !b
    }
  }

  function ToInt(b: bool): (r: nat) {
    if b then 1 else 0
  }

  /** The operator applied to the n low-order bits of two words. */
  function Logic(op: Op, a: nat, b: nat, n: nat): (r: nat)
    ensures r < Pow2(n)
  {
    if n == 0 then 0
    else Logic(op, a, b, n - 1) + if op.Of(Bit(a, n - 1), Bit(b, n - 1)) then Pow2(n - 1) else 0
  }

  /** (1 << n) - 1 */
  function Mask(n: nat): nat {
    Pow2(n) - 1
  }

  /** Number of set bits. */
  function Ones(w: nat): nat {
    if w == 0 then 0 else Ones(w / 2) + w % 2
  }

  /** Number of indices i < n with bit i set: the reference for Ones. */
  function CountBits(w: nat, n: nat): nat {
    if n == 0 then 0 else CountBits(w, n - 1) + ToInt(Bit(w, n - 1))
  }

  lemma {:induction false} LogicBit(op: Op, a: nat, b: nat, n: nat, i: nat)
    requires i < n
    ensures Bit(Logic(op, a, b, n), i) == op.Of(Bit(a, i), Bit(b, i))
  {
    var low := Logic(op, a, b, n - 1);
    TopBit(low, n - 1, i);
    if i < n - 1 {
      LogicBit(op, a, b, n - 1, i);
    }
  }

  /** Adding the power above an n-bit word sets bit n and leaves the lower ones. */
  lemma {:induction false} TopBit(w: nat, n: nat, i: nat)
    requires w < Pow2(n) && i <= n
    ensures Bit(w + Pow2(n), i) == if i == n then true else Bit(w, i)
    ensures i == n ==> !Bit(w, i)
  {
    if n > 0 && i > 0 {
      TopBit(w / 2, n - 1, i - 1);
      assert (w + Pow2(n)) / 2 == w / 2 + Pow2(n - 1);
    }
  }

  lemma {:induction false} MaskBit(n: nat, i: nat)
    ensures Bit(Mask(n), i) <==> i < n
  {
    if n == 0 {
      ZeroBit(i);
    } else if i > 0 {
      assert Mask(n) / 2 == Mask(n - 1);
      MaskBit(n - 1, i - 1);
    }
  }

  lemma {:induction false} ZeroBit(i: nat)
    ensures !Bit(0, i)
  {
    if i > 0 { ZeroBit(i - 1); }
  }

  lemma {:induction false} PowBit(n: nat, i: nat)
    ensures Bit(Pow2(n), i) <==> i == n
  {
    if n == 0 {
      if i > 0 { ZeroBit(i - 1); }
    } else if i > 0 {
      PowBit(n - 1, i - 1);
    }
  }

  lemma {:induction false} HighBit(w: nat, n: nat, i: nat)
    requires w < Pow2(n) && n <= i
    ensures !Bit(w, i)
  {
    if n == 0 { ZeroBit(i); } else { HighBit(w / 2, n - 1, i - 1); }
  }

  ghost predicate SameBits(a: nat, b: nat, n: nat) {
    forall i: nat :: i < n ==> Bit(a, i) == Bit(b, i)
  }

  /** n-bit words with the same bits are the same word. */
  lemma {:induction false} BitsDetermine(a: nat, b: nat, n: nat)
    requires a < Pow2(n) && b < Pow2(n)
    requires SameBits(a, b, n)
    ensures a == b
  {
    if n > 0 {
      forall i: nat | i < n - 1 ensures Bit(a / 2, i) == Bit(b / 2, i) {
        assert Bit(a, i + 1) == Bit(b, i + 1);
      }
      BitsDetermine(a / 2, b / 2, n - 1);
      assert Bit(a, 0) == Bit(b, 0);
    }
  }

  lemma {:induction false} PowMonotone(m: nat, n: nat)
    requires m <= n
    ensures Pow2(m) <= Pow2(n)
  {
    if m < n { PowMonotone(m, n - 1); }
  }

  lemma {:induction false} CountShift(w: nat, n: nat)
    ensures CountBits(w, n + 1) == ToInt(w % 2 == 1) + CountBits(w / 2, n)
  {
    if n > 0 { CountShift(w, n - 1); }
  }

  /** The population count of an n-bit word counts its set bits. */
  lemma {:induction false} OnesCounts(w: nat, n: nat)
    requires w < Pow2(n)
    ensures Ones(w) == CountBits(w, n)
  {
    if n > 0 {
      OnesCounts(w / 2, n - 1);
      CountShift(w, n - 1);
    }
  }

  lemma {:induction false} CountSame(a: nat, b: nat, n: nat)
    requires SameBits(a, b, n)
    ensures CountBits(a, n) == CountBits(b, n)
  {
    if n > 0 { CountSame(a, b, n - 1); }
  }
}
