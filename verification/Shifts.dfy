/** Words shifted to the left. */
module Shifts {
  import opened Bits

  /** x << n, without limit. */
  function Shifted(x: nat, n: nat): nat { if n == 0 then x else 2 * Shifted(x, n - 1) }

  lemma {:induction false} ShiftBit(a: nat, x: nat, n: nat, i: nat)
    requires a < Pow2(n)
    ensures Bit(a + Shifted(x, n), i) == if i < n then Bit(a, i) else Bit(x, i - n)
  {
    if n > 0 {
      var p := Shifted(x, n - 1);
      assert (a + 2 * p) / 2 == a / 2 + p && (a + 2 * p) % 2 == a % 2;
      if i > 0 { ShiftBit(a / 2, x, n - 1, i - 1); }
    }
  }

  lemma {:induction false} ShiftFits(a: nat, x: nat, n: nat, m: nat)
    requires a < Pow2(n) && x < Pow2(m)
    ensures a + Shifted(x, n) < Pow2(n + m)
  {
    if n > 0 { ShiftFits(a / 2, x, n - 1, m); }
  }

  lemma {:induction false} ShiftedAdd(x: nat, m: nat, n: nat)
    ensures Shifted(x, m + n) == Shifted(Shifted(x, m), n)
  {
    if n > 0 {
      ShiftedAdd(x, m, n - 1);
      assert m + n - 1 == m + (n - 1);
    }
  }
}
