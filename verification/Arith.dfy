/** Products and quotients of variables, kept away from the other proofs, and 32-bit words. */
module Arith {

  lemma MulLe(a: int, b: int, step: int)
    requires step > 0
    ensures a <= b ==> a * step <= b * step
  {}

  lemma DivUnique(x: int, step: int, k: int)
    requires step > 0
    ensures x / step == k <==> k * step <= x < k * step + step
  {
    var q := x / step;
    assert x == q * step + x % step;
    MulLe(q + 1, k, step);
    MulLe(k + 1, q, step);
  }

  lemma ModAdd(a: int, step: int, k: int)
    requires step > 0
    ensures (a + k * step) % step == a % step
  {
    var q, r := a / step, a % step;
    assert a + k * step == (q + k) * step + r;
    DivUnique(a + k * step, step, q + k);
  }

  lemma Commute(a: int, b: int)
    ensures a * b == b * a
  {}

  lemma DivBelow(a: nat, n: nat)
    requires n >= 1
    ensures 0 <= a / n <= a
  {
    DivUnique(a, n, a / n);
    MulLe(0, a / n, n);
  }

  /** Arithmetic on 32-bit words. */
  function Mod32(x: int): (r: nat)
    ensures r < 0x1_0000_0000
  {
    x % 0x1_0000_0000
  }

  lemma SmallMod(x: nat)
    requires x < 0x1_0000_0000
    ensures Mod32(x) == x
  {}

  lemma ModBelow(x: int)
    requires -0x1_0000_0000 <= x < 0
    ensures Mod32(x) == x + 0x1_0000_0000
  {}

  lemma ModMinus(x: int, k: nat)
    ensures Mod32(x - 0x1_0000_0000 * k) == Mod32(x)
  {
    ModAdd(x, 0x1_0000_0000, 0 - k);
  }

  // ---- the same by repeated addition, which keeps products and quotients out of other proofs ----

  /** k * step */
  function Times(k: int, step: int): int
    decreases if k < 0 then -k else k
  {
    if k == 0 then 0 else if k > 0 then Times(k - 1, step) + step else Times(k + 1, step) - step
  }

  /** x / step, rounded down. */
  function Quot(x: int, step: int): int
    requires step > 0
    decreases if x < 0 then step - x else x
  {
    if x < 0 then Quot(x + step, step) - 1 else if x < step then 0 else Quot(x - step, step) + 1
  }

  lemma {:induction false} TimesIs(k: int, step: int)
    ensures Times(k, step) == k * step
    decreases if k < 0 then -k else k
  {
    if k > 0 { TimesIs(k - 1, step); } else if k < 0 { TimesIs(k + 1, step); }
  }

  lemma TimesNext(k: int, step: int)
    ensures Times(k + 1, step) == Times(k, step) + step
  {}

  lemma {:induction false} TimesAdd(a: int, b: int, step: int)
    ensures Times(a + b, step) == Times(a, step) + Times(b, step)
    decreases if b < 0 then -b else b
  {
    if b > 0 {
      TimesAdd(a, b - 1, step);
      TimesNext(a + b - 1, step);
    } else if b < 0 {
      TimesAdd(a, b + 1, step);
      TimesNext(a + b, step);
    }
  }

  lemma {:induction false} TimesLess(a: int, b: int, step: int)
    requires step > 0 && a < b
    ensures Times(a, step) + step <= Times(b, step)
    decreases b - a
  {
    TimesNext(b - 1, step);
    if a < b - 1 { TimesLess(a, b - 1, step); }
  }

  /** Products distribute and associate. */
  lemma {:induction false} TimesSpread(k: nat, a: int, b: int)
    ensures Times(k, a + b) == Times(k, a) + Times(k, b)
  {
    if k > 0 { TimesSpread(k - 1, a, b); }
  }

  lemma {:induction false} TimesTimes(k: nat, p: int, b: int)
    ensures Times(k, Times(p, b)) == Times(Times(k, p), b)
  {
    if k > 0 {
      TimesTimes(k - 1, p, b);
      TimesAdd(Times(k - 1, p), p, b);
    }
  }

  lemma {:induction false} TimesPositive(k: nat, step: int)
    requires step >= 0
    ensures Times(k, step) >= 0
  {
    if k > 0 { TimesPositive(k - 1, step); }
  }

  /** The quotient is the one k with x in the k-th step. */
  lemma {:induction false} QuotBounds(x: int, step: int)
    requires step > 0
    ensures Times(Quot(x, step), step) <= x < Times(Quot(x, step), step) + step
    decreases if x < 0 then step - x else x
  {
    if x < 0 {
      QuotBounds(x + step, step);
      TimesNext(Quot(x, step), step);
    } else if x >= step {
      QuotBounds(x - step, step);
      TimesNext(Quot(x - step, step), step);
    }
  }

  lemma QuotUnique(x: int, step: int, k: int)
    requires step > 0
    ensures Quot(x, step) == k <==> Times(k, step) <= x < Times(k, step) + step
  {
    var q := Quot(x, step);
    QuotBounds(x, step);
    if q < k { TimesLess(q, k, step); }
    if k < q { TimesLess(k, q, step); }
  }

  lemma QuotIs(x: int, step: int)
    requires step > 0
    ensures Quot(x, step) == x / step
  {
    QuotBounds(x, step);
    TimesIs(Quot(x, step), step);
    DivUnique(x, step, Quot(x, step));
  }
}
