/** Fletcher's checksum on 16-bit words: two 32-bit sums, folded every 180 words, and packed in the end. */
module Fletcher {
  import opened Arith
  import opened Bits
  import opened Shifts

  type Byte = b: int | 0 <= b < 0x100
  type Word16 = w: int | 0 <= w < 0x1_0000

  /** The exact sum of the words. */
  function Sum(ws: seq<Word16>): nat {
    if ws == [] then 0 else Sum(ws[..|ws| - 1]) + ws[|ws| - 1]
  }

  /** The exact sum of the sums of all prefixes. */
  function PrefixSums(ws: seq<Word16>): nat {
    if ws == [] then 0 else PrefixSums(ws[..|ws| - 1]) + Sum(ws)
  }

  /** Equal modulo 65535. */
  predicate Congruent(a: int, b: int) { a % 0xFFFF == b % 0xFFFF }

  lemma CongruentAdd(a: int, b: int, c: int, d: int)
    requires Congruent(a, b) && Congruent(c, d)
    ensures Congruent(a + c, b + d)
  {
    var p, q := a / 0xFFFF - b / 0xFFFF, c / 0xFFFF - d / 0xFFFF;
    assert a + c == b + d + (p + q) * 0xFFFF;
    ModAdd(b + d, 0xFFFF, p + q);
  }

  /** The low half plus the high half. */
  function Folded(x: nat): (r: nat)
    ensures Congruent(r, x)
  {
    FoldCongruent(x);
    x % 0x1_0000 + x / 0x1_0000
  }

  lemma FoldCongruent(x: nat)
    ensures Congruent(x % 0x1_0000 + x / 0x1_0000, x)
  {
    var lo, hi := x % 0x1_0000, x / 0x1_0000;
    assert x == (lo + hi) + hi * 0xFFFF;
    ModAdd(lo + hi, 0xFFFF, hi);
  }

  /** Bounds of the sums k words after a fold. */
  function Bound1(k: nat): nat { 65716 + 65535 * k }

  function Bound2(k: nat): nat { 131070 + 11862016 * k }

  /** Between folds the sums stay far below 32 bits, and a fold brings them back. */
  lemma Bounds(k: nat, s1: nat, s2: nat, w: Word16)
    requires k < 180 && s1 <= Bound1(k) && s2 <= Bound2(k)
    ensures s1 + w <= Bound1(k + 1) && s2 + s1 + w <= Bound2(k + 1)
    ensures Bound1(180) < 0x1_0000_0000 && Bound2(180) < 0x1_0000_0000
    ensures Bound1(k + 1) <= Bound1(180) && Bound2(k + 1) <= Bound2(180)
  {}

  lemma FoldBounds(s1: nat, s2: nat)
    requires s1 <= Bound1(180) && s2 <= Bound2(180)
    ensures Folded(s1) <= Bound1(0) && Folded(s2) <= Bound2(0)
  {}

  lemma SumsMore(ws: seq<Word16>, w: Word16, s1: nat, s2: nat)
    requires Congruent(s1, Sum(ws)) && Congruent(s2, PrefixSums(ws))
    ensures Congruent(s1 + w, Sum(ws + [w])) && Congruent(s2 + (s1 + w), PrefixSums(ws + [w]))
  {
    assert (ws + [w])[..|ws|] == ws;
    CongruentAdd(s1, Sum(ws), w, w);
    CongruentAdd(s2, PrefixSums(ws), s1 + w, Sum(ws + [w]));
  }

  /** Folding changes neither sum modulo 65535. */
  lemma FoldSame(ws: seq<Word16>, s1: nat, s2: nat)
    requires Congruent(s1, Sum(ws)) && Congruent(s2, PrefixSums(ws))
    ensures Congruent(Folded(s1), Sum(ws)) && Congruent(Folded(s2), PrefixSums(ws))
  {}

  // ---- bytes ----

  /** Two bytes of memory as a word of the machine. */
  function Pair(big: bool, x: Byte, y: Byte): Word16 { if big then x * 0x100 + y else x + y * 0x100 }

  /** The words that a stream of bytes is taken for, from byte i on, y being the second byte of the word before:
      an odd byte at the end is taken with it. */
  function Words(big: bool, bs: seq<Byte>, i: nat, y: Byte): seq<Word16>
    requires i <= |bs|
    decreases |bs| - i
  {
    if i == |bs| then [] else if i + 1 == |bs| then [Pair(big, bs[i], y)]
    else [Pair(big, bs[i], bs[i + 1])] + Words(big, bs, i + 2, bs[i + 1])
  }

  /** The second byte of the last whole word among the first i bytes. */
  function StaleAt(bs: seq<Byte>, i: nat, y: Byte): Byte
    requires i <= |bs|
  {
    if i < 2 then y else bs[i - 1 - i % 2]
  }

  function Stale(bs: seq<Byte>, y: Byte): Byte { StaleAt(bs, |bs|, y) }

  /** Before byte i of a stream that started after second byte y0: the words done and those from i on are all
      the words, and y is the second byte of the last whole one. */
  predicate Left(big: bool, bs: seq<Byte>, i: nat, y0: Byte, y: Byte, done: seq<Word16>, all: seq<Word16>) {
    i <= |bs| && (i < |bs| ==> i % 2 == 0) && y == StaleAt(bs, i, y0) && all == done + Words(big, bs, i, y)
  }

  lemma LeftStep(big: bool, bs: seq<Byte>, i: nat, y0: Byte, y: Byte, done: seq<Word16>, all: seq<Word16>)
    requires Left(big, bs, i, y0, y, done, all) && i < |bs|
    ensures i + 1 == |bs| ==> Left(big, bs, i + 1, y0, y, done + [Pair(big, bs[i], y)], all)
    ensures i + 1 < |bs| ==> Left(big, bs, i + 2, y0, bs[i + 1], done + [Pair(big, bs[i], bs[i + 1])], all)
  {}

  lemma LeftEnd(big: bool, bs: seq<Byte>, i: nat, y0: Byte, y: Byte, done: seq<Word16>, all: seq<Word16>)
    requires Left(big, bs, i, y0, y, done, all) && i >= |bs|
    ensures done == all && y == Stale(bs, y0)
  {
    assert done + [] == done;
  }

  /** The words of the stream padded with a zero byte. */
  function Padded(bs: seq<Byte>): seq<Byte> { if |bs| % 2 == 1 then bs + [0] else bs }

  lemma {:induction false} WordsAgree(big: bool, bs: seq<Byte>, i: nat, y: Byte)
    requires i <= |bs| && i % 2 == 0 && |bs| % 2 == 1 && (i > 0 ==> y == bs[i - 1])
    ensures Words(big, bs, i, y) == Words(big, Padded(bs), i, y) <==> (if i + 1 == |bs| then y else Stale(bs, y)) == 0
    decreases |bs| - i
  {
    var z := Padded(bs);
    assert forall k :: 0 <= k < |bs| ==> z[k] == bs[k];
    if i + 1 == |bs| {
      assert Words(big, z, i + 2, z[i + 1]) == [];
      assert Words(big, bs, i, y)[0] == Pair(big, bs[i], y) && Words(big, z, i, y)[0] == Pair(big, bs[i], 0);
    } else {
      WordsAgree(big, bs, i + 2, bs[i + 1]);
      var s, t := Words(big, bs, i + 2, bs[i + 1]), Words(big, z, i + 2, bs[i + 1]);
      assert Words(big, bs, i, y)[1..] == s && Words(big, z, i, y)[1..] == t;
    }
  }

  /** The stream is summed as if padded with a zero byte exactly when its length is even or the byte left over from
      the word before the last is 0. */
  lemma PaddedWords(big: bool, bs: seq<Byte>, y: Byte)
    ensures Words(big, bs, 0, y) == Words(big, Padded(bs), 0, y) <==> |bs| % 2 == 0 || Stale(bs, y) == 0
  {
    if |bs| % 2 == 1 { WordsAgree(big, bs, 0, y); }
  }

  // ---- the sums packed ----

  /** One bit of a << n | y, for a word x of n bits and the bits c above it that make y. */
  lemma PackedBit(a: nat, x: nat, c: nat, n: nat, o: nat, i: nat)
    requires x < Pow2(n) && o == Logic(Or, a, c, n) && i < 2 * n
    ensures Bit(x + Shifted(o, n), i) == (Bit(Shifted(a, n), i) || Bit(x + Shifted(c, n), i))
  {
    ShiftBit(0, a, n, i);
    ShiftBit(x, c, n, i);
    ShiftBit(x, o, n, i);
    if i < n { ZeroBit(i); } else { LogicBit(Or, a, c, n, i - n); }
  }

  /** Those bits are merged into the upper half. */
  lemma PackedBits(a: nat, x: nat, c: nat, n: nat, w: nat)
    requires x < Pow2(n) && w == 2 * n
    ensures Logic(Or, Shifted(a, n), x + Shifted(c, n), w) == x + Shifted(Logic(Or, a, c, n), n)
  {
    var y, o := x + Shifted(c, n), Logic(Or, a, c, n);
    var r, z := Logic(Or, Shifted(a, n), y, w), x + Shifted(o, n);
    ShiftFits(x, o, n, n);
    forall i: nat | i < w ensures Bit(r, i) == Bit(z, i) {
      LogicBit(Or, Shifted(a, n), y, w, i);
      PackedBit(a, x, c, n, o, i);
    }
    BitsDetermine(r, z, w);
  }

  lemma Shift4(x: nat)
    ensures Shifted(x, 4) == 16 * x
  {
    assert Shifted(x, 1) == 2 * Shifted(x, 0);
    assert Shifted(x, 2) == 2 * Shifted(x, 1);
    assert Shifted(x, 3) == 2 * Shifted(x, 2);
  }

  lemma Shift16(x: nat)
    ensures Shifted(x, 16) == 0x1_0000 * x && Pow2(16) == 0x1_0000
  {
    ShiftedAdd(x, 4, 4);
    Shift4(x);
    Shift4(Shifted(x, 4));
    ShiftedAdd(x, 8, 4);
    Shift4(Shifted(x, 8));
    ShiftedAdd(x, 12, 4);
    Shift4(Shifted(x, 12));
    assert Pow2(8) == 0x100;
  }

  /** The upper sum shifted by 16 in a word of 32 bits, or-ed with the lower one. */
  function Packed(s1: nat, s2: nat): nat { Logic(Or, Mod32(s2 * 0x1_0000), s1, 32) }

  /** With the lower sum below 2 to the power 16 the halves are the sums, but for what is shifted out. */
  lemma PackedFits(s1: nat, s2: nat)
    requires s1 < 0x1_0000
    ensures Packed(s1, s2) == s2 % 0x1_0000 * 0x1_0000 + s1
  {
    var a := s2 % 0x1_0000;
    Shift16(a);
    UpperCut(s2);
    LowHalf(a, s1, 0, 16, 32, Logic(Or, a, 0, 16));
    OrZero(a, 16);
  }

  lemma OrZero(a: nat, n: nat)
    requires a < Pow2(n)
    ensures Logic(Or, a, 0, n) == a
  {
    forall i: nat | i < n ensures Bit(Logic(Or, a, 0, n), i) == Bit(a, i) {
      LogicBit(Or, a, 0, n, i);
      ZeroBit(i);
    }
    BitsDetermine(Logic(Or, a, 0, n), a, n);
  }

  /** The lower half is that of the lower sum. */
  lemma PackedLow(s1: nat, s2: nat)
    ensures Packed(s1, s2) % 0x1_0000 == s1 % 0x1_0000
  {
    var c, x := s1 / 0x1_0000, s1 % 0x1_0000;
    UpperCut(s2);
    var o := HalvesMerged(s2 % 0x1_0000, x, c);
    ModAdd(x, 0x1_0000, o);
  }

  lemma HalvesMerged(a: nat, x: nat, c: nat) returns (o: nat)
    requires x < 0x1_0000
    ensures Logic(Or, a * 0x1_0000, x + c * 0x1_0000, 32) == x + o * 0x1_0000
  {
    o := Logic(Or, a, c, 16);
    LowHalf(a, x, c, 16, 32, o);
  }

  lemma LowHalf(a: nat, x: nat, c: nat, n: nat, w: nat, o: nat)
    requires n == 16 && w == 32 && x < 0x1_0000 && o == Logic(Or, a, c, n)
    ensures Logic(Or, a * 0x1_0000, x + c * 0x1_0000, w) == x + o * 0x1_0000
  {
    Shift16(a);
    Shift16(c);
    Shift16(o);
    PackedBits(a, x, c, n, w);
  }

  /** A number below 2 to the power 17 that loses bit 16 is another number modulo 65535. */
  lemma BitLost(x: nat)
    requires x < 0x2_0000
    ensures Congruent(x % 0x1_0000, x) <==> x < 0x1_0000
  {}

  lemma CongruentTo(x: int, y: int, z: int)
    requires Congruent(y, z)
    ensures Congruent(x, z) <==> Congruent(x, y)
  {}

  predicate HoldsSums(r: nat, ws: seq<Word16>) {
    Congruent(r % 0x1_0000, Sum(ws)) && Congruent(r / 0x1_0000, PrefixSums(ws))
  }

  /** Both halves of the checksum are the sums of the words modulo 65535 exactly when neither folded sum has a bit 16. */
  lemma PackedExact(s1: nat, s2: nat, ws: seq<Word16>)
    requires Congruent(s1, Sum(ws)) && Congruent(s2, PrefixSums(ws)) && s1 < 0x2_0000 && s2 < 0x2_0000
    ensures HoldsSums(Packed(s1, s2), ws) <==> s1 < 0x1_0000 && s2 < 0x1_0000
  {
    var r := Packed(s1, s2);
    PackedLow(s1, s2);
    BitLost(s1);
    CongruentTo(s1 % 0x1_0000, s1, Sum(ws));
    if s1 < 0x1_0000 {
      PackedFits(s1, s2);
      DivUnique(r, 0x1_0000, s2 % 0x1_0000);
      BitLost(s2);
      CongruentTo(s2 % 0x1_0000, s2, PrefixSums(ws));
    }
  }

  /** Shifting by 16 drops the upper half. */
  lemma UpperCut(s2: nat)
    ensures Mod32(s2 * 0x1_0000) == s2 % 0x1_0000 * 0x1_0000
  {
    var q := s2 / 0x1_0000;
    assert s2 * 0x1_0000 == q * 0x1_0000_0000 + s2 % 0x1_0000 * 0x1_0000;
    DivUnique(s2 * 0x1_0000, 0x1_0000_0000, q);
  }

  // ---- the checksum ----

  /** The words since the last fold, after one more. */
  function NextFold(k: nat): nat { if k == 179 then 0 else k + 1 }

  class Checksum {
    var sum1: nat
    var sum2: nat
    var len: nat
    /** The bytes of a word, which stay there after it is added; the order of the machine. */
    var half0: Byte
    var half1: Byte
    const big: bool

    /** The sums stand for the words ws, the last k of them since the last fold. */
    ghost predicate Stands(ws: seq<Word16>, k: nat)
      reads this
    {
      && k < 180 && len == 2 * k && 0 < sum1 <= Bound1(k) && 0 < sum2 <= Bound2(k)
      && Congruent(sum1, Sum(ws)) && Congruent(sum2, PrefixSums(ws))
    }

    /** The code leaves the bytes of the first word undefined. */
    constructor (big: bool, x: Byte, y: Byte)
      ensures Stands([], 0) && sum1 == sum2 == 0xFFFF && this.big == big && half0 == x && half1 == y
    {
      sum1, sum2, len := 0xFFFF, 0xFFFF, 0;
      half0, half1, this.big := x, y, big;
    }

    method Shuffle()
      modifies `sum1, `sum2, `len
      ensures sum1 == Folded(old(sum1)) && sum2 == Folded(old(sum2)) && len == 0
    {
      sum1 := sum1 % 0x1_0000 + sum1 / 0x1_0000;
      sum2 := sum2 % 0x1_0000 + sum2 / 0x1_0000;
      len := 0;
    }

    /** Adds the word in the two bytes. Neither sum overflows. */
    method Add(ghost ws: seq<Word16>, ghost k: nat)
      requires Stands(ws, k)
      modifies `sum1, `sum2, `len
      ensures var w := Pair(big, half0, half1);
              && old(sum1) + w < 0x1_0000_0000 && old(sum2) + old(sum1) + w < 0x1_0000_0000
              && Stands(ws + [w], NextFold(k))
              && (k < 179 ==> sum1 == old(sum1) + w && sum2 == old(sum2) + old(sum1) + w)
    {
      var w := Pair(big, half0, half1);
      Bounds(k, sum1, sum2, w);
      SumsMore(ws, w, sum1, sum2);
      SmallMod(sum1 + w);
      SmallMod(sum2 + (sum1 + w));
      FoldSame(ws + [w], sum1 + w, sum2 + (sum1 + w));
      sum1 := Mod32(sum1 + w);
      sum2 := Mod32(sum2 + sum1);
      len := len + 2;
      if len == 360 {
        FoldBounds(sum1, sum2);
        Shuffle();
      }
    }

    /** Reads one or two bytes and adds their word. */
    method AddNext(bs: seq<Byte>, i: nat, ghost y0: Byte, ghost done: seq<Word16>, ghost k: nat, ghost all: seq<Word16>)
      returns (j: nat, ghost w: Word16)
      requires Stands(done, k) && i < |bs| && Left(big, bs, i, y0, half1, done, all)
      modifies this
      ensures Stands(done + [w], NextFold(k)) && i < j <= |bs| && Left(big, bs, j, y0, half1, done + [w], all)
    {
      LeftStep(big, bs, i, y0, half1, done, all);
      j := i + 1;
      half0 := bs[i];
      if i + 1 < |bs| {
        half1 := bs[i + 1];
        j := i + 2;
      }
      w := Pair(big, half0, half1);
      Add(done, k);
    }

    /** Adds the words of a stream of bytes; an odd one at the end makes a word with the second byte of the word
        before. Several streams may be added one after the other. */
    method Put(bs: seq<Byte>, ghost ws: seq<Word16>, ghost k0: nat) returns (ghost k: nat)
      requires Stands(ws, k0)
      modifies this
      ensures Stands(ws + Words(big, bs, 0, old(half1)), k) && half1 == Stale(bs, old(half1))
    {
      var i := 0;
      k := k0;
      ghost var done, all, y := ws, ws + Words(big, bs, 0, half1), half1;
      while i < |bs|
        invariant Stands(done, k) && i <= |bs| && Left(big, bs, i, y, half1, done, all)
      {
        ghost var w;
        i, w := AddNext(bs, i, y, done, k, all);
        done, k := done + [w], NextFold(k);
      }
      LeftEnd(big, bs, i, y, half1, done, all);
    }

    /** The checksum: both sums of the words modulo 65535, exactly when each sum fits in 16 bits after a fold. */
    method Total(ghost ws: seq<Word16>, ghost k: nat) returns (r: nat)
      requires Stands(ws, k)
      modifies `sum1, `sum2, `len
      ensures sum1 == Folded(old(sum1)) && sum2 == Folded(old(sum2)) && r == Packed(sum1, sum2) && Stands(ws, 0)
      ensures HoldsSums(r, ws) <==> Folded(old(sum1)) < 0x1_0000 && Folded(old(sum2)) < 0x1_0000
    {
      Bounds(k, sum1, sum2, 0);
      FoldBounds(sum1, sum2);
      FoldSame(ws, sum1, sum2);
      Shuffle();
      r := Packed(sum1, sum2);
      PackedExact(sum1, sum2, ws);
    }
  }

  /** The checksum of the words 0xFFFF and 1 has a lower half of 0, although their sum is 1 modulo 65535. */
  method LostHalf() returns (r: nat)
    ensures r % 0x1_0000 == 0 && Sum([0xFFFF, 1]) % 0xFFFF == 1
  {
    var c := new Checksum(false, 0xFF, 0xFF);
    ghost var w, v := Pair(false, 0xFF, 0xFF), Pair(false, 1, 0);
    ghost var none: seq<Word16> := [];
    c.Add(none, 0);
    c.half0, c.half1 := 1, 0;
    c.Add(none + [w], 1);
    r := c.Total(none + [w] + [v], 2);
    PackedLow(c.sum1, c.sum2);
    SumOfTwo(0xFFFF, 1);
  }

  lemma SumOfTwo(a: Word16, b: Word16)
    ensures Sum([a, b]) == a + b
  {
    var one, two: seq<Word16> := [a], [a, b];
    assert two[..1] == one && one[..0] == [];
    assert Sum(one) == Sum([]) + a;
  }
}
