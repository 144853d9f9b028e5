/** Variable-length integers as in section 7.6 of DWARF 4: seven bits a byte, low ones first, the top
    bit of a byte telling that more follow. */
module Leb128 {
  import opened Bits
  import opened Shifts
  import opened Arith
  import opened Options

  type Byte = b: int | 0 <= b < 256

  const WORD: nat := 32
  const LAST: nat := 28

  predicate More(b: Byte) { b >= 128 }

  /** What a sequence of bytes stands for, sign aside. */
  function Value(bs: seq<Byte>): (v: nat) {
    if bs == [] then 0 else bs[0] % 128 + 128 * Value(bs[1..])
  }

  /** The value of a signed integer: bit 6 of the last byte is the sign. */
  function SignedValue(bs: seq<Byte>): int
    requires bs != []
  {
    Value(bs) - if bs[|bs| - 1] % 128 >= 64 then Pow2(7 * |bs|) else 0
  }

  /** One integer: only the last byte has a clear top bit. */
  predicate Encoding(bs: seq<Byte>) {
    bs != [] && !More(bs[|bs| - 1]) && forall i :: 0 <= i < |bs| - 1 ==> More(bs[i])
  }

  /** Where the integer that starts at pos ends, if it does. */
  function End(bs: seq<Byte>, pos: nat): (r: Option<int>)
    ensures r.Some? ==> pos < r.value <= |bs|
    decreases |bs| - pos
  {
    if pos >= |bs| then None else if !More(bs[pos]) then Some(pos + 1) else End(bs, pos + 1)
  }

  lemma {:induction false} EndIs(bs: seq<Byte>, pos: nat)
    requires pos <= |bs|
    ensures End(bs, pos).None? <==> forall i :: pos <= i < |bs| ==> More(bs[i])
    ensures End(bs, pos).Some? ==> Encoding(bs[pos..End(bs, pos).value])
    decreases |bs| - pos
  {
    if pos < |bs| && More(bs[pos]) {
      EndIs(bs, pos + 1);
      if End(bs, pos).Some? {
        var e := End(bs, pos).value;
        assert forall i :: pos + 1 <= i < e ==> bs[pos + 1..e][i - pos - 1] == bs[i] == bs[pos..e][i - pos];
      }
    }
  }

  /** An integer found at pos ends where it should, whatever follows. */
  lemma {:induction false} EndOf(bs: seq<Byte>, pos: nat, e: nat)
    requires pos < e <= |bs| && Encoding(bs[pos..e])
    ensures End(bs, pos) == Some(e)
    decreases e - pos
  {
    assert bs[pos] == bs[pos..e][0] && bs[e - 1] == bs[pos..e][e - 1 - pos];
    if pos + 1 < e {
      assert bs[pos + 1..e] == bs[pos..e][1..];
      EndOf(bs, pos + 1, e);
    }
  }

  /** A truncated integer has no end. */
  lemma EndCut(bs: seq<Byte>, pos: nat, e: nat)
    requires pos < e && e <= |bs| && Encoding(bs[pos..e])
    ensures forall k :: pos <= k < e ==> End(bs[..k], pos).None?
  {
    forall k | pos <= k < e ensures End(bs[..k], pos).None? {
      assert forall i :: pos <= i < k ==> bs[..k][i] == bs[pos..e][i - pos];
      EndIs(bs[..k], pos);
    }
  }

  // ---- shifts and ors on 32-bit words ----

  function ShiftLeft(x: nat, n: nat): nat { Mod32(Shifted(x, n)) }

  /** o is a | b, bit by bit. */
  ghost predicate IsOr(o: nat, a: nat, b: nat) {
    o < Pow2(WORD) && forall i: nat :: i < WORD ==> Bit(o, i) == (Bit(a, i) || Bit(b, i))
  }

  method OrWord(a: nat, b: nat) returns (o: nat)
    ensures IsOr(o, a, b)
  {
    o := Logic(Or, a, b, WORD);
    forall i: nat | i < WORD ensures Bit(o, i) == (Bit(a, i) || Bit(b, i)) {
      LogicBit(Or, a, b, WORD, i);
    }
  }

  lemma {:induction false} PowShift(n: nat)
    ensures Pow2(n) == Shifted(1, n)
  {
    if n > 0 { PowShift(n - 1); }
  }

  lemma Shift7(x: nat)
    ensures Shifted(x, 7) == 128 * x
  {
    assert Shifted(x, 1) == 2 * Shifted(x, 0);
    assert Shifted(x, 2) == 2 * Shifted(x, 1);
    assert Shifted(x, 3) == 2 * Shifted(x, 2);
    assert Shifted(x, 4) == 2 * Shifted(x, 3);
    assert Shifted(x, 5) == 2 * Shifted(x, 4);
    assert Shifted(x, 6) == 2 * Shifted(x, 5);
  }

  lemma Powers()
    ensures Pow2(LAST) == 0x1000_0000 && Pow2(WORD) == 0x1_0000_0000
  {
    assert Pow2(7) == 0x80;
    PowSeven(7);
    PowSeven(14);
    PowSeven(21);
    assert Pow2(WORD) == 16 * Pow2(LAST);
  }

  lemma OrAddsBit(a: nat, x: nat, n: nat, i: nat)
    requires n <= WORD && a < Pow2(n) && i < WORD
    ensures Bit(a + Shifted(x, n), i) == (Bit(a, i) || Bit(Shifted(x, n), i))
  {
    ShiftBit(a, x, n, i);
    ShiftBit(0, x, n, i);
    if i < n { ZeroBit(i); } else { HighBit(a, n, i); }
  }

  /** Below a word shifted by n, an n-bit word is or-ed as it would be added. */
  lemma OrAdds(o: nat, a: nat, x: nat, n: nat)
    requires n <= WORD && a < Pow2(n) && x < Pow2(WORD - n) && IsOr(o, a, Shifted(x, n))
    ensures o == a + Shifted(x, n) < 0x1_0000_0000
  {
    var c := a + Shifted(x, n);
    ShiftFits(a, x, n, WORD - n);
    Powers();
    forall i: nat | i < WORD ensures Bit(o, i) == Bit(c, i) {
      OrAddsBit(a, x, n, i);
    }
    BitsDetermine(o, c, WORD);
  }

  lemma ShiftLast(g: nat)
    ensures Shifted(g, LAST) == 0x1000_0000 * g
  {
    Shift7(g);
    ShiftedAdd(g, 7, 7);
    Shift7(Shifted(g, 7));
    ShiftedAdd(g, 14, 7);
    Shift7(Shifted(g, 14));
    ShiftedAdd(g, 21, 7);
    Shift7(Shifted(g, 21));
  }

  /** Modulo 2^32, only four bits stay of a group shifted by 28. */
  lemma Cut28(a: nat, g: nat)
    requires a + 0x1000_0000 * (g % 16) < 0x1_0000_0000
    ensures Mod32(a + 0x1000_0000 * g) == a + 0x1000_0000 * (g % 16)
  {
    var q := g / 16;
    assert a + 0x1000_0000 * g == 0x1_0000_0000 * q + (a + 0x1000_0000 * (g % 16));
    DivUnique(a + 0x1000_0000 * g, 0x1_0000_0000, q);
  }

  /** The last of five groups. */
  lemma LastGroup(o: nat, a: nat, g: nat)
    requires a < Pow2(LAST) && g < 128 && IsOr(o, a, ShiftLeft(g, LAST))
    ensures o == Mod32(a + Shifted(g, LAST))
  {
    Powers();
    assert WORD - LAST == 4 && Pow2(4) == 16;
    ShiftLast(g);
    ShiftLast(g % 16);
    Cut28(a, g);
    Cut28(0, g);
    OrAdds(o, a, g % 16, LAST);
  }

  /** One more group of seven bits at place n of the result. */
  lemma OrGroup(o: nat, a: nat, g: nat, n: nat)
    requires (n <= 21 || n == LAST) && a < Pow2(n) && g < 128 && IsOr(o, a, ShiftLeft(g, n))
    ensures o == Mod32(a + Shifted(g, n))
  {
    if n == LAST {
      LastGroup(o, a, g);
    } else {
      PowMonotone(7, WORD - n);
      assert Pow2(7) == 128;
      ShiftFits(a, g, n, 7);
      PowMonotone(n + 7, WORD);
      Powers();
      SmallMod(Shifted(g, n));
      OrAdds(o, a, g, n);
      SmallMod(a + Shifted(g, n));
    }
  }

  // ---- decoding ----

  lemma {:induction false} ValueAppend(bs: seq<Byte>, b: Byte)
    ensures Value(bs + [b]) == Value(bs) + Shifted(b % 128, 7 * |bs|)
  {
    if bs == [] {
      assert (bs + [b])[1..] == [];
    } else {
      assert (bs + [b])[1..] == bs[1..] + [b];
      ValueAppend(bs[1..], b);
      ShiftedAdd(b % 128, 7 * |bs[1..]|, 7);
      Shift7(Shifted(b % 128, 7 * |bs[1..]|));
    }
  }

  lemma {:induction false} ValueBound(bs: seq<Byte>)
    ensures Value(bs) < Pow2(7 * |bs|)
  {
    if bs != [] {
      ValueBound(bs[1..]);
      PowSeven(7 * |bs[1..]|);
    }
  }

  lemma PowSeven(n: nat)
    ensures Pow2(n + 7) == 128 * Pow2(n)
  {
    PowShift(n);
    PowShift(n + 7);
    ShiftedAdd(1, n, 7);
    Shift7(Shifted(1, n));
  }

  /** Shifting by 32 or more is undefined, so no byte beyond the fifth may be read. */
  predicate Readable(bs: seq<Byte>, pos: nat) {
    pos <= |bs| && (pos + 5 < |bs| ==> exists i :: pos <= i < pos + 5 && !More(bs[i]))
  }

  lemma {:induction false} EndSkips(bs: seq<Byte>, pos: nat, p: nat)
    requires pos <= p <= |bs| && forall i :: pos <= i < p ==> More(bs[i])
    ensures End(bs, p) == End(bs, pos)
    decreases p - pos
  {
    if pos < p { EndSkips(bs, pos + 1, p); }
  }

  /** The bytes read so far, all asking for more, and the result so far. */
  ghost predicate Reading(bs: seq<Byte>, pos: nat, p: nat, result: nat, shift: nat) {
    && pos <= p <= |bs| && p - pos <= 5 && shift == 7 * (p - pos)
    && result == Mod32(Value(bs[pos..p]))
    && forall i :: pos <= i < p ==> More(bs[i])
  }

  /** Four groups fit in a word. */
  lemma ValueFits(bs: seq<Byte>)
    requires |bs| <= 4
    ensures Value(bs) < Pow2(7 * |bs|) && Mod32(Value(bs)) == Value(bs)
  {
    ValueBound(bs);
    PowMonotone(7 * |bs|, LAST);
    Powers();
    SmallMod(Value(bs));
  }

  lemma AppendGroup(o: nat, bs: seq<Byte>, b: Byte, n: nat)
    requires |bs| <= 4 && n == 7 * |bs| && IsOr(o, Mod32(Value(bs)), ShiftLeft(b % 128, n))
    ensures o == Mod32(Value(bs + [b]))
  {
    var v := Value(bs);
    ValueFits(bs);
    OrGroup(o, v, b % 128, n);
    ValueAppend(bs, b);
  }

  lemma ReadGroup(o: nat, bs: seq<Byte>, pos: nat, p: nat, result: nat, shift: nat)
    requires Reading(bs, pos, p, result, shift) && p < |bs| && p - pos <= 4
    requires IsOr(o, result, ShiftLeft(bs[p] % 128, shift))
    ensures o == Mod32(Value(bs[pos..p + 1]))
  {
    assert bs[pos..p + 1] == bs[pos..p] + [bs[p]];
    AppendGroup(o, bs[pos..p], bs[p], shift);
  }

  /** Puts the group of the byte at e into the result. */
  method AddGroup(bs: seq<Byte>, pos: nat, e: nat, value: nat, shift: nat) returns (o: nat)
    requires Reading(bs, pos, e, value, shift) && e < |bs| && e - pos <= 4
    ensures o == Mod32(Value(bs[pos..e + 1]))
  {
    o := OrWord(value, ShiftLeft(bs[e] % 128, shift));
    ReadGroup(o, bs, pos, e, value, shift);
  }

  /** Reads an unsigned integer; not ok when it is truncated. */
  method ReadUnsigned(bs: seq<Byte>, pos: nat) returns (ok: bool, value: nat, e: nat)
    requires Readable(bs, pos)
    ensures ok <==> End(bs, pos).Some?
    ensures ok ==> e == End(bs, pos).value && value == Mod32(Value(bs[pos..e]))
    ensures !ok ==> value == 0 && e == |bs|
  {
    value, e := 0, pos;
    var shift := 0;
    while true
      invariant Reading(bs, pos, e, value, shift) && e - pos <= 5
      decreases |bs| - e
    {
      EndSkips(bs, pos, e);
      if e >= |bs| { return false, 0, |bs|; }
      var b := bs[e];
      value := AddGroup(bs, pos, e, value, shift);
      e := e + 1;
      if b < 128 { return true, value, e; }
      shift := shift + 7;
    }
  }

  /** -(1 << n) on 32 bits. */
  function MinusPow(n: nat): nat { Mod32(0 - Pow2(n)) }

  /** All the bits from n to 31. */
  lemma {:induction false} HighOnes(w: nat, n: nat)
    requires n <= w
    ensures Shifted(Pow2(w - n) - 1, n) == Pow2(w) - Pow2(n)
  {
    if n > 0 {
      var m, p := n - 1, Pow2(w - n);
      HighOnes(w, m);
      ShiftedLinear(p - 1, m);
      PowShift(m);
    }
  }

  lemma {:induction false} ShiftedLinear(x: nat, n: nat)
    ensures Shifted(2 * x + 1, n) == 2 * Shifted(x, n) + Shifted(1, n)
  {
    if n > 0 { ShiftedLinear(x, n - 1); }
  }

  lemma MinusPowIs(n: nat)
    requires n < WORD
    ensures 0 < Pow2(n) < 0x1_0000_0000 && MinusPow(n) == 0x1_0000_0000 - Pow2(n)
    ensures Shifted(Pow2(WORD - n) - 1, n) == MinusPow(n)
  {
    Powers();
    PowMonotone(n, WORD - 1);
    assert Pow2(WORD) == 2 * Pow2(WORD - 1);
    HighOnes(WORD, n);
    ModBelow(0 - Pow2(n));
  }

  /** Extending the sign of an n-bit integer. */
  lemma OrSign(o: nat, a: nat, n: nat)
    requires n < WORD && a < Pow2(n) && IsOr(o, a, MinusPow(n))
    ensures o == Mod32(a - Pow2(n))
  {
    MinusPowIs(n);
    OrAdds(o, a, Pow2(WORD - n) - 1, n);
    ModBelow(a - Pow2(n));
  }

  /** Reads a signed integer, as the 32-bit word that stands for it. */
  method ReadSigned(bs: seq<Byte>, pos: nat) returns (ok: bool, value: nat, e: nat)
    requires Readable(bs, pos)
    ensures ok <==> End(bs, pos).Some?
    ensures ok ==> e == End(bs, pos).value && bs[pos..e] != [] && value == Mod32(SignedValue(bs[pos..e]))
    ensures !ok ==> value == 0 && e == |bs|
  {
    value, e := 0, pos;
    var shift := 0;
    var b: Byte := 128;
    while b >= 128
      invariant pos <= e <= |bs| && shift == 7 * (e - pos) && e - pos <= 5
      invariant b >= 128 ==> Reading(bs, pos, e, value, shift)
      invariant b < 128 ==> e > pos && b == bs[e - 1] && End(bs, pos) == Some(e) && value == Mod32(Value(bs[pos..e]))
      decreases |bs| - e
    {
      EndSkips(bs, pos, e);
      if e >= |bs| { return false, 0, |bs|; }
      b := bs[e];
      value := AddGroup(bs, pos, e, value, shift);
      e := e + 1;
      shift := shift + 7;
    }
    if shift < 32 && b % 128 >= 64 {
      var o := OrWord(value, MinusPow(shift));
      SignExtends(o, bs[pos..e]);
      value := o;
    } else {
      SignIsKept(bs[pos..e]);
    }
    return true, value, e;
  }

  /** In five bytes the sign is already at its place. */
  lemma SignIsKept(s: seq<Byte>)
    requires s != [] && |s| <= 5 && (|s| == 5 || s[|s| - 1] % 128 < 64)
    ensures Mod32(SignedValue(s)) == Mod32(Value(s))
  {
    if s[|s| - 1] % 128 >= 64 {
      Powers();
      PowSeven(LAST);
      ModMinus(Value(s), 8);
    }
  }

  /** In fewer it is extended. */
  lemma SignExtends(o: nat, s: seq<Byte>)
    requires s != [] && |s| <= 4 && s[|s| - 1] % 128 >= 64 && IsOr(o, Mod32(Value(s)), MinusPow(7 * |s|))
    ensures o == Mod32(SignedValue(s))
  {
    ValueFits(s);
    OrSign(o, Value(s), 7 * |s|);
  }

  // ---- the encodings ----

  function EncodeUnsigned(n: nat): (bs: seq<Byte>)
    ensures bs != []
  {
    if n < 128 then [n] else [n % 128 + 128] + EncodeUnsigned(n / 128)
  }

  function EncodeSigned(n: int): (bs: seq<Byte>)
    ensures bs != []
    decreases if n < 0 then -n else n
  {
    if -64 <= n < 64 then [n % 128] else [n % 128 + 128] + EncodeSigned(n / 128)
  }

  lemma EncodingPrepend(b: Byte, bs: seq<Byte>)
    requires More(b) && Encoding(bs)
    ensures Encoding([b] + bs)
  {
    assert forall i :: 1 <= i < |bs| + 1 ==> ([b] + bs)[i] == bs[i - 1];
  }

  /** The standard encoding of n, and of any number of at most 7k bits in k bytes. */
  lemma {:induction false} UnsignedRoundTrip(n: nat, k: nat)
    requires k >= 1 && n < Pow2(7 * k)
    ensures var bs := EncodeUnsigned(n); Encoding(bs) && Value(bs) == n && |bs| <= k
  {
    if n >= 128 {
      assert k > 1 by { assert Pow2(7) == 128; }
      PowSeven(7 * (k - 1));
      assert Pow2(7) == 128;
      UnsignedRoundTrip(n / 128, k - 1);
      EncodingPrepend(n % 128 + 128, EncodeUnsigned(n / 128));
      assert EncodeUnsigned(n)[1..] == EncodeUnsigned(n / 128);
    }
  }

  function Bound(k: nat): int
    requires k >= 1
  {
    Pow2(7 * k - 1)
  }

  lemma SmallBound(n: int, k: nat)
    requires k >= 1 && -Bound(k) <= n < Bound(k) && !(-64 <= n < 64)
    ensures k > 1
  {
    assert Pow2(6) == 64;
  }

  lemma BoundStep(k: nat, n: int)
    requires k > 1 && -Bound(k) <= n < Bound(k)
    ensures -Bound(k - 1) <= n / 128 < Bound(k - 1)
  {
    PowSeven(7 * (k - 1) - 1);
  }

  /** A group in front of a signed integer. */
  lemma SignedPrepend(b: Byte, r: seq<Byte>)
    requires r != []
    ensures SignedValue([b] + r) == b % 128 + 128 * SignedValue(r)
  {
    var bs := [b] + r;
    assert bs[1..] == r && bs[|bs| - 1] == r[|r| - 1];
    PowSeven(7 * |r|);
  }

  lemma OneByte(n: int)
    requires -64 <= n < 64
    ensures SignedValue([n % 128]) == n
  {
    var bs: seq<Byte> := [n % 128];
    assert bs[1..] == [] && Value([]) == 0;
    assert Value(bs) == n % 128;
    assert Pow2(7) == 128;
  }

  lemma SignedStep(n: int, r: seq<Byte>)
    requires Encoding(r) && SignedValue(r) == n / 128
    ensures Encoding([n % 128 + 128] + r) && SignedValue([n % 128 + 128] + r) == n
  {
    EncodingPrepend(n % 128 + 128, r);
    SignedPrepend(n % 128 + 128, r);
  }

  lemma {:induction false} SignedRoundTrip(n: int, k: nat)
    requires k >= 1 && -Bound(k) <= n < Bound(k)
    ensures var bs := EncodeSigned(n); Encoding(bs) && SignedValue(bs) == n && |bs| <= k
    decreases k
  {
    if -64 <= n < 64 {
      OneByte(n);
    } else {
      SmallBound(n, k);
      BoundStep(k, n);
      SignedRoundTrip(n / 128, k - 1);
      SignedStep(n, EncodeSigned(n / 128));
    }
  }

  // ---- the examples of the standard ----

  lemma OneGroup(a: Byte)
    ensures Value([a]) == a % 128
    ensures SignedValue([a]) == a % 128 - if a % 128 >= 64 then 128 else 0
  {
    assert [a][1..] == [];
    assert Pow2(7) == 128;
  }

  lemma TwoGroups(a: Byte, b: Byte)
    ensures Value([a, b]) == a % 128 + 128 * (b % 128)
    ensures SignedValue([a, b]) == a % 128 + 128 * (b % 128) - if b % 128 >= 64 then 16384 else 0
  {
    assert [a, b][1..] == [b];
    OneGroup(b);
    PowSeven(7);
    assert Pow2(7) == 128;
  }

  /** Unsigned integers of section 7.6 of DWARF 4. */
  lemma UnsignedExamples()
    ensures Value([2]) == 2 && Value([127]) == 127
    ensures Value([0x80, 1]) == 128 && Value([0x81, 1]) == 129 && Value([0x82, 1]) == 130 && Value([0xb9, 100]) == 12857
  {
    OneGroup(2);
    OneGroup(127);
    TwoGroups(0x80, 1);
    TwoGroups(0x81, 1);
    TwoGroups(0x82, 1);
    TwoGroups(0xb9, 100);
  }

  /** Signed ones. */
  lemma SignedExamples()
    ensures SignedValue([2]) == 2 && SignedValue([0x7e]) == -2
    ensures SignedValue([0xff, 0]) == 127 && SignedValue([0x81, 0x7f]) == -127
    ensures SignedValue([0x80, 1]) == 128 && SignedValue([0x80, 0x7f]) == -128
    ensures SignedValue([0x81, 1]) == 129 && SignedValue([0xff, 0x7e]) == -129
  {
    OneGroup(2);
    OneGroup(0x7e);
    TwoGroups(0xff, 0);
    TwoGroups(0x81, 0x7f);
    TwoGroups(0x80, 1);
    TwoGroups(0x80, 0x7f);
    TwoGroups(0x81, 1);
    TwoGroups(0xff, 0x7e);
  }
}
