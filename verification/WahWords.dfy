/** The words of a compressed bit vector: each stands for one or more groups of 31 bits.
    A literal has bit 31 clear and holds one group; a fill has bit 31 set, bit 30 tells
    the value of its bits and the 30 low-order bits count its groups. */
module WahWords {
  import opened Bits

  const FILL: int := 0x8000_0000
  const ONES: int := 0x4000_0000
  const ALL_ONES: int := 0x7fff_ffff
  const GROUP := 31

  type Word = w: int | 0 <= w < 0x1_0000_0000

  predicate IsFill(w: Word) { w >= FILL }

  /** Bit 30, read on fills and on literals alike. */
  predicate IsOnes(w: Word) { (if IsFill(w) then w - FILL else w) >= ONES }

  /** w with bits 31 and 30 cleared. */
  function FillCount(w: Word): nat {
    w - (if IsFill(w) then FILL else 0) - (if IsOnes(w) then ONES else 0)
  }

  function Fill(n: nat, ones: bool): Word
    requires n < ONES
  {
    FILL + (if ones then ONES else 0) + n
  }

  /** The group repeated by a fill. */
  function FillGroup(ones: bool): nat { if ones then ALL_ONES else 0 }

  function TimesGroup(v: int): int { v * 32 - v }

  /** The multiply-and-shift division by 31. */
  function Div(v: nat): nat {
    ((0x1_0000_0000 / 31 + 30) * v) / 0x1_0000_0000
  }

  function Mod(v: nat): int { v - TimesGroup(Div(v)) }

  /** The accumulated rounding error of the quotient and of the remainder stays below one unit. */
  predicate Divides(v: nat) { 926 * (v / 31) + 138547362 * (v % 31) < 0x1_0000_0000 }

  /** This is precisely when the division is exact. */
  lemma DivExact(v: nat)
    ensures Div(v) == v / 31 <==> Divides(v)
    ensures Div(v) == v / 31 <==> Mod(v) == v % 31
  {
    var q, r := v / 31, v % 31;
    assert 138547362 * v == 0x1_0000_0000 * q + (926 * q + 138547362 * r);
  }

  const MAX_BITS: nat := 4638218

  /** 4638218 is the last length below which every index divides exactly. */
  lemma DivExactUpTo(v: nat)
    ensures v <= MAX_BITS ==> Divides(v) && Div(v) == v / 31 && Mod(v) == v % 31
    ensures Div(MAX_BITS + 1) != (MAX_BITS + 1) / 31
  {
    DivExact(v);
    DivExact(4638219);
    assert 4638219 / 31 == 149619 && 4638219 % 31 == 30;
  }

  /** Whole groups less leave the division exact. */
  lemma DividesLess(v: nat, p: nat)
    requires Divides(v) && 31 * p <= v
    ensures Div(v - 31 * p) == v / 31 - p && v / 31 >= p
  {
    var u := v - 31 * p;
    assert u / 31 == v / 31 - p && u % 31 == v % 31;
    DivExact(u);
  }

  lemma GroupPow()
    ensures Pow2(31) == FILL && Pow2(30) == ONES && Mask(31) == ALL_ONES
  {
    assert Pow2(8) == 0x100;
    assert Pow2(16) == 0x1_0000;
    assert Pow2(24) == 0x100_0000;
  }

  // ---- the groups a word sequence stands for ----

  function Repeat(g: nat, n: nat): (s: seq<nat>)
    ensures |s| == n && forall k :: 0 <= k < n ==> s[k] == g
  {
    if n == 0 then [] else Repeat(g, n - 1) + [g]
  }

  /** How many groups a word stands for, and which group it repeats. */
  function Count(w: Word): nat { if IsFill(w) then FillCount(w) else 1 }

  function Group(w: Word): nat { if IsFill(w) then FillGroup(IsOnes(w)) else w }

  function Groups(w: Word): seq<nat> {
    Repeat(Group(w), Count(w))
  }

  /** The groups of the first c words. */
  function ExpandTo(ws: seq<Word>, c: nat): seq<nat>
    requires c <= |ws|
  {
    if c == 0 then [] else ExpandTo(ws, c - 1) + Groups(ws[c - 1])
  }

  function Expand(ws: seq<Word>): seq<nat> { ExpandTo(ws, |ws|) }

  /** A literal of three set bits, a fill of three clear groups and one of two full groups. */
  lemma Layout()
    ensures Groups(0x4000_0005) == [0x4000_0005]
    ensures Groups(0x8000_0003) == [0, 0, 0] && Groups(0xC000_0002) == [0x7fff_ffff, 0x7fff_ffff]
  {
    assert Repeat(0, 1) == [0] && Repeat(0, 2) == [0, 0];
    assert Repeat(ALL_ONES, 1) == [ALL_ONES];
  }

  lemma Associates(a: seq<nat>, b: seq<nat>, c: seq<nat>)
    ensures (a + b) + c == a + (b + c)
  {}

  lemma {:induction false} ExpandPrefix(a: seq<Word>, b: seq<Word>, c: nat)
    requires c <= |a| && c <= |b| && forall k :: 0 <= k < c ==> a[k] == b[k]
    ensures ExpandTo(a, c) == ExpandTo(b, c)
  {
    if c > 0 { ExpandPrefix(a, b, c - 1); }
  }

  lemma {:induction false} ExpandConcatTo(a: seq<Word>, b: seq<Word>, c: nat)
    requires c <= |b|
    ensures ExpandTo(a + b, |a| + c) == Expand(a) + ExpandTo(b, c)
  {
    if c == 0 {
      ExpandPrefix(a + b, a, |a|);
      assert Expand(a) + [] == Expand(a);
    } else {
      var s, k, g := a + b, |a| + c - 1, Groups(b[c - 1]);
      ExpandConcatTo(a, b, c - 1);
      assert s[k] == b[c - 1];
      assert ExpandTo(s, k + 1) == ExpandTo(s, k) + g;
      Associates(Expand(a), ExpandTo(b, c - 1), g);
    }
  }

  lemma ExpandConcat(a: seq<Word>, b: seq<Word>)
    ensures Expand(a + b) == Expand(a) + Expand(b)
  {
    ExpandConcatTo(a, b, |b|);
  }

  lemma ExpandLast(ws: seq<Word>)
    requires ws != []
    ensures Expand(ws) == Expand(ws[..|ws| - 1]) + Groups(ws[|ws| - 1])
  {
    ExpandPrefix(ws, ws[..|ws| - 1], |ws| - 1);
  }

  lemma ExpandOne(w: Word)
    ensures Expand([w]) == Groups(w)
  {
    assert ExpandTo([w], 0) + Groups(w) == Groups(w);
  }

  lemma ExpandFront(ws: seq<Word>)
    requires ws != []
    ensures Expand(ws) == Groups(ws[0]) + Expand(ws[1..])
  {
    ExpandConcat([ws[0]], ws[1..]);
    ExpandOne(ws[0]);
    assert ws == [ws[0]] + ws[1..];
  }

  lemma ExpandPush(ws: seq<Word>, w: Word)
    ensures Expand(ws + [w]) == Expand(ws) + Groups(w)
  {
    ExpandPrefix(ws + [w], ws, |ws|);
  }

  /** Index of the first group of word c. */
  function Offset(ws: seq<Word>, c: nat): nat
    requires c <= |ws|
  {
    if c == 0 then 0 else Offset(ws, c - 1) + Count(ws[c - 1])
  }

  lemma {:induction false} OffsetExpand(ws: seq<Word>, c: nat)
    requires c <= |ws|
    ensures Offset(ws, c) == |ExpandTo(ws, c)|
  {
    if c > 0 { OffsetExpand(ws, c - 1); }
  }

  /** Word c fills the groups from its offset to the next one with its group. */
  lemma WordAt(ws: seq<Word>, c: nat)
    requires c < |ws|
    ensures Offset(ws, c) + Count(ws[c]) <= |Expand(ws)|
    ensures forall k :: Offset(ws, c) <= k < Offset(ws, c) + Count(ws[c]) ==> Expand(ws)[k] == Group(ws[c])
  {
    OffsetExpand(ws, c);
    ExpandAround(ws, c);
    ExpandPrefix(ws, ws[..c], c);
  }

  lemma ExpandAround(ws: seq<Word>, c: nat)
    requires c < |ws|
    ensures Expand(ws) == Expand(ws[..c]) + Groups(ws[c]) + Expand(ws[c + 1..])
  {
    var a, w, b := ws[..c], ws[c], ws[c + 1..];
    assert ws == (a + [w]) + b;
    ExpandPush(a, w);
    ExpandConcat(a + [w], b);
  }

  lemma OffsetEnd(ws: seq<Word>)
    ensures Offset(ws, |ws|) == |Expand(ws)|
  {
    OffsetExpand(ws, |ws|);
  }

  lemma {:induction false} ExpandBoundTo(ws: seq<Word>, c: nat)
    requires c <= |ws|
    ensures forall g :: g in ExpandTo(ws, c) ==> 0 <= g < Pow2(GROUP)
  {
    GroupPow();
    if c > 0 { ExpandBoundTo(ws, c - 1); }
  }

  // ---- canonical form ----

  predicate OkWord(w: Word) {
    if IsFill(w) then FillCount(w) >= 1 else w != 0 && w != ALL_ONES
  }

  predicate SameFill(v: Word, w: Word) {
    IsFill(v) && IsFill(w) && IsOnes(v) == IsOnes(w)
  }

  /** No empty fill, no literal that could be a fill, no two fills that could be one. */
  ghost predicate Packed(ws: seq<Word>) {
    && (forall k :: 0 <= k < |ws| ==> OkWord(ws[k]))
    && (forall j, k :: 0 <= j < k < |ws| && k == j + 1 ==> !SameFill(ws[j], ws[k]))
  }

  lemma PackedPush(ws: seq<Word>, w: Word)
    requires Packed(ws) && OkWord(w)
    requires ws != [] ==> !SameFill(ws[|ws| - 1], w)
    ensures Packed(ws + [w])
  {}

  lemma PackedConcat(a: seq<Word>, b: seq<Word>)
    requires Packed(a) && Packed(b)
    requires a != [] && b != [] ==> !SameFill(a[|a| - 1], b[0])
    ensures Packed(a + b)
  {}

  lemma PackedSlice(ws: seq<Word>, m: nat, n: nat)
    requires Packed(ws) && m <= n <= |ws|
    ensures Packed(ws[m..n])
  {}

  lemma MergeFills(v: Word, w: Word)
    requires SameFill(v, w) && FillCount(v) + FillCount(w) < ONES
    ensures v + FillCount(w) < 0x1_0000_0000
    ensures SameFill(v, v + FillCount(w))
    ensures FillCount(v + FillCount(w)) == FillCount(v) + FillCount(w)
    ensures Groups(v + FillCount(w)) == Groups(v) + Groups(w)
  {}

  /** Packed, and a literal for a partial last group of rem bits has its padding clear
      and is not full. */
  ghost predicate Canonical(ws: seq<Word>, rem: nat) {
    && ws != []
    && rem < GROUP
    && Packed(ws)
    && (rem != 0 && !IsFill(ws[|ws| - 1]) ==> ws[|ws| - 1] < Mask(rem))
  }

  /** The last run of a packed sequence is preceded by another group. */
  lemma LastRunMaximal(ws: seq<Word>)
    requires Packed(ws) && |ws| >= 2 && IsFill(ws[|ws| - 1])
    ensures var e := Expand(ws); var n := FillCount(ws[|ws| - 1]);
            |e| > n && e[|e| - n - 1] != FillGroup(IsOnes(ws[|ws| - 1]))
  {
    var init := ws[..|ws| - 1];
    var w, v := ws[|ws| - 1], ws[|ws| - 2];
    assert v == init[|init| - 1];
    ExpandLast(ws);
    ExpandLast(init);
    assert OkWord(v) && !SameFill(v, w);
    assert Groups(v)[|Groups(v)| - 1] != FillGroup(IsOnes(w));
  }

  lemma GroupsDetermine(v: Word, w: Word)
    requires OkWord(v) && OkWord(w)
    requires Groups(v) == Groups(w)
    ensures v == w
  {
    assert Groups(v)[0] == Groups(w)[0];
    assert |Groups(v)| == |Groups(w)|;
  }

  lemma PackedNonEmpty(a: seq<Word>)
    requires Packed(a) && a != []
    ensures Expand(a) != []
  {
    assert OkWord(a[|a| - 1]);
  }

  lemma LastRunNotLonger(a: seq<Word>, b: seq<Word>)
    requires Packed(a) && Packed(b) && a != [] && b != []
    requires Expand(a) == Expand(b)
    ensures |Groups(a[|a| - 1])| <= |Groups(b[|b| - 1])|
  {
    var v, w := a[|a| - 1], b[|b| - 1];
    assert OkWord(v) && OkWord(w);
    var e := Expand(a);
    assert e[|e| - 1] == Groups(v)[|Groups(v)| - 1] == Groups(w)[|Groups(w)| - 1];
    ExpandLast(a);
    if |b| >= 2 {
      if IsFill(w) { LastRunMaximal(b); }
    } else {
      assert Expand(b[..0]) == [];
      ExpandLast(b);
    }
  }

  lemma LastWordUnique(a: seq<Word>, b: seq<Word>)
    requires Packed(a) && Packed(b) && a != [] && b != []
    requires Expand(a) == Expand(b)
    ensures a[|a| - 1] == b[|b| - 1]
    ensures Expand(a[..|a| - 1]) == Expand(b[..|b| - 1])
  {
    LastRunNotLonger(a, b);
    LastRunNotLonger(b, a);
    var v, w, e := a[|a| - 1], b[|b| - 1], Expand(a);
    var n := |e| - |Groups(v)|;
    ExpandLast(a);
    ExpandLast(b);
    assert Groups(v) == e[n..] == Groups(w);
    GroupsDetermine(v, w);
    assert Expand(a[..|a| - 1]) == e[..n] == Expand(b[..|b| - 1]);
  }

  /** A packed sequence is determined by the groups it stands for. */
  lemma {:induction false} PackedUnique(a: seq<Word>, b: seq<Word>)
    requires Packed(a) && Packed(b)
    requires Expand(a) == Expand(b)
    ensures a == b
  {
    if a == [] && b == [] {
    } else if a == [] {
      PackedNonEmpty(b);
    } else if b == [] {
      PackedNonEmpty(a);
    } else {
      LastWordUnique(a, b);
      PackedUnique(a[..|a| - 1], b[..|b| - 1]);
      assert a == a[..|a| - 1] + [a[|a| - 1]];
      assert b == b[..|b| - 1] + [b[|b| - 1]];
    }
  }

  // ---- the bits ----

  /** Bit i of a sequence of groups. */
  predicate BitAt(gs: seq<nat>, i: nat)
    requires i < GROUP * |gs|
  {
    Bit(gs[i / GROUP], i % GROUP)
  }

  /** Number of bits of n groups whose last one holds rem bits (31 when rem is 0). */
  function BitLength(n: nat, rem: nat): int {
    if rem == 0 then GROUP * n else GROUP * n - (GROUP - rem)
  }

  /** Number of bits in group k of n. */
  function Width(k: nat, n: nat, rem: nat): nat {
    if k == n - 1 && rem != 0 then rem else GROUP
  }

  /** Same number of groups and same bits. */
  ghost predicate SameVector(a: seq<nat>, b: seq<nat>, rem: nat)
    requires rem < GROUP
  {
    && |a| == |b|
    && (forall i: nat :: i < BitLength(|a|, rem) ==> BitAt(a, i) == BitAt(b, i))
  }

  lemma BitsOfGroup(a: seq<nat>, rem: nat, k: nat, j: nat)
    requires k < |a| && rem < GROUP && j < Width(k, |a|, rem)
    ensures GROUP * k + j < BitLength(|a|, rem)
    ensures BitAt(a, GROUP * k + j) == Bit(a[k], j)
  {
    var i := GROUP * k + j;
    assert i / GROUP == k && i % GROUP == j;
  }

  lemma GroupOfBit(n: nat, rem: nat, i: nat)
    requires rem < GROUP && i < BitLength(n, rem)
    ensures i / GROUP < n && i % GROUP < Width(i / GROUP, n, rem)
  {}

  lemma SameVectorGroups(a: seq<nat>, b: seq<nat>, rem: nat, k: nat)
    requires rem < GROUP && SameVector(a, b, rem) && k < |a|
    ensures SameBits(a[k], b[k], Width(k, |a|, rem))
  {
    forall j: nat | j < Width(k, |a|, rem) ensures Bit(a[k], j) == Bit(b[k], j) {
      BitsOfGroup(a, rem, k, j);
      BitsOfGroup(b, rem, k, j);
      var i: nat := GROUP * k + j;
      assert BitAt(a, i) == BitAt(b, i);
    }
  }

  /** The last group of a canonical vector: a fill's, or a literal strictly between
      the empty and the full partial group. */
  lemma LastGroup(ws: seq<Word>, rem: nat)
    requires Canonical(ws, rem)
    ensures var e := Expand(ws);
            e != [] && (e[|e| - 1] == 0 || e[|e| - 1] == ALL_ONES
                        || (0 < e[|e| - 1] < ALL_ONES && (rem != 0 ==> e[|e| - 1] < Mask(rem))))
    ensures var e := Expand(ws);
            IsFill(ws[|ws| - 1]) <==> e[|e| - 1] == 0 || e[|e| - 1] == ALL_ONES
  {
    assert OkWord(ws[|ws| - 1]);
  }

  ghost predicate FullBits(g: nat, n: nat) { forall i: nat :: i < n ==> Bit(g, i) }

  ghost predicate NoBits(g: nat, n: nat) { forall i: nat :: i < n ==> !Bit(g, i) }

  lemma OnesBits(n: nat)
    requires n <= GROUP
    ensures FullBits(ALL_ONES, n) && FullBits(Mask(n), n) && NoBits(0, n)
  {
    GroupPow();
    forall i: nat | i < n ensures Bit(ALL_ONES, i) && Bit(Mask(n), i) && !Bit(0, i) {
      MaskBit(GROUP, i);
      MaskBit(n, i);
      ZeroBit(i);
    }
  }

  /** Two last groups of rem bits each, in canonical form, agree on these bits only if equal. */
  lemma LastGroupUnique(a: nat, b: nat, rem: nat)
    requires 0 < rem < GROUP
    requires a == 0 || a == ALL_ONES || 0 < a < Mask(rem)
    requires b == 0 || b == ALL_ONES || 0 < b < Mask(rem)
    requires SameBits(a, b, rem)
    ensures a == b
  {
    OnesBits(rem);
    var a' := if a == ALL_ONES then Mask(rem) else a;
    var b' := if b == ALL_ONES then Mask(rem) else b;
    PowMonotone(rem, 30);
    GroupPow();
    assert Mask(rem) < ALL_ONES;
    assert Pow2(rem) >= 2 by { PowMonotone(1, rem); }
    BitsDetermine(a', b', rem);
  }

  /** Canonical vectors of one bit length hold the same words exactly when they hold the same bits. */
  lemma CanonicalUnique(a: seq<Word>, b: seq<Word>, rem: nat)
    requires Canonical(a, rem) && Canonical(b, rem)
    ensures a == b <==> SameVector(Expand(a), Expand(b), rem)
  {
    var e, f := Expand(a), Expand(b);
    if SameVector(e, f, rem) {
      LastGroup(a, rem);
      LastGroup(b, rem);
      ExpandBoundTo(a, |a|);
      ExpandBoundTo(b, |b|);
      forall k | 0 <= k < |e| ensures e[k] == f[k] {
        SameVectorGroups(e, f, rem, k);
        assert e[k] in e && f[k] in f;
        if Width(k, |e|, rem) == GROUP {
          BitsDetermine(e[k], f[k], GROUP);
        } else {
          LastGroupUnique(e[k], f[k], rem);
        }
      }
      assert e == f;
      PackedUnique(a, b);
    }
  }
}
