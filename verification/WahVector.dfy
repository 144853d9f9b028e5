/** Compressed bit vectors: construction, queries and comparisons. */
module WahVector {
  import opened Bits
  import opened WahWords
  import opened WahBuilder
  import opened WahLogic

  /** The indices below n of the set bits. */
  ghost function SetBits(gs: seq<nat>, n: nat): set<nat>
    requires n <= GROUP * |gs|
  {
    set i: nat | i < n && BitAt(gs, i)
  }

  ghost function CountTo(gs: seq<nat>, n: nat): nat
    requires n <= GROUP * |gs|
  {
    |SetBits(gs, n)|
  }

  lemma CountNext(gs: seq<nat>, n: nat)
    requires n < GROUP * |gs|
    ensures CountTo(gs, n + 1) == CountTo(gs, n) + ToInt(BitAt(gs, n))
  {
    var s := SetBits(gs, n);
    assert SetBits(gs, n + 1) == if BitAt(gs, n) then s + {n} else s;
  }

  lemma {:induction false} CountGroup(gs: seq<nat>, k: nat, w: nat)
    requires k < |gs| && w <= GROUP
    ensures CountTo(gs, GROUP * k + w) == CountTo(gs, GROUP * k) + CountBits(gs[k], w)
  {
    if w > 0 {
      CountGroup(gs, k, w - 1);
      var i := GROUP * k + (w - 1);
      CountNext(gs, i);
      assert i / GROUP == k && i % GROUP == w - 1;
    }
  }

  lemma {:induction false} CountUniform(w: nat)
    requires w <= GROUP
    ensures CountBits(ALL_ONES, w) == w && CountBits(0, w) == 0
  {
    if w > 0 {
      CountUniform(w - 1);
      OnesBits(w);
    }
  }

  lemma CountFill(gs: seq<nat>, k: nat, ones: bool)
    requires k < |gs| && gs[k] == FillGroup(ones)
    ensures CountTo(gs, GROUP * (k + 1)) == CountTo(gs, GROUP * k) + if ones then GROUP else 0
  {
    CountGroup(gs, k, GROUP);
    CountUniform(GROUP);
    assert GROUP * k + GROUP == GROUP * (k + 1);
  }

  lemma {:induction false} CountRun(gs: seq<nat>, p: nat, n: nat, ones: bool)
    requires p + n <= |gs| && forall k :: p <= k < p + n ==> gs[k] == FillGroup(ones)
    ensures CountTo(gs, GROUP * (p + n)) == CountTo(gs, GROUP * p) + if ones then GROUP * n else 0
  {
    if n > 0 {
      CountRun(gs, p, n - 1, ones);
      CountFill(gs, p + n - 1, ones);
    }
  }

  /** The groups for size bits, and the bits of the last one if it is partial. */
  method GroupsNeeded(size: nat) returns (n: nat, rem: nat)
    requires Divides(size)
    ensures rem < GROUP && n < ONES && (n == 0 <==> size == 0) && BitLength(n, rem) == size
  {
    DivExact(size);
    rem := Mod(size);
    n := Div(size) + if rem != 0 then 1 else 0;
  }

  /** One fill of n groups, the last of rem bits if rem is not 0: a vector if there is a group. */
  lemma FillVector(size: nat, n: nat, rem: nat, init: bool)
    requires n < ONES && rem < GROUP && (n > 0 ==> BitLength(n, rem) == size) && (n == 0 ==> size == 0)
    ensures Canonical([Fill(n, init)], rem) <==> n > 0
    ensures n > 0 ==> |Expand([Fill(n, init)])| == n
    ensures forall i: nat :: i < size ==> BitAt(Expand([Fill(n, init)]), i) == init
  {
    var w := Fill(n, init);
    if n > 0 { UniformFill(size, n, rem, init); } else { assert !OkWord([w][0]); }
  }

  lemma UniformFill(size: nat, n: nat, rem: nat, init: bool)
    requires 0 < n < ONES && rem < GROUP && BitLength(n, rem) == size
    ensures Canonical([Fill(n, init)], rem) && |Expand([Fill(n, init)])| == n
    ensures forall i: nat :: i < size ==> BitAt(Expand([Fill(n, init)]), i) == init
  {
    ExpandOne(Fill(n, init));
    OnesBits(GROUP);
  }

  class Vector {
    var rem: nat
    var words: seq<Word>

    ghost predicate Valid()
      reads this
    {
      Canonical(words, rem) && |Expand(words)| < ONES
    }

    /** Number of bits. */
    ghost function Length(): int
      reads this
    {
      BitLength(|Expand(words)|, rem)
    }

    /** The vector without words. */
    constructor Empty()
      ensures rem == 0 && words == []
    {
      rem := 0;
      words := [];
    }

    /** A vector of size equal bits; the size is one that the code divides exactly. Without bits it has a fill
        of no group, which is no canonical vector. */
    constructor (size: nat, init: bool)
      requires Divides(size)
      ensures if size > 0 then Valid() && Length() == size else words == [Fill(0, init)] && rem == 0 && !Valid()
      ensures forall i: nat :: i < size ==> BitAt(Expand(words), i) == init
    {
      var n, r := GroupsNeeded(size);
      rem, words := r, [Fill(n, init)];
      new;
      FillVector(size, n, r, init);
    }

    /** Finds the word that holds a bit: its number, and the groups it stands for. */
    method FindWord(index: nat) returns (c: nat, val: nat)
      requires Valid() && index < Length()
      ensures c < |words| && val == Group(words[c]) && InWord(words, c, index)
    {
      var i := new Iter(words);
      OffsetEnd(words);
      while !i.Ended()
        invariant i.Valid() && i.Indexed() && i.words == words
        invariant i.pos == Offset(words, i.cur) && GROUP * i.pos <= index
        invariant !i.Ended() ==> i.cnt == Count(words[i.cur])
        decreases |words| - i.cur
      {
        if i.i <= index && index < i.ii { return i.cur, i.val; }
        i.Next();
      }
      assert false;
    }

    /** Reads one bit. */
    method BitOf(index: nat) returns (b: bool)
      requires Valid() && index < Length() < 0x8000_0000 && Divides(index)
      ensures b == BitAt(Expand(words), index)
    {
      var c, val := FindWord(index);
      BitOfWord(words, c, index);
      var j: int := Mod(index);
      b := Bit(val, j);
    }

    /** Comparing words decides equality of the bits. */
    method Equals(v: Vector) returns (b: bool)
      requires Valid() && v.Valid() && rem == v.rem && Length() == v.Length()
      ensures b <==> SameVector(Expand(words), Expand(v.words), rem)
      ensures b <==> words == v.words
    {
      CanonicalUnique(words, v.words, rem);
      if |words| != |v.words| { return false; }
      for i := 0 to |words|
        invariant forall k :: 0 <= k < i ==> words[k] == v.words[k]
      {
        if words[i] != v.words[i] { return false; }
      }
      assert words == v.words;
      return true;
    }

    /** Number of bits, recomputed from the words. */
    method Size() returns (n: int)
      requires Valid()
      ensures n == Length()
    {
      var r := 0;
      var i := new Iter(words);
      OffsetEnd(words);
      while !i.Ended()
        invariant i.Valid() && i.words == words
        invariant r == i.pos == Offset(words, i.cur)
        invariant !i.Ended() ==> i.cnt == Count(words[i.cur])
        decreases |words| - i.cur
      {
        r := r + i.cnt;
        i.Next();
      }
      if rem != 0 { n := TimesGroup(r) - (31 - rem); } else { n := TimesGroup(r); }
    }

    /** Number of set bits. */
    method CountOnes() returns (r: nat)
      requires Valid()
      ensures r == CountTo(Expand(words), Length())
    {
      r := 0;
      var i := new Iter(words);
      while !i.Ended()
        invariant i.Valid() && i.words == words
        invariant !i.Ended() ==> i.cnt == Count(words[i.cur])
        invariant r == CountTo(Expand(words), BitOffset(words, i.cur, rem))
        decreases |words| - i.cur
      {
        CountWord(words, i.cur, rem);
        if i.isFill {
          if i.val != 0 {
            r := r + TimesGroup(i.cnt);
            if rem != 0 && i.cur + 1 == |words| { r := r - (31 - rem); }
          }
        } else {
          r := r + Ones(if rem != 0 && i.cur + 1 == |words| then Kept(i.val, rem) else i.val);
        }
        i.Next();
      }
    }

    /** Whether every bit of v is also set here; the padding of fills does not interfere. */
    method Includes(v: Vector) returns (b: bool)
      requires Valid() && v.Valid() && rem == v.rem && |Expand(words)| == |Expand(v.words)|
      ensures b <==> Subset(Expand(v.words), Expand(words), rem)
    {
      if rem != 0 {
        CanonicalLast(words, rem);
        CanonicalLast(v.words, rem);
      }
      SubsetGroups(Expand(v.words), Expand(words), rem);
      b := NothingMissing(words, v.words);
    }

    /** Compares the current runs: whether the groups of j have a bit that those of i miss. */
    static method CompareRun(j: Iter, i: Iter) returns (n: nat, missing: bool)
      requires InStep(j, i) && !i.Ended() && !j.Ended()
      ensures 1 <= n <= i.cnt && n <= j.cnt && j.pos + n <= |Expand(j.words)|
      ensures forall k :: j.pos <= k < j.pos + n ==>
                (Combine(Reset, Expand(j.words), Expand(i.words))[k] != 0) == missing
    {
      n := 1;
      if i.isFill && j.isFill {
        n := if i.cnt <= j.cnt then i.cnt else j.cnt;
        missing := i.val == 0 && j.val != 0;
        FillsAhead(Reset, j, i);
        assert missing == Reset.Of(j.val != 0, i.val != 0);
      } else {
        missing := Logic(Reset, j.val, i.val, GROUP) != 0;
      }
      RunAhead(Reset, j, i, n);
    }

    /** The loop of Includes: no group of the second vector has a bit the first one misses. */
    static method NothingMissing(ws: seq<Word>, vs: seq<Word>) returns (b: bool)
      requires Packed(ws) && Packed(vs) && ws != [] && vs != [] && |Expand(ws)| == |Expand(vs)|
      ensures b <==> ZeroTo(Combine(Reset, Expand(vs), Expand(ws)), |Expand(ws)|)
    {
      ghost var d := Combine(Reset, Expand(vs), Expand(ws));
      var i := new Iter(ws);
      var j := new Iter(vs);
      while !i.Ended() && !j.Ended()
        invariant InStep(j, i) && i.words == ws && j.words == vs && i.pos <= |d|
        invariant ZeroTo(d, j.pos)
        decreases |d| - i.pos
      {
        var n, missing := CompareRun(j, i);
        if missing {
          assert d[j.pos] != 0;
          return false;
        }
        assert ZeroTo(d, j.pos + n);
        Advance(j, i, n);
      }
      EndTogether(j, i);
      return true;
    }

    method IncludesStrictly(v: Vector) returns (b: bool)
      requires Valid() && v.Valid() && rem == v.rem && |Expand(words)| == |Expand(v.words)|
      ensures b <==> Subset(Expand(v.words), Expand(words), rem)
                     && exists i: nat :: i < Length() && BitAt(Expand(words), i) && !BitAt(Expand(v.words), i)
    {
      var eq := Equals(v);
      var inc := Includes(v);
      b := !eq && inc;
    }
  }

  /** Bit index is among those of word c. */
  predicate InWord(ws: seq<Word>, c: nat, index: nat)
    requires c < |ws|
  {
    GROUP * Offset(ws, c) <= index < GROUP * (Offset(ws, c) + Count(ws[c]))
  }

  lemma BitOfWord(ws: seq<Word>, c: nat, index: nat)
    requires c < |ws| && InWord(ws, c, index) && Divides(index)
    ensures 0 <= Mod(index)
    ensures index < GROUP * |Expand(ws)| && BitAt(Expand(ws), index) == Bit(Group(ws[c]), Mod(index))
  {
    DivExact(index);
    WordAt(ws, c);
    assert Offset(ws, c) <= index / GROUP < Offset(ws, c) + Count(ws[c]);
  }

  /** Two iterators in step face the same pair of groups over their next n groups. */
  lemma RunAhead(op: Op, i: Iter, j: Iter, n: nat)
    requires InStep(i, j) && !i.Ended() && !j.Ended() && n <= i.cnt && n <= j.cnt
    ensures i.pos + n <= |Expand(i.words)|
    ensures forall k :: i.pos <= k < i.pos + n ==>
              Combine(op, Expand(i.words), Expand(j.words))[k] == Logic(op, i.val, j.val, GROUP)
  {
    i.Ahead();
    j.Ahead();
    var a, b := Expand(i.words), Expand(j.words);
    forall k | i.pos <= k < i.pos + n ensures Combine(op, a, b)[k] == Logic(op, i.val, j.val, GROUP) {
      assert a[k] == i.val && b[k] == j.val;
      CombineAt(op, a, b, |a|, k);
    }
  }

  lemma FillsAhead(op: Op, i: Iter, j: Iter)
    requires InStep(i, j) && !i.Ended() && !j.Ended() && i.isFill && j.isFill
    ensures Logic(op, i.val, j.val, GROUP) == FillGroup(op.Of(i.val != 0, j.val != 0))
    ensures (Logic(op, i.val, j.val, GROUP) != 0) == op.Of(i.val != 0, j.val != 0)
  {
    LogicOfFills(op, i.val, j.val);
  }

  /** Every bit set in a is set in b. */
  ghost predicate Subset(a: seq<nat>, b: seq<nat>, rem: nat)
    requires rem < GROUP && |a| == |b|
  {
    forall i: nat :: i < BitLength(|a|, rem) ==> BitAt(a, i) ==> BitAt(b, i)
  }

  /** The first n groups are empty. */
  ghost predicate ZeroTo(d: seq<nat>, n: nat) {
    n <= |d| && forall k :: 0 <= k < n ==> d[k] == 0
  }

  /** Inclusion is emptiness of every group of the difference, padding included. */
  lemma SubsetGroups(a: seq<nat>, b: seq<nat>, rem: nat)
    requires rem < GROUP && |a| == |b| > 0
    requires rem != 0 ==> LastForm(a[|a| - 1], rem) && LastForm(b[|b| - 1], rem)
    ensures Subset(a, b, rem) <==> ZeroTo(Combine(Reset, a, b), |a|)
  {
    var d := Combine(Reset, a, b);
    if Subset(a, b, rem) {
      forall k | 0 <= k < |a| ensures d[k] == 0 {
        CombineAt(Reset, a, b, |a|, k);
        LogicIs(Reset, a[k], b[k]);
        SubsetGroup(a, b, d[k], rem, k);
      }
    }
    if ZeroTo(d, |d|) {
      forall i: nat | i < BitLength(|a|, rem) ensures BitAt(a, i) ==> BitAt(b, i) {
        var k := i / GROUP;
        CombineAt(Reset, a, b, |a|, k);
        LogicIs(Reset, a[k], b[k]);
        assert d[k] == 0;
        ZeroMisses(a[k], b[k], i % GROUP);
      }
    }
  }

  lemma ZeroMisses(x: nat, y: nat, j: nat)
    requires IsLogic(Reset, x, y, 0) && j < GROUP
    ensures Bit(x, j) ==> Bit(y, j)
  {
    ZeroBit(j);
  }

  lemma SubsetGroup(a: seq<nat>, b: seq<nat>, g: nat, rem: nat, k: nat)
    requires rem < GROUP && |a| == |b| && k < |a| && Subset(a, b, rem) && IsLogic(Reset, a[k], b[k], g)
    requires rem != 0 ==> LastForm(a[|a| - 1], rem) && LastForm(b[|b| - 1], rem)
    ensures g == 0
  {
    var w := Width(k, |a|, rem);
    forall j: nat | j < w ensures !Bit(g, j) {
      BitsOfGroup(a, rem, k, j);
      BitsOfGroup(b, rem, k, j);
      var i: nat := GROUP * k + j;
      assert BitAt(a, i) ==> BitAt(b, i);
    }
    if w == GROUP {
      NoBitsIsZero(g);
    } else {
      assert NoBits(g, rem);
      ResetForm(a[k], b[k], g, rem);
    }
  }

  /** Index of the first bit of word c, and the length of the vector past the last word. */
  ghost function BitOffset(ws: seq<Word>, c: nat, rem: nat): nat
    requires Canonical(ws, rem) && c <= |ws|
    ensures BitOffset(ws, c, rem) <= GROUP * |Expand(ws)|
  {
    OffsetEnd(ws);
    if c < |ws| then
      WordAt(ws, c);
      GROUP * Offset(ws, c)
    else
      PackedNonEmpty(ws);
      BitLength(|Expand(ws)|, rem)
  }

  /** Number of set bits of a word; the last one counts only the rem bits of its last group. */
  function WordOnes(w: Word, partial: bool, rem: nat): int {
    if IsFill(w) then (if IsOnes(w) then GROUP * FillCount(w) - (if partial then GROUP - rem else 0) else 0)
    else Ones(if partial then Kept(w, rem) else w)
  }

  lemma CountWord(ws: seq<Word>, c: nat, rem: nat)
    requires Canonical(ws, rem) && c < |ws|
    ensures CountTo(Expand(ws), BitOffset(ws, c + 1, rem))
            == CountTo(Expand(ws), BitOffset(ws, c, rem)) + WordOnes(ws[c], rem != 0 && c + 1 == |ws|, rem)
  {
    var e, p, w := Expand(ws), Offset(ws, c), ws[c];
    WordAt(ws, c);
    OffsetEnd(ws);
    assert OkWord(w);
    if rem != 0 && c + 1 == |ws| {
      CountPartialWord(e, p, w, rem);
    } else {
      CountWholeWord(e, p, w);
      assert BitOffset(ws, c + 1, rem) == GROUP * (p + Count(w));
    }
  }

  lemma CountWholeWord(e: seq<nat>, p: nat, w: Word)
    requires p + Count(w) <= |e| && forall k :: p <= k < p + Count(w) ==> e[k] == Group(w)
    ensures CountTo(e, GROUP * (p + Count(w))) == CountTo(e, GROUP * p) + WordOnes(w, false, 0)
  {
    if IsFill(w) {
      CountRun(e, p, Count(w), IsOnes(w));
    } else {
      CountLiteral(e, p);
    }
  }

  lemma CountPartialWord(e: seq<nat>, p: nat, w: Word, rem: nat)
    requires p + Count(w) == |e| && forall k :: p <= k < p + Count(w) ==> e[k] == Group(w)
    requires 0 < rem < GROUP && OkWord(w)
    ensures CountTo(e, BitLength(|e|, rem)) == CountTo(e, GROUP * p) + WordOnes(w, true, rem)
  {
    if IsFill(w) { CountLastRun(e, p, Count(w), IsOnes(w), rem); } else { CountLastLiteral(e, p, rem); }
  }

  lemma CountLastRun(gs: seq<nat>, p: nat, n: nat, ones: bool, rem: nat)
    requires p + n == |gs| && n >= 1 && 0 < rem < GROUP
    requires forall k :: p <= k < p + n ==> gs[k] == FillGroup(ones)
    ensures CountTo(gs, BitLength(|gs|, rem))
            == CountTo(gs, GROUP * p) + if ones then GROUP * n - (GROUP - rem) else 0
  {
    CountRun(gs, p, n - 1, ones);
    CountGroup(gs, |gs| - 1, rem);
    CountUniform(rem);
    assert GROUP * (p + (n - 1)) + rem == BitLength(|gs|, rem);
  }

  lemma CountLiteral(gs: seq<nat>, p: nat)
    requires p < |gs| && gs[p] < FILL
    ensures CountTo(gs, GROUP * (p + 1)) == CountTo(gs, GROUP * p) + Ones(gs[p])
  {
    GroupPow();
    CountGroup(gs, p, GROUP);
    OnesCounts(gs[p], GROUP);
    assert GROUP * p + GROUP == GROUP * (p + 1);
  }

  lemma CountLastLiteral(gs: seq<nat>, p: nat, rem: nat)
    requires p + 1 == |gs| && 0 < rem < GROUP
    ensures CountTo(gs, BitLength(|gs|, rem)) == CountTo(gs, GROUP * p) + Ones(Kept(gs[p], rem))
  {
    CountGroup(gs, p, rem);
    assert Ones(Kept(gs[p], rem)) == CountBits(gs[p], rem) by { CountKept(gs[p], rem); }
    assert GROUP * p + rem == BitLength(|gs|, rem);
  }

  lemma CountKept(g: nat, rem: nat)
    requires 0 < rem < GROUP
    ensures Ones(Kept(g, rem)) == CountBits(g, rem)
  {
    KeptBits(g, rem);
    OnesCounts(Kept(g, rem), rem);
    CountSame(Kept(g, rem), g, rem);
  }
}
