/** The operations that build a new compressed vector: word-parallel logic, negation and
    the update of one bit. */
module WahOperations {
  import opened Bits
  import opened WahWords
  import opened WahBuilder
  import opened WahLogic
  import opened WahVector

  /** The words of r are the canonical form of the operator applied to every bit. */
  ghost predicate IsResult(op: Op, a: seq<Word>, b: seq<Word>, r: seq<Word>, rem: nat)
    requires rem < GROUP
  {
    Canonical(r, rem) && Pointwise(op, Expand(a), Expand(b), Expand(r), rem)
  }

  ghost predicate IsNegation(a: seq<Word>, r: seq<Word>, rem: nat)
    requires rem < GROUP
  {
    Canonical(r, rem) && Negated(Expand(a), Expand(r), rem)
  }

  /** Whether the operation falls in the unsafe branch of Fix. */
  predicate Unsafe(op: Op, a: seq<Word>, b: seq<Word>, rem: nat)
    requires |Expand(a)| == |Expand(b)|
  {
    LosesGroup(Combine(op, Expand(a), Expand(b)), rem)
  }

  /** Words packed so far for the operator applied to the first n groups. */
  ghost predicate Built(ws: seq<Word>, op: Op, w1: seq<Word>, w2: seq<Word>, n: nat)
    requires |Expand(w1)| == |Expand(w2)|
  {
    && Packed(ws)
    && n <= |Expand(w1)|
    && Expand(ws) == CombineTo(op, Expand(w1), Expand(w2), n)
  }

  /** The n groups from p on are all x. */
  ghost predicate IsRun(e: seq<nat>, p: nat, n: nat, x: nat) {
    p + n <= |e| && forall k :: p <= k < p + n ==> e[k] == x
  }

  lemma RunOf(i: Iter, n: nat)
    requires i.Valid() && !i.Ended() && n <= i.cnt
    ensures IsRun(Expand(i.words), i.pos, n, i.val)
    ensures i.isFill ==> i.val == 0 || i.val == ALL_ONES
  {
    i.Ahead();
  }

  /** The current runs of two vectors. */
  lemma RunsAhead(i1: Iter, i2: Iter)
    requires InStep(i1, i2) && !i1.Ended() && !i2.Ended()
    ensures 1 <= i1.cnt && 1 <= i2.cnt && (!(i1.isFill && i2.isFill) ==> i1.cnt == 1 || i2.cnt == 1)
    ensures forall n :: 0 <= n <= i1.cnt && n <= i2.cnt ==>
              IsRun(Expand(i1.words), i1.pos, n, i1.val) && IsRun(Expand(i2.words), i1.pos, n, i2.val)
    ensures i1.isFill ==> i1.val == 0 || i1.val == ALL_ONES
    ensures i2.isFill ==> i2.val == 0 || i2.val == ALL_ONES
  {
    i1.Ahead();
    i2.Ahead();
  }

  /** Pushes the operator applied to a run of fill groups x against fill groups y. */
  method PushFills(op: Op, b: Builder, ghost w1: seq<Word>, ghost w2: seq<Word>, ghost p: nat,
                   n: nat, x: nat, y: nat)
    requires |Expand(w1)| == |Expand(w2)| < ONES && Built(b.words, op, w1, w2, p)
    requires 1 <= n && IsRun(Expand(w1), p, n, x) && IsRun(Expand(w2), p, n, y)
    requires (x == 0 || x == ALL_ONES) && (y == 0 || y == ALL_ONES)
    modifies b
    ensures Built(b.words, op, w1, w2, p + n) && b.words != [] && |b.words| <= |old(b.words)| + 1
  {
    var g := Logic(op, x, y, GROUP);
    RunRoom(b.words, op, w1, w2, p, n, x);
    LogicOfFills(op, x, y);
    FillRun(n, g);
    b.PushFill(Fill(n, g != 0));
    BuiltRun(old(b.words), b.words, op, w1, w2, p, n, x, y);
  }

  /** There is room for the run in the words built so far. */
  lemma RunRoom(ws: seq<Word>, op: Op, w1: seq<Word>, w2: seq<Word>, p: nat, n: nat, x: nat)
    requires |Expand(w1)| == |Expand(w2)| < ONES && Built(ws, op, w1, w2, p) && IsRun(Expand(w1), p, n, x)
    ensures Packed(ws) && n < ONES && |Expand(ws)| + n < ONES
  {}

  /** Pushes the operator applied to one group of each vector. */
  method PushLites(op: Op, b: Builder, ghost w1: seq<Word>, ghost w2: seq<Word>, ghost p: nat, x: nat, y: nat)
    requires |Expand(w1)| == |Expand(w2)| < ONES && Built(b.words, op, w1, w2, p)
    requires IsRun(Expand(w1), p, 1, x) && IsRun(Expand(w2), p, 1, y)
    modifies b
    ensures Built(b.words, op, w1, w2, p + 1) && b.words != [] && |b.words| <= |old(b.words)| + 1
  {
    var g := Logic(op, x, y, GROUP);
    GroupPow();
    assert Repeat(g, 1) == [g];
    b.PushLite(g);
    BuiltRun(old(b.words), b.words, op, w1, w2, p, 1, x, y);
  }

  lemma FillRun(n: nat, g: nat)
    requires 1 <= n < ONES && (g == 0 || g == ALL_ONES)
    ensures IsFill(Fill(n, g != 0)) && OkWord(Fill(n, g != 0)) && FillCount(Fill(n, g != 0)) == n
    ensures Groups(Fill(n, g != 0)) == Repeat(g, n)
  {}

  lemma BuiltRun(ws: seq<Word>, ws': seq<Word>, op: Op, w1: seq<Word>, w2: seq<Word>,
                 p: nat, n: nat, x: nat, y: nat)
    requires |Expand(w1)| == |Expand(w2)| && Built(ws, op, w1, w2, p)
    requires IsRun(Expand(w1), p, n, x) && IsRun(Expand(w2), p, n, y)
    requires Packed(ws') && Expand(ws') == Expand(ws) + Repeat(Logic(op, x, y, GROUP), n)
    ensures Built(ws', op, w1, w2, p + n)
  {
    ExtendCombine(op, Expand(w1), Expand(w2), p, n, x, y);
  }

  /** Pushes the operator applied to the current runs of two vectors. */
  method PushAhead(op: Op, b: Builder, i1: Iter, i2: Iter) returns (n: nat)
    requires InStep(i1, i2) && !i1.Ended() && !i2.Ended()
    requires |Expand(i1.words)| < ONES && Built(b.words, op, i1.words, i2.words, i1.pos)
    modifies b
    ensures 1 <= n <= i1.cnt && n <= i2.cnt && (n == i1.cnt || n == i2.cnt)
    ensures Built(b.words, op, i1.words, i2.words, i1.pos + n)
    ensures b.words != [] && |b.words| <= |old(b.words)| + 1
  {
    ghost var p := i1.pos;
    RunsAhead(i1, i2);
    n := if !(i1.isFill && i2.isFill) then 1 else if i1.cnt <= i2.cnt then i1.cnt else i2.cnt;
    PushRun(op, b, i1.words, i2.words, p, n, i1.val, i2.val, i1.isFill && i2.isFill);
    assert i1.pos == p;
  }

  /** Pushes the operator applied to n groups x against n groups y: all fills, or one of each. */
  method PushRun(op: Op, b: Builder, ghost w1: seq<Word>, ghost w2: seq<Word>, ghost p: nat, n: nat, x: nat, y: nat, fills: bool)
    requires |Expand(w1)| == |Expand(w2)| < ONES && Built(b.words, op, w1, w2, p)
    requires 1 <= n && IsRun(Expand(w1), p, n, x) && IsRun(Expand(w2), p, n, y)
    requires if fills then (x == 0 || x == ALL_ONES) && (y == 0 || y == ALL_ONES) else n == 1
    modifies b
    ensures Built(b.words, op, w1, w2, p + n) && b.words != [] && |b.words| <= |old(b.words)| + 1
  {
    if fills { PushFills(op, b, w1, w2, p, n, x, y); } else { PushLites(op, b, w1, w2, p, x, y); }
  }

  /** Pushes the next run of two vectors and consumes it. */
  method PushNext(op: Op, b: Builder, i1: Iter, i2: Iter)
    requires InStep(i1, i2) && !i1.Ended() && !i2.Ended() && Packed(i1.words) && Packed(i2.words)
    requires |Expand(i1.words)| < ONES && Built(b.words, op, i1.words, i2.words, i1.pos)
    modifies b, i1, i2
    ensures InStep(i1, i2) && i1.pos > old(i1.pos)
    ensures Built(b.words, op, i1.words, i2.words, i1.pos)
    ensures b.words != [] && |b.words| <= |old(b.words)| + 1
    ensures i1.cur + i2.cur >= old(i1.cur + i2.cur) + 1
    ensures i1.Ended() ==> i1.cur + i2.cur == old(i1.cur + i2.cur) + 2
  {
    var n := PushAhead(op, b, i1, i2);
    Advance(i1, i2, n);
  }

  /** AND, OR and AND-NOT. The result keeps the rem field of r. */
  method DoBinary(op: Op, r: Vector, v1: Vector, v2: Vector)
    requires v1.Valid() && v2.Valid() && v1.rem == v2.rem && |Expand(v1.words)| == |Expand(v2.words)|
    modifies r
    ensures r.rem == old(r.rem)
    ensures !old(Unsafe(op, v1.words, v2.words, v1.rem)) ==>
              IsResult(op, old(v1.words), old(v2.words), r.words, old(v1.rem))
    ensures old(Unsafe(op, v1.words, v2.words, v1.rem)) ==> |Expand(r.words)| == |old(Expand(v1.words))| - 1
    ensures |r.words| <= |old(v1.words)| + |old(v2.words)| - 1
  {
    var w1, w2, rem := v1.words, v2.words, v1.rem;
    var b := PushAll(op, w1, w2);
    ghost var packed := b.words;
    var ws := b.Fix(rem);
    ResultFixed(op, w1, w2, packed, rem);
    r.words := ws;
  }

  /** Pushes the operator applied to all runs of two vectors. */
  method PushAll(op: Op, w1: seq<Word>, w2: seq<Word>) returns (b: Builder)
    requires Packed(w1) && Packed(w2) && w1 != [] && w2 != [] && |Expand(w1)| == |Expand(w2)| < ONES
    ensures fresh(b) && Packed(b.words) && b.words != [] && |b.words| <= |w1| + |w2| - 1
    ensures Expand(b.words) == Combine(op, Expand(w1), Expand(w2))
  {
    b := new Builder();
    var i1 := new Iter(w1);
    var i2 := new Iter(w2);
    while !i1.Ended()
      modifies b, i1, i2
      invariant InStep(i1, i2) && i1.words == w1 && i2.words == w2
      invariant fresh(b) && fresh(i1) && fresh(i2)
      invariant Built(b.words, op, w1, w2, i1.pos) && (i1.pos > 0 ==> b.words != [])
      invariant |b.words| <= i1.cur + i2.cur - (if i1.Ended() then 1 else 0)
      decreases |Expand(w1)| - i1.pos
    {
      EndTogether(i1, i2);
      PushNext(op, b, i1, i2);
    }
    EndTogether(i1, i2);
    PackedNonEmpty(w1);
  }

  lemma ResultFixed(op: Op, w1: seq<Word>, w2: seq<Word>, ws: seq<Word>, rem: nat)
    requires Canonical(w1, rem) && Canonical(w2, rem) && |Expand(w1)| == |Expand(w2)| < ONES
    requires Packed(ws) && ws != [] && Expand(ws) == Combine(op, Expand(w1), Expand(w2))
    ensures !Unsafe(op, w1, w2, rem) ==> IsResult(op, w1, w2, Fixed(ws, rem), rem)
    ensures Unsafe(op, w1, w2, rem) ==> |Expand(Fixed(ws, rem))| == |Expand(w1)| - 1
  {
    FixedCorrect(ws, rem);
    if !Unsafe(op, w1, w2, rem) {
      CombinePointwise(op, Expand(w1), Expand(w2), Expand(Fixed(ws, rem)), rem);
    }
  }

  /** AND and AND-NOT are always safe. */
  lemma AlwaysSafe(op: Op, w1: seq<Word>, w2: seq<Word>, rem: nat)
    requires Canonical(w1, rem) && Canonical(w2, rem) && |Expand(w1)| == |Expand(w2)|
    requires op != Or
    ensures !Unsafe(op, w1, w2, rem)
  {
    PackedNonEmpty(w1);
    if rem != 0 {
      CanonicalLast(w1, rem);
      CanonicalLast(w2, rem);
    }
    NeverLoses(op, Expand(w1), Expand(w2), rem);
  }

  /** Pushes the complement of the current word and moves to the next one. */
  method NegateNext(b: Builder, i: Iter, ghost ones: seq<Word>)
    requires i.Valid() && !i.Ended() && i.cnt == Count(i.words[i.cur]) && Packed(i.words)
    requires |Expand(ones)| == |Expand(i.words)| < ONES
    requires forall k :: 0 <= k < |Expand(ones)| ==> Expand(ones)[k] == ALL_ONES
    requires Built(b.words, Reset, ones, i.words, i.pos)
    modifies b, i
    ensures i.Valid() && i.cur == old(i.cur) + 1 && (!i.Ended() ==> i.cnt == Count(i.words[i.cur]))
    ensures Built(b.words, Reset, ones, i.words, i.pos) && b.words != []
  {
    NegateAhead(b, i, ones);
    ghost var p := i.pos + i.cnt;
    assert Offset(i.words, i.cur + 1) == p;
    i.Next();
    assert i.pos == p;
  }

  method NegateAhead(b: Builder, i: Iter, ghost ones: seq<Word>)
    requires i.Valid() && !i.Ended() && i.cnt == Count(i.words[i.cur])
    requires |Expand(ones)| == |Expand(i.words)| < ONES
    requires forall k :: 0 <= k < |Expand(ones)| ==> Expand(ones)[k] == ALL_ONES
    requires Built(b.words, Reset, ones, i.words, i.pos)
    modifies b
    ensures Built(b.words, Reset, ones, i.words, i.pos + i.cnt) && b.words != []
  {
    ghost var p := i.pos;
    RunOf(i, i.cnt);
    PushRun(Reset, b, ones, i.words, p, i.cnt, ALL_ONES, i.val, i.isFill);
    assert i.pos == p;
  }

  /** Negation of every bit. */
  method DoNot(r: Vector, v: Vector)
    requires v.Valid()
    modifies r
    ensures r.rem == old(r.rem)
    ensures IsNegation(old(v.words), r.words, old(v.rem))
  {
    var ws, rem := v.words, v.rem;
    var b := new Builder();
    var i := new Iter(ws);
    ghost var ones := [Fill(|Expand(ws)|, true)];
    assert Expand(ones) == Repeat(ALL_ONES, |Expand(ws)|) by { ExpandOne(ones[0]); }
    while !i.Ended()
      modifies b, i
      invariant i.Valid() && i.words == ws
      invariant fresh(b) && fresh(i)
      invariant !i.Ended() ==> i.cnt == Count(ws[i.cur])
      invariant Built(b.words, Reset, ones, ws, i.pos) && (i.cur > 0 ==> b.words != [])
      decreases |ws| - i.cur
    {
      NegateNext(b, i, ones);
    }
    ghost var packed := b.words;
    var fixed := b.Fix(rem);
    NegationFixed(ws, packed, rem);
    r.words := fixed;
  }

  lemma NegationFixed(w: seq<Word>, ws: seq<Word>, rem: nat)
    requires Canonical(w, rem) && |Expand(w)| < ONES
    requires Packed(ws) && ws != [] && Expand(ws) == Complement(Expand(w))
    ensures IsNegation(w, Fixed(ws, rem), rem)
  {
    var e := Expand(w);
    PackedNonEmpty(w);
    if rem != 0 { CanonicalLast(w, rem); }
    NeverLoses(Reset, Repeat(ALL_ONES, |e|), e, rem);
    FixedCorrect(ws, rem);
    ComplementNegated(e, Expand(Fixed(ws, rem)), rem);
  }

  /** Negating twice gives the same words back. */
  lemma NegationInvolutive(w: seq<Word>, w': seq<Word>, w'': seq<Word>, rem: nat)
    requires rem < GROUP && Canonical(w, rem)
    requires IsNegation(w, w', rem) && IsNegation(w', w'', rem)
    ensures w'' == w
  {
    var e, e', e'' := Expand(w), Expand(w'), Expand(w'');
    forall i: nat | i < BitLength(|e|, rem) ensures BitAt(e'', i) == BitAt(e, i) {
      assert BitAt(e', i) == !BitAt(e, i);
    }
    CanonicalUnique(w'', w, rem);
  }

  /** a and not b: AND-NOT is AND with the negation, word for word. */
  lemma ResetIsAndNot(a: seq<Word>, b: seq<Word>, n: seq<Word>, r: seq<Word>, r': seq<Word>, rem: nat)
    requires rem < GROUP && IsNegation(b, n, rem)
    requires IsResult(And, a, n, r, rem) && IsResult(Reset, a, b, r', rem)
    ensures r == r'
  {
    var e, f, m := Expand(a), Expand(b), Expand(n);
    forall i: nat | i < BitLength(|e|, rem) ensures BitAt(Expand(r), i) == BitAt(Expand(r'), i) {
      assert BitAt(m, i) == !BitAt(f, i);
    }
    CanonicalUnique(r, r', rem);
  }

  // ---- one bit ----

  function BitOp(value: bool): Op { if value then Or else Reset }

  /** Setting a bit of an empty group, or clearing one of a full group, makes a literal;
      the other way round nothing changes. */
  lemma SplitGroup(j: nat, value: bool, g: nat)
    requires j < GROUP
    ensures IsLogic(BitOp(value), FillGroup(!value), Pow2(j), g) ==> IsLiteral(g)
    ensures IsLogic(BitOp(value), FillGroup(value), Pow2(j), g) ==> g == FillGroup(value)
  {
    OnesBits(GROUP);
    PowBit(j, j);
    var other := if j == 0 then 1 else 0;
    PowBit(j, other);
    if IsLogic(BitOp(value), FillGroup(!value), Pow2(j), g) {
      assert Bit(g, j) == value && Bit(g, other) == !value;
      ZeroBit(j);
      ZeroBit(other);
      GroupPow();
      assert g != 0 && g != ALL_ONES;
    }
    if IsLogic(BitOp(value), FillGroup(value), Pow2(j), g) {
      if value { FullIsOnes(g); } else { NoBitsIsZero(g); }
    }
  }

  /** Assigning a bit of a fill the value it has changes nothing. */
  lemma SameGroups(w: Word, before: nat, j: nat, value: bool)
    requires OkWord(w) && IsFill(w) && (Group(w) != 0) == value && before < Count(w) && j < GROUP
    ensures Assign(Groups(w), before, j, value) == Groups(w)
  {
    LogicIs(BitOp(value), Group(w), Pow2(j));
    GroupPow();
    SplitGroup(j, value, Logic(BitOp(value), Group(w), Pow2(j), GROUP));
    assert Groups(w)[before] == Group(w);
  }

  /** Pushes the groups of word w with bit j of group number before set or cleared. */
  method PushAssigned(b: Builder, w: Word, before: nat, j: nat, value: bool)
    requires Packed(b.words) && OkWord(w) && before < Count(w) && j < GROUP
    requires b.words != [] ==> !SameFill(b.words[|b.words| - 1], w)
    requires |Expand(b.words)| + Count(w) < ONES
    modifies b
    ensures Packed(b.words) && b.words != []
    ensures Expand(b.words) == old(Expand(b.words)) + Assign(Groups(w), before, j, value)
  {
    var g := Logic(BitOp(value), Group(w), Pow2(j), GROUP);
    LogicIs(BitOp(value), Group(w), Pow2(j));
    GroupPow();
    if !IsFill(w) {
      assert Assign(Groups(w), before, j, value) == [g];
      b.PushLite(g);
    } else {
      SplitGroup(j, value, g);
      if (Group(w) != 0) == value {
        SameGroups(w, before, j, value);
        PackedPush(b.words, w);
        ExpandPush(b.words, w);
        b.PushRaw(w);
      } else {
        PushSplit(b, w, before, g);
        assert Assign(Groups(w), before, j, value) == Groups(w)[before := g];
      }
    }
  }

  /** Splits a fill around one of its groups. */
  method PushSplit(b: Builder, w: Word, before: nat, g: nat)
    requires Packed(b.words) && IsFill(w) && before < FillCount(w) && IsLiteral(g)
    requires b.words != [] ==> !SameFill(b.words[|b.words| - 1], w)
    requires |Expand(b.words)| + FillCount(w) < ONES
    modifies b
    ensures Packed(b.words) && b.words != []
    ensures Expand(b.words) == old(Expand(b.words)) + Groups(w)[before := g]
  {
    var after := FillCount(w) - before - 1;
    ghost var e, x := Expand(b.words), Group(w);
    assert Groups(w) == Repeat(x, before + 1 + after);
    SplitRun(e, x, before, after, g);
    PushFillRaw(b, before, IsOnes(w));
    assert Expand(b.words) == e + Repeat(x, before);
    b.PushLite(g);
    assert Expand(b.words) == e + Repeat(x, before) + [g];
    PushFillRaw(b, after, IsOnes(w));
  }

  lemma SplitRun(e: seq<nat>, x: nat, before: nat, after: nat, g: nat)
    ensures e + Repeat(x, before) + [g] + Repeat(x, after) == e + Repeat(x, before + 1 + after)[before := g]
  {}

  /** Pushes a fill of n groups, if any. */
  method PushFillRaw(b: Builder, n: nat, ones: bool)
    requires Packed(b.words) && n < ONES
    requires b.words != [] ==> !IsFill(b.words[|b.words| - 1]) || IsOnes(b.words[|b.words| - 1]) != ones
    modifies b
    ensures b.words == if n == 0 then old(b.words) else old(b.words) + [Fill(n, ones)]
    ensures Packed(b.words)
    ensures Expand(b.words) == old(Expand(b.words)) + Repeat(FillGroup(ones), n)
  {
    if n != 0 {
      var f := Fill(n, ones);
      PackedPush(b.words, f);
      ExpandPush(b.words, f);
      assert Groups(f) == Repeat(FillGroup(ones), n);
      b.PushRaw(f);
    } else {
      assert Expand(b.words) + Repeat(FillGroup(ones), 0) == Expand(b.words);
    }
  }

  /** Sets or clears one bit. */
  method SetTo(v: Vector, index: nat, value: bool)
    requires v.Valid() && index < v.Length() < 0x8000_0000 && Divides(index)
    modifies v
    ensures v.rem == old(v.rem)
    ensures !LosesGroup(old(Assigning(v, index, value)), v.rem) ==>
              v.Valid() && Assigned(old(Expand(v.words)), index, value, Expand(v.words), v.rem)
    ensures LosesGroup(old(Assigning(v, index, value)), v.rem) ==>
              |Expand(v.words)| == |old(Expand(v.words))| - 1
  {
    var ws, rem := v.words, v.rem;
    ghost var e := Expand(ws);
    var b := new Builder();
    var i := new Iter(ws);
    while !i.Ended()
      modifies b, i, v
      invariant v.words == ws && v.rem == rem
      invariant i.Valid() && i.Indexed() && i.words == ws && fresh(i) && fresh(b)
      invariant i.pos == Offset(ws, i.cur) && GROUP * i.pos <= index
      invariant !i.Ended() ==> i.cnt == Count(ws[i.cur])
      invariant b.words == ws[..i.cur]
      decreases |ws| - i.cur
    {
      i.Ahead();
      if index < i.i || index >= i.ii {
        assert ws[..i.cur + 1] == ws[..i.cur] + [ws[i.cur]];
        b.PushRaw(ws[i.cur]);
        i.Next();
      } else {
        var fixed := AssignAndFix(ws, i, b, index, value, rem);
        v.words := fixed;
        return;
      }
    }
    OffsetEnd(ws);
    assert false;
  }

  /** The groups of v with one bit changed, before packing. */
  ghost function Assigning(v: Vector, index: nat, value: bool): seq<nat>
    requires v.Valid() && index < v.Length()
    reads v
  {
    Assign(Expand(v.words), index / GROUP, index % GROUP, value)
  }

  lemma AssignFixed(w: seq<Word>, ws: seq<Word>, index: nat, value: bool, rem: nat)
    requires Canonical(w, rem) && |Expand(w)| < ONES && index < BitLength(|Expand(w)|, rem)
    requires Packed(ws) && ws != [] && Expand(ws) == Assign(Expand(w), index / GROUP, index % GROUP, value)
    ensures !LosesGroup(Expand(ws), rem) ==>
              Canonical(Fixed(ws, rem), rem) && Assigned(Expand(w), index, value, Expand(Fixed(ws, rem)), rem)
    ensures LosesGroup(Expand(ws), rem) ==> |Expand(Fixed(ws, rem))| == |Expand(w)| - 1
  {
    FixedCorrect(ws, rem);
    if !LosesGroup(Expand(ws), rem) {
      AssignAssigned(Expand(w), index, value, Expand(Fixed(ws, rem)), rem);
    }
  }

  /** The branch of SetTo for the word that holds the bit. */
  method AssignAndFix(ws: seq<Word>, i: Iter, b: Builder, index: nat, value: bool, rem: nat) returns (fixed: seq<Word>)
    requires Canonical(ws, rem) && |Expand(ws)| < ONES && index < BitLength(|Expand(ws)|, rem) && Divides(index)
    requires i.words == ws && i.Valid() && !i.Ended() && i.Indexed()
    requires i.pos == Offset(ws, i.cur) && i.cnt == Count(ws[i.cur])
    requires i.i <= index < i.ii && b.words == ws[..i.cur]
    modifies i, b
    ensures index / GROUP < |Expand(ws)|
    ensures var packed := Assign(Expand(ws), index / GROUP, index % GROUP, value);
            && (!LosesGroup(packed, rem) ==> Canonical(fixed, rem) && Assigned(Expand(ws), index, value, Expand(fixed), rem))
            && (LosesGroup(packed, rem) ==> |Expand(fixed)| == |Expand(ws)| - 1)
  {
    AssignWord(ws, i, b, index, value);
    ghost var packed := b.words;
    fixed := b.Fix(rem);
    AssignFixed(ws, packed, index, value, rem);
  }

  /** Changes the word that holds the bit and pushes the tail. */
  method AssignWord(ws: seq<Word>, i: Iter, b: Builder, index: nat, value: bool)
    requires Packed(ws) && |Expand(ws)| < ONES && i.words == ws && i.Valid() && !i.Ended() && i.Indexed()
    requires i.pos == Offset(ws, i.cur) && i.cnt == Count(ws[i.cur])
    requires i.i <= index < i.ii && Divides(index) && b.words == ws[..i.cur]
    modifies i, b
    ensures Packed(b.words) && b.words != []
    ensures index / GROUP < |Expand(ws)|
    ensures Expand(b.words) == Assign(Expand(ws), index / GROUP, index % GROUP, value)
  {
    var c := i.cur;
    var before, j := Div(index - i.i), Mod(index);
    LocateBit(index, i.pos, i.cnt);
    AssignThere(ws, c, index, before, j, value);
    AssignAt(ws, i, b, before, j, value);
  }

  /** The groups with one bit of word c changed. */
  lemma AssignThere(ws: seq<Word>, c: nat, index: nat, before: nat, j: nat, value: bool)
    requires Packed(ws) && c < |ws| && before < Count(ws[c])
    requires index / GROUP == Offset(ws, c) + before && index % GROUP == j
    ensures index / GROUP < |Expand(ws)|
    ensures Expand(ws[..c]) + Assign(Groups(ws[c]), before, j, value) + Expand(ws[c + 1..])
            == Assign(Expand(ws), index / GROUP, index % GROUP, value)
  {
    PrefixOf(ws, c);
    AssignMiddle(Expand(ws[..c]), Groups(ws[c]), Expand(ws[c + 1..]), before, j, value);
  }

  /** Pushes the current word with one bit changed, then the words after it. */
  method AssignAt(ws: seq<Word>, i: Iter, b: Builder, before: nat, j: nat, value: bool)
    requires Packed(ws) && |Expand(ws)| < ONES && i.words == ws && i.cur < |ws|
    requires before < Count(ws[i.cur]) && j < GROUP && b.words == ws[..i.cur]
    modifies i, b
    ensures Packed(b.words) && b.words != []
    ensures var c := old(i.cur);
            Expand(b.words) == Expand(ws[..c]) + Assign(Groups(ws[c]), before, j, value) + Expand(ws[c + 1..])
  {
    PrefixOf(ws, i.cur);
    assert OkWord(ws[i.cur]);
    PushAssigned(b, ws[i.cur], before, j, value);
    i.PushTail(b);
  }

  lemma PrefixOf(ws: seq<Word>, c: nat)
    requires Packed(ws) && c < |ws|
    ensures Packed(ws[..c]) && (c > 0 ==> !SameFill(ws[..c][c - 1], ws[c]))
    ensures |Expand(ws[..c])| == Offset(ws, c)
    ensures Expand(ws) == Expand(ws[..c]) + Groups(ws[c]) + Expand(ws[c + 1..])
  {
    PackedSlice(ws, 0, c);
    assert ws[0..c] == ws[..c];
    OffsetExpand(ws, c);
    ExpandPrefix(ws, ws[..c], c);
    ExpandAround(ws, c);
  }

  lemma LocateBit(index: nat, p: nat, n: nat)
    requires GROUP * p <= index < GROUP * (p + n) && Divides(index)
    ensures Div(index - GROUP * p) < n && index / GROUP == p + Div(index - GROUP * p)
    ensures Mod(index) == index % GROUP
  {
    DivExact(index);
    DividesLess(index, p);
  }

  lemma AssignMiddle(a: seq<nat>, b: seq<nat>, c: seq<nat>, k: nat, j: nat, v: bool)
    requires k < |b|
    ensures a + Assign(b, k, j, v) + c == Assign(a + b + c, |a| + k, j, v)
  {
    var s := a + b + c;
    assert s[|a| + k] == b[k];
  }
}
