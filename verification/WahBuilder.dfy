/** The two helpers of the compressed vector operations: a builder that packs words as they
    are pushed, and an iterator that consumes the groups of a word sequence by runs. */
module WahBuilder {
  import opened Bits
  import opened WahWords

  /** The bits a group keeps in a partial last group of rem bits. */
  function Kept(g: nat, rem: nat): (k: nat)
    ensures k < FILL
  {
    GroupPow();
    Logic(And, g, Mask(rem), GROUP)
  }

  predicate IsLiteral(g: nat) { 0 < g < ALL_ONES }

  /** When the last group becomes empty or full once its padding is cleared, the builder looks
      at bit 30 of the word before it without testing that this word is a fill. */
  predicate LosesGroup(gs: seq<nat>, rem: nat) {
    && rem != 0
    && |gs| >= 2
    && IsLiteral(gs[|gs| - 1])
    && IsLiteral(gs[|gs| - 2])
    && ((Kept(gs[|gs| - 1], rem) == 0 && gs[|gs| - 2] < ONES)
        || (Kept(gs[|gs| - 1], rem) == Mask(rem) && gs[|gs| - 2] >= ONES))
  }

  lemma KeptBits(g: nat, rem: nat)
    requires rem < GROUP
    ensures Kept(g, rem) < Pow2(GROUP) && SameBits(Kept(g, rem), g, rem)
    ensures Kept(g, rem) <= Mask(rem) < ALL_ONES
  {
    forall i: nat | i < GROUP ensures Bit(Kept(g, rem), i) == (Bit(g, i) && i < rem) {
      LogicBit(And, g, Mask(rem), GROUP, i);
      MaskBit(rem, i);
    }
    KeptBelow(Kept(g, rem), rem, GROUP);
    PowMonotone(rem, 30);
    GroupPow();
  }

  lemma {:induction false} KeptBelow(w: nat, r: nat, n: nat)
    requires w < Pow2(n) && r <= n
    requires forall i: nat :: r <= i < n ==> !Bit(w, i)
    ensures w < Pow2(r)
    decreases n
  {
    if r < n {
      if r == 0 {
        forall i: nat | i < n ensures Bit(w, i) == Bit(0, i) { ZeroBit(i); }
        BitsDetermine(w, 0, n);
      } else {
        forall i: nat | r - 1 <= i < n - 1 ensures !Bit(w / 2, i) { assert !Bit(w, i + 1); }
        KeptBelow(w / 2, r - 1, n - 1);
      }
    }
  }

  lemma ReplaceLast(e: seq<nat>, g: nat, rem: nat)
    requires e != [] && 0 < rem < GROUP && SameBits(e[|e| - 1], g, rem)
    ensures SameVector(e, e[|e| - 1 := g], rem)
  {
    forall i: nat | i < BitLength(|e|, rem) ensures BitAt(e, i) == BitAt(e[|e| - 1 := g], i) {
      GroupOfBit(|e|, rem, i);
    }
  }

  /** Packed words and the groups they end with. */
  lemma LastLiteral(ws: seq<Word>)
    requires Packed(ws) && ws != []
    ensures Expand(ws) != []
    ensures IsFill(ws[|ws| - 1]) <==> !IsLiteral(Expand(ws)[|Expand(ws)| - 1])
    ensures !IsFill(ws[|ws| - 1]) ==>
              && Expand(ws)[|Expand(ws)| - 1] == ws[|ws| - 1]
              && (|Expand(ws)| >= 2 <==> |ws| >= 2)
    ensures !IsFill(ws[|ws| - 1]) && |ws| >= 2 ==>
              && (IsFill(ws[|ws| - 2]) <==> !IsLiteral(Expand(ws)[|Expand(ws)| - 2]))
              && (!IsFill(ws[|ws| - 2]) ==> Expand(ws)[|Expand(ws)| - 2] == ws[|ws| - 2])
  {
    assert OkWord(ws[|ws| - 1]);
    var init := ws[..|ws| - 1];
    ExpandLast(ws);
    if init != [] {
      assert OkWord(ws[|ws| - 2]);
      assert init[|init| - 1] == ws[|ws| - 2];
      ExpandLast(init);
    }
  }

  /** Growing the last fill keeps a sequence packed. */
  lemma MergedLast(ws: seq<Word>, ws': seq<Word>)
    requires Packed(ws) && |ws'| == |ws| > 0 && ws' == ws[|ws| - 1 := ws'[|ws| - 1]]
    requires SameFill(ws[|ws| - 1], ws'[|ws| - 1]) && FillCount(ws'[|ws| - 1]) >= 1
    ensures Packed(ws') && ws'[..|ws| - 1] == ws[..|ws| - 1]
  {
    var last := |ws| - 1;
    assert ws'[..last] == ws[..last];
    PackedSlice(ws, 0, last);
    assert ws[0..last] == ws[..last];
    PackedPush(ws[..last], ws'[last]);
    assert ws' == ws[..last] + [ws'[last]];
  }

  class Builder {
    var words: seq<Word>

    constructor ()
      ensures words == []
    {
      words := [];
    }

    method PushRaw(w: Word)
      modifies this
      ensures words == old(words) + [w]
    {
      words := words + [w];
    }

    method PushFill(w: Word)
      requires Packed(words) && IsFill(w) && OkWord(w)
      requires |Expand(words)| + FillCount(w) < ONES
      modifies this
      ensures Packed(words) && words != []
      ensures Expand(words) == old(Expand(words)) + Groups(w)
      ensures |old(words)| <= |words| <= |old(words)| + 1
      ensures SameFill(w, words[|words| - 1])
    {
      if |words| != 0 && IsFill(w) == IsFill(words[|words| - 1]) && IsOnes(w) == IsOnes(words[|words| - 1]) {
        var last := |words| - 1;
        assert FillCount(words[last]) <= |Expand(words)|;
        MergeFills(words[last], w);
        words := words[last := words[last] + FillCount(w)];
        MergedLast(old(words), words);
        ExpandLast(old(words));
        ExpandLast(words);
        Associates(Expand(words[..last]), Groups(old(words)[last]), Groups(w));
      } else {
        ExpandPush(words, w);
        PackedPush(words, w);
        PushRaw(w);
      }
    }

    /** A literal that is all zeroes or all ones becomes a fill. */
    method PushLite(w: Word)
      requires Packed(words) && !IsFill(w)
      requires |Expand(words)| + 1 < ONES
      modifies this
      ensures Packed(words) && words != []
      ensures Expand(words) == old(Expand(words)) + [w]
      ensures |old(words)| <= |words| <= |old(words)| + 1
      ensures OkWord(w) ==> words == old(words) + [w]
    {
      if w == 0 {
        PushFill(Fill(1, false));
      } else if w == ALL_ONES {
        PushFill(Fill(1, true));
      } else {
        ExpandPush(words, w);
        PackedPush(words, w);
        PushRaw(w);
      }
    }

    method Push(w: Word)
      requires Packed(words) && OkWord(w)
      requires |Expand(words)| + |Groups(w)| < ONES
      modifies this
      ensures Packed(words) && words != []
      ensures Expand(words) == old(Expand(words)) + Groups(w)
      ensures IsFill(w) == IsFill(words[|words| - 1])
      ensures IsFill(w) ==> SameFill(w, words[|words| - 1])
    {
      if IsFill(w) { PushFill(w); } else { PushLite(w); }
    }

    method CopyAll(ws: seq<Word>)
      modifies this
      ensures words == old(words) + ws
    {
      words := words + ws;
    }

    /** Clears the padding of a partial last group and packs it again; FixedCorrect
        tells what this means for the bits. */
    method Fix(rem: nat) returns (ws: seq<Word>)
      requires words != [] && rem < GROUP
      modifies this
      ensures ws == Fixed(old(words), rem) && |ws| <= |old(words)|
    {
      var last := |words| - 1;
      var s := |words|;
      ghost var init := words[..last];
      if rem != 0 && !IsFill(words[last]) {
        words := words[last := Kept(words[last], rem)];
        if words[last] == 0 {
          if s >= 2 && !IsOnes(words[last - 1]) {
            words := words[last - 1 := Incr(words[last - 1])];
            s := s - 1;
          } else {
            words := words[last := Fill(1, false)];
          }
        } else if words[last] == Mask(rem) {
          if s >= 2 && IsOnes(words[last - 1]) {
            words := words[last - 1 := Incr(words[last - 1])];
            s := s - 1;
          } else {
            words := words[last := Fill(1, true)];
          }
        }
      }
      ws := words[..s];
      if s == last {
        assert ws == init[..last - 1] + [words[last - 1]];
      } else {
        assert ws == init + [words[last]];
      }
    }
  }

  /** w++ on 32 bits */
  function Incr(w: Word): Word { if w == 0xffff_ffff then 0 else w + 1 }

  /** The words left by Fix when the last word is w. */
  function FixedLast(init: seq<Word>, w: Word, rem: nat): seq<Word>
    requires rem < GROUP
  {
    var m := Kept(w, rem);
    if rem == 0 || IsFill(w) then init + [w]
    else if m == 0 || m == Mask(rem) then
      var ones := m != 0;
      if init != [] && IsOnes(init[|init| - 1]) == ones
      then init[..|init| - 1] + [Incr(init[|init| - 1])]
      else init + [Fill(1, ones)]
    else init + [m]
  }

  function Fixed(ws: seq<Word>, rem: nat): seq<Word>
    requires ws != [] && rem < GROUP
  {
    FixedLast(ws[..|ws| - 1], ws[|ws| - 1], rem)
  }

  /** s and t differ at most in their last element, which is y in t. */
  ghost predicate LastBecomes(s: seq<nat>, t: seq<nat>, y: nat) {
    |s| == |t| > 0 && t == s[|s| - 1 := y]
  }

  lemma UpdateLast(a: seq<nat>, b: seq<nat>, x: nat, y: nat)
    ensures LastBecomes(a + b + [x], a + (b + [y]), y)
  {}

  /** Incrementing the fill v before the last literal w and dropping w. */
  lemma CollapsedFill(init: seq<Word>, v: Word, w: Word)
    requires IsFill(v) && FillCount(v) + 1 < ONES && !IsFill(w)
    ensures LastBecomes(Expand(init + [v] + [w]), Expand(init + [v + 1]), FillGroup(IsOnes(v)))
  {
    var g := FillGroup(IsOnes(v));
    ExpandPush(init, v);
    ExpandPush(init + [v], w);
    ExpandPush(init, v + 1);
    assert Groups(w) == [w];
    assert Groups(v + 1) == Groups(v) + [g];
    UpdateLast(Expand(init), Groups(v), w, g);
  }

  /** The same on a literal v: one group is lost. */
  lemma CollapsedLiteral(init: seq<Word>, v: Word, w: Word)
    requires v < ALL_ONES && !IsFill(w)
    ensures |Expand(init + [v] + [w])| == |Expand(init + [v + 1])| + 1
  {
    ExpandPush(init, v);
    ExpandPush(init + [v], w);
    ExpandPush(init, v + 1);
  }

  lemma CollapsedPacked(init: seq<Word>, v: Word)
    requires Packed(init + [v]) && IsFill(v) && FillCount(v) + 1 < ONES
    ensures Packed(init + [v + 1])
  {
    assert (init + [v])[|init|] == v;
    assert OkWord(v);
    MergedLast(init + [v], init + [v + 1]);
  }

  lemma CollapsedLast(init: seq<Word>, v: Word, w: Word, rem: nat)
    requires Packed(init + [v] + [w]) && 0 < rem < GROUP && |Expand(init + [v] + [w])| < ONES
    requires !IsFill(w) && Kept(w, rem) == (if IsOnes(v) then Mask(rem) else 0)
    ensures v < 0xffff_ffff
    ensures if IsFill(v)
            then KeepsBits(init + [v] + [w], init + [v + 1], rem)
            else |Expand(init + [v + 1])| == |Expand(init + [v] + [w])| - 1
  {
    var words := init + [v] + [w];
    CountBeforeLast(init, v, w);
    assert words[|init|] == v;
    assert OkWord(v);
    if IsFill(v) {
      CollapsedFill(init, v, w);
      PackedSlice(words, 0, |init| + 1);
      assert words[0..|init| + 1] == init + [v];
      CollapsedPacked(init, v);
      UniformBits(w, rem);
      assert Mask(rem) > 0 by { PowMonotone(1, rem); }
      LastLiteral(words);
      ReplaceLast(Expand(words), FillGroup(IsOnes(v)), rem);
    } else {
      CollapsedLiteral(init, v, w);
    }
  }

  lemma CountBeforeLast(init: seq<Word>, v: Word, w: Word)
    requires |Expand(init + [v] + [w])| < ONES && !IsFill(w)
    ensures IsFill(v) ==> FillCount(v) + 1 < ONES
  {
    ExpandPush(init, v);
    ExpandPush(init + [v], w);
  }

  lemma SwapLast(init: seq<Word>, w: Word, w': Word)
    requires Count(w) == Count(w') == 1
    ensures LastBecomes(Expand(init + [w]), Expand(init + [w']), Group(w'))
    ensures Expand(init + [w])[|Expand(init + [w])| - 1] == Group(w)
  {
    ExpandPush(init, w);
    ExpandPush(init, w');
    var e := Expand(init);
    assert Groups(w) == [Group(w)] && Groups(w') == [Group(w')];
    assert (e + [Group(w)])[|e| := Group(w')] == e + [Group(w')];
  }

  /** Replacing the last literal w by a word for a group that agrees with it on rem bits. */
  lemma ReplacedLast(init: seq<Word>, w: Word, w': Word, rem: nat)
    requires Packed(init + [w]) && 0 < rem < GROUP && !IsFill(w)
    requires OkWord(w') && Count(w') == 1 && SameBits(w, Group(w'), rem)
    requires IsFill(w') || w' < Mask(rem)
    requires init != [] ==> !SameFill(init[|init| - 1], w')
    ensures KeepsBits(init + [w], init + [w'], rem)
  {
    PackedSlice(init + [w], 0, |init|);
    assert (init + [w])[0..|init|] == init;
    PackedPush(init, w');
    SwapLast(init, w, w');
    ReplaceLast(Expand(init + [w]), Group(w'), rem);
  }

  /** The fixed words stand for the same bits in canonical form. */
  ghost predicate KeepsBits(ws: seq<Word>, fixed: seq<Word>, rem: nat)
    requires rem < GROUP
  {
    Canonical(fixed, rem) && SameVector(Expand(ws), Expand(fixed), rem)
  }

  lemma UniformBits(w: nat, rem: nat)
    requires 0 < rem < GROUP && (Kept(w, rem) == 0 || Kept(w, rem) == Mask(rem))
    ensures SameBits(w, FillGroup(Kept(w, rem) != 0), rem)
  {
    KeptBits(w, rem);
    OnesBits(rem);
    assert Mask(rem) > 0 by { PowMonotone(1, rem); }
  }

  /** Fix on a last literal whose kept bits are all equal, after a word with that bit 30. */
  lemma FixedCollapse(init: seq<Word>, v: Word, w: Word, rem: nat)
    requires Packed(init + [v] + [w]) && 0 < rem < GROUP && |Expand(init + [v] + [w])| < ONES
    requires !IsFill(w) && Kept(w, rem) == (if IsOnes(v) then Mask(rem) else 0)
    ensures IsFill(v) ==> KeepsBits(init + [v] + [w], FixedLast(init + [v], w, rem), rem)
    ensures !IsFill(v) ==> |Expand(FixedLast(init + [v], w, rem))| == |Expand(init + [v] + [w])| - 1
  {
    CollapsedLast(init, v, w, rem);
    assert Mask(rem) > 0 by { PowMonotone(1, rem); }
    assert FixedLast(init + [v], w, rem) == init + [v + 1] by {
      assert (init + [v])[..|init|] == init;
    }
  }

  /** Fix on a last literal otherwise. */
  lemma FixedOther(init: seq<Word>, w: Word, rem: nat)
    requires Packed(init + [w]) && 0 < rem < GROUP && !IsFill(w)
    requires Kept(w, rem) == 0 || Kept(w, rem) == Mask(rem) ==>
               init != [] ==> IsOnes(init[|init| - 1]) != (Kept(w, rem) != 0)
    ensures KeepsBits(init + [w], FixedLast(init, w, rem), rem)
  {
    KeptBits(w, rem);
    GroupPow();
    var m := Kept(w, rem);
    if m == 0 || m == Mask(rem) {
      UniformBits(w, rem);
      ReplacedLast(init, w, Fill(1, m != 0), rem);
    } else {
      ReplacedLast(init, w, m, rem);
    }
  }

  /** The word before the last is read as a fill of the value the last group collapses to. */
  predicate Collapses(init: seq<Word>, w: Word, rem: nat)
    requires rem < GROUP
  {
    && rem != 0
    && !IsFill(w)
    && init != []
    && Kept(w, rem) == if IsOnes(init[|init| - 1]) then Mask(rem) else 0
  }

  lemma LosesOnLiteral(init: seq<Word>, w: Word, rem: nat)
    requires Packed(init + [w]) && rem < GROUP
    ensures LosesGroup(Expand(init + [w]), rem) <==> Collapses(init, w, rem) && !IsFill(init[|init| - 1])
  {
    LastLiteral(init + [w]);
    assert rem != 0 ==> Mask(rem) > 0 by { if rem != 0 { PowMonotone(1, rem); } }
  }

  lemma FixedNothing(init: seq<Word>, w: Word, rem: nat)
    requires Packed(init + [w]) && rem < GROUP && (rem == 0 || IsFill(w))
    ensures KeepsBits(init + [w], FixedLast(init, w, rem), rem)
  {}

  lemma FixedCollapses(init: seq<Word>, w: Word, rem: nat)
    requires Packed(init + [w]) && rem < GROUP && |Expand(init + [w])| < ONES && Collapses(init, w, rem)
    ensures IsFill(init[|init| - 1]) ==> KeepsBits(init + [w], FixedLast(init, w, rem), rem)
    ensures !IsFill(init[|init| - 1]) ==> |Expand(FixedLast(init, w, rem))| == |Expand(init + [w])| - 1
  {
    var front, v := init[..|init| - 1], init[|init| - 1];
    assert init == front + [v];
    FixedCollapse(front, v, w, rem);
  }

  lemma FixedKeeps(init: seq<Word>, w: Word, rem: nat)
    requires Packed(init + [w]) && rem < GROUP && !Collapses(init, w, rem)
    ensures KeepsBits(init + [w], FixedLast(init, w, rem), rem)
  {
    if rem == 0 || IsFill(w) {
      FixedNothing(init, w, rem);
    } else {
      assert Mask(rem) > 0 by { PowMonotone(1, rem); }
      FixedOther(init, w, rem);
    }
  }

  /** The vector keeps its bits, in canonical form, when the word inspected is not a misread
      literal; otherwise one of its groups disappears. */
  lemma FixedCorrect(ws: seq<Word>, rem: nat)
    requires Packed(ws) && ws != [] && rem < GROUP && |Expand(ws)| < ONES
    ensures !LosesGroup(Expand(ws), rem) ==> KeepsBits(ws, Fixed(ws, rem), rem)
    ensures LosesGroup(Expand(ws), rem) ==> |Expand(Fixed(ws, rem))| == |Expand(ws)| - 1
  {
    var w, init := ws[|ws| - 1], ws[..|ws| - 1];
    assert ws == init + [w];
    LosesOnLiteral(init, w, rem);
    if Collapses(init, w, rem) {
      FixedCollapses(init, w, rem);
    } else {
      FixedKeeps(init, w, rem);
    }
  }

  class Iter {
    const words: seq<Word>
    var cur: nat
    var isFill: bool
    var val: nat
    var cnt: nat
    var i: int
    var ii: int
    ghost var pos: nat  // number of groups consumed

    /** The current word has cnt groups left. */
    ghost predicate Valid()
      reads this
    {
      if cur >= |words| then cur == |words| && pos == |Expand(words)|
      else
        && isFill == IsFill(words[cur])
        && val == Group(words[cur])
        && 1 <= cnt <= Count(words[cur])
        && pos + cnt == Offset(words, cur) + Count(words[cur])
    }

    /** i and ii are the indices of the first bit not consumed and of the first bit after the word. */
    ghost predicate Indexed()
      reads this
    {
      cur < |words| ==> ii == GROUP * (Offset(words, cur) + Count(words[cur])) && i == ii - GROUP * cnt
    }

    predicate Ended()
      reads this
    {
      cur == |words|
    }

    /** The next cnt groups are the current one. */
    lemma Ahead()
      requires Valid() && !Ended()
      ensures pos + cnt <= |Expand(words)|
      ensures forall k :: pos <= k < pos + cnt ==> Expand(words)[k] == val
      ensures isFill ==> val == 0 || val == ALL_ONES
    {
      WordAt(words, cur);
    }

    constructor (ws: seq<Word>)
      requires ws != [] && Packed(ws)
      ensures Valid() && Indexed() && words == ws && cur == 0 && pos == 0
      ensures cnt == Count(ws[0])
    {
      words := ws;
      cur := 0;
      pos := 0;
      i := 0;
      isFill := IsFill(ws[0]);
      if IsFill(ws[0]) {
        cnt := FillCount(ws[0]);
        val := FillGroup(IsOnes(ws[0]));
        ii := TimesGroup(FillCount(ws[0]));
      } else {
        cnt := 1;
        val := ws[0];
        ii := TimesGroup(1);
      }
      new;
      assert OkWord(ws[0]);
    }

    /** Moves to the next word, whatever remains of the current one. */
    method Next()
      requires cur < |words| && Packed(words)
      modifies this
      ensures Valid() && cur == old(cur) + 1
      ensures pos == Offset(words, cur)
      ensures !Ended() ==> cnt == Count(words[cur])
      ensures old(Indexed()) ==> Indexed()
    {
      cur := cur + 1;
      pos := Offset(words, cur);
      if cur != |words| {
        i := ii;
        var w := words[cur];
        isFill := IsFill(w);
        if isFill {
          cnt := FillCount(w);
          val := FillGroup(IsOnes(w));
          ii := ii + TimesGroup(cnt);
        } else {
          cnt := 1;
          val := w;
          ii := ii + TimesGroup(1);
        }
        assert OkWord(w);
      } else {
        OffsetEnd(words);
      }
    }

    method Consume(c: nat)
      requires Valid() && !Ended() && 1 <= c <= cnt && Packed(words)
      modifies this
      ensures Valid() && pos == old(pos) + c
      ensures cur == if c == old(cnt) then old(cur) + 1 else old(cur)
      ensures old(Indexed()) ==> Indexed()
    {
      cnt := cnt - c;
      i := i + TimesGroup(c);
      pos := pos + c;
      if cnt == 0 { Next(); }
    }

    /** Pushes the words after the current one: the first may merge, the others are copied. */
    method PushTail(b: Builder)
      requires cur < |words| && Packed(words) && Packed(b.words) && b.words != []
      requires |Expand(b.words)| + |Expand(words[cur + 1..])| < ONES
      modifies this, b
      ensures Packed(b.words) && b.words != []
      ensures Expand(b.words) == old(Expand(b.words)) + old(Expand(words[cur + 1..]))
      ensures TailPushed(old(b.words), words, old(cur) + 1, b.words)
    {
      cur := cur + 1;
      if cur < |words| {
        ghost var tail := words[cur..];
        var w := words[cur];
        assert OkWord(w);
        ExpandFront(tail);
        cur := cur + 1;
        var rest := words[cur..];
        assert tail[1..] == rest;
        b.Push(w);
        ghost var front := b.words;
        CopiedRest(words, cur, b.words);
        b.CopyAll(rest);
        assert b.words == front + rest;
      }
    }
  }

  /** Word k was pushed, perhaps merging, and the words after it copied as they are. */
  ghost predicate TailPushed(before: seq<Word>, ws: seq<Word>, k: nat, after: seq<Word>)
    requires k <= |ws|
  {
    if k == |ws| then after == before
    else
      exists front :: after == front + ws[k + 1..] && Packed(front) && Expand(front) == Expand(before) + Groups(ws[k])
  }

  /** Two iterators that consumed as many groups of vectors of the same length. */
  ghost predicate InStep(i: Iter, j: Iter)
    reads i, j
  {
    && i != j && i.Valid() && j.Valid()
    && i.pos == j.pos && |Expand(i.words)| == |Expand(j.words)|
  }

  lemma EndTogether(i: Iter, j: Iter)
    requires InStep(i, j)
    ensures i.Ended() == j.Ended()
    ensures i.pos <= |Expand(i.words)| && (i.Ended() <==> i.pos == |Expand(i.words)|)
  {
    if !i.Ended() { i.Ahead(); }
    if !j.Ended() { j.Ahead(); }
  }

  /** Consumes n groups of both; the current word of one at least is finished when n is all it has. */
  method Advance(i: Iter, j: Iter, n: nat)
    requires InStep(i, j) && !i.Ended() && !j.Ended() && 1 <= n <= i.cnt && n <= j.cnt
    requires Packed(i.words) && Packed(j.words)
    modifies i, j
    ensures InStep(i, j) && i.pos == old(i.pos) + n
    ensures i.cur + j.cur >= old(i.cur + j.cur) + (if n == old(i.cnt) || n == old(j.cnt) then 1 else 0)
    ensures i.Ended() ==> i.cur + j.cur == old(i.cur + j.cur) + 2
  {
    i.Consume(n);
    j.Consume(n);
    EndTogether(i, j);
  }

  /** Copying the words from c on after a packed sequence that ends like word c - 1. */
  lemma CopiedRest(ws: seq<Word>, c: nat, ps: seq<Word>)
    requires Packed(ws) && 0 < c <= |ws| && Packed(ps) && ps != []
    requires IsFill(ws[c - 1]) == IsFill(ps[|ps| - 1])
    requires IsFill(ws[c - 1]) ==> SameFill(ws[c - 1], ps[|ps| - 1])
    ensures Packed(ps + ws[c..])
    ensures Expand(ps + ws[c..]) == Expand(ps) + Expand(ws[c..])
  {
    PackedSlice(ws, c, |ws|);
    assert ws[c..|ws|] == ws[c..];
    if c < |ws| { assert !SameFill(ws[c - 1], ws[c]); }
    PackedConcat(ps, ws[c..]);
    ExpandConcat(ps, ws[c..]);
  }
}
