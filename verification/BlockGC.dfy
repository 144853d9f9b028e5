/** The block allocator with garbage collection: blocks are cut from chunks, recycled through a free list,
    and collected by marking those in use and sweeping the others. Blocks are known by their numbers in the
    order of the chunks; the client's collect() is the list of pointers it marks. */
module BlockGC {
  import opened Arith
  import opened BlockLayout
  import opened Collections

  /** The unmarked numbers below n, the last swept first. */
  function Unmarked(marks: seq<bool>, n: nat): seq<nat>
    requires n <= |marks|
  {
    if n == 0 then [] else if marks[n - 1] then Unmarked(marks, n - 1) else [n - 1] + Unmarked(marks, n - 1)
  }

  predicate Descending(s: seq<nat>) {
    forall i, j :: 0 <= i < j < |s| ==> s[i] > s[j]
  }

  lemma {:induction false} UnmarkedIs(marks: seq<bool>, n: nat)
    requires n <= |marks|
    ensures forall k: nat :: k in Unmarked(marks, n) <==> k < n && !marks[k]
    ensures NoRepeat(Unmarked(marks, n)) && Descending(Unmarked(marks, n))
  {
    if n > 0 {
      UnmarkedIs(marks, n - 1);
      var t := Unmarked(marks, n - 1);
      forall i | 0 <= i < |t| ensures t[i] < n - 1 { assert t[i] in t; }
    }
  }

  /** Numbers of the blocks cut so far: all those of the chunks but the last, and k of the last. */
  function CutCount(l: Layout, chunks: nat, k: int): int
    requires l.Ok() && chunks >= 1
  {
    Times(chunks - 1, l.Per()) + k
  }

  lemma CutChunk(l: Layout, chunks: nat, k: nat, n: nat)
    requires l.Ok() && chunks >= 1 && k <= l.Per() && n < CutCount(l, chunks, k)
    ensures 0 <= ChunkOf(l, n) < chunks
  {
    PerIs(l);
    TimesNext(chunks - 1, l.Per());
    InChunks(l, n, chunks);
    Parts(l, n);
  }

  /** The pointers are those of the numbered blocks, all cut. */
  ghost predicate Pointers(l: Layout, chunks: seq<int>, k: nat, ptrs: seq<int>, nums: seq<nat>)
    requires l.Ok() && chunks != [] && k <= l.Per()
  {
    && |ptrs| == |nums|
    && forall i :: 0 <= i < |nums| ==> IsBlock(l, chunks, k, nums[i], ptrs[i])
  }

  ghost predicate IsBlock(l: Layout, chunks: seq<int>, k: nat, n: nat, p: int)
    requires l.Ok() && chunks != [] && k <= l.Per()
  {
    && n < CutCount(l, |chunks|, k)
    && 0 <= ChunkOf(l, n) < |chunks| && p == Ptr(chunks, l, n)
  }

  /** Block n, or a place in it. */
  ghost predicate PointsInto(l: Layout, chunks: seq<int>, k: nat, n: nat, p: int)
    requires l.Ok() && chunks != [] && k <= l.Per()
  {
    && n < CutCount(l, |chunks|, k)
    && 0 <= ChunkOf(l, n) < |chunks| && Within(chunks, l, n, p)
  }

  ghost predicate StateOk(l: Layout, chunks: seq<int>, top: int, k: nat, free: seq<int>, nums: seq<nat>, held: set<nat>) {
    && l.Ok() && chunks != [] && Separated(chunks, l.csize)
    && k <= l.Per() && top == chunks[|chunks| - 1] + Times(k, l.bsize)
    && Pointers(l, chunks, k, free, nums) && NoRepeat(nums)
    && (forall n :: n in held ==> n < CutCount(l, |chunks|, k) && n !in nums)
  }

  /** Every held block is among those marked. */
  predicate KeepsHeld(held: set<nat>, nums: seq<nat>) {
    forall n :: n in held ==> n in nums
  }

  /** The bits set are those of the blocks marked. */
  predicate Marks(coll: seq<bool>, marked: seq<nat>) {
    forall n: nat :: n < |coll| ==> (coll[n] <==> n in marked)
  }

  /** The answers are true exactly for the first mark of each block. */
  predicate FirstTimes(first: seq<bool>, marked: seq<nat>) {
    |first| <= |marked| && forall i :: 0 <= i < |first| ==> first[i] == !(marked[i] in marked[..i])
  }

  lemma MarksMore(coll: seq<bool>, marked: seq<nat>, i: nat)
    requires i < |marked| && marked[i] < |coll| && Marks(coll, marked[..i])
    ensures Marks(coll[marked[i] := true], marked[..i + 1])
    ensures coll[marked[i]] <==> marked[i] in marked[..i]
  {
    assert marked[..i + 1] == marked[..i] + [marked[i]];
  }

  class Allocator {
    const l: Layout
    var chunks: seq<int>
    var top: int
    var free: seq<int>
    var freeCnt: int
    var coll: seq<bool>

    /** Blocks cut from the last chunk, numbers of the free blocks, numbers of those the client holds. */
    ghost var k: nat
    ghost var nums: seq<nat>
    ghost var held: set<nat>

    ghost predicate Valid()
      reads this
    {
      StateOk(l, chunks, top, k, free, nums, held) && freeCnt == |free|
    }

    /** Number of blocks cut so far. */
    ghost function Total(): int
      reads this
      requires Valid()
    {
      CutCount(l, |chunks|, k)
    }

    constructor (bsize: int, csize: int, chunk: int)
      requires 0 < bsize < csize
      ensures Valid() && held == {} && Total() == 0 && chunks == [chunk] && l == Layout(bsize, csize)
    {
      l := Layout(bsize, csize);
      chunks, top := [chunk], chunk;
      free, freeCnt, coll := [], 0, [];
      k, nums, held := 0, [], {};
      new;
      PerIs(l);
    }

    /** The client lets go of a block. */
    ghost method Forget(n: nat)
      requires Valid()
      modifies `held
      ensures Valid() && held == old(held) - {n}
    {
      held := held - {n};
    }

    /** Marks the block of a pointer; true if it was not marked yet. */
    method Mark(p: int, ghost n: nat) returns (r: bool)
      requires l.Ok() && chunks != [] && Separated(chunks, l.csize) && k <= l.Per()
      requires PointsInto(l, chunks, k, n, p) && n < |coll|
      modifies `coll
      ensures coll == old(coll)[n := true] && r == !old(coll)[n]
    {
      var i := 0;
      BlockInside(chunks, l, n);
      while !(chunks[i] <= p < chunks[i] + l.csize)
        invariant 0 <= i <= ChunkOf(l, n) < |chunks|
        decreases |chunks| - i
      {
        i := i + 1;
      }
      assert i == ChunkOf(l, n);
      NumberOf(chunks, l, n, p);
      PerIs(l);
      var m := (p - chunks[i]) / l.bsize + i * (l.csize / l.bsize);
      r := !coll[m];
      coll := coll[m := true];
    }

    /** The client's collection: it marks some pointers, whose blocks have the numbers marked. */
    method Collect(live: seq<int>, ghost marked: seq<nat>) returns (first: seq<bool>)
      requires l.Ok() && chunks != [] && Separated(chunks, l.csize) && k <= l.Per()
      requires AllInto(l, chunks, k, live, marked) && |coll| >= CutCount(l, |chunks|, k)
      requires forall n :: 0 <= n < |coll| ==> !coll[n]
      modifies `coll
      ensures |coll| == |old(coll)| && Marks(coll, marked)
      ensures |first| == |live| && FirstTimes(first, marked)
    {
      first := [];
      var i := 0;
      while i < |live|
        invariant 0 <= i <= |live| && |first| == i && |coll| == |old(coll)|
        invariant Marks(coll, marked[..i]) && FirstTimes(first, marked)
      {
        assert PointsInto(l, chunks, k, marked[i], live[i]);
        ghost var before := coll;
        var r := Mark(live[i], marked[i]);
        MarksMore(before, marked, i);
        first := first + [r];
        i := i + 1;
      }
      assert marked[..i] == marked;
    }

    /** Puts the blocks of the unmarked bits in front of the free list. */
    method Sweep()
      requires l.Ok() && chunks != [] && k == l.Per() && free == [] && nums == []
      requires |coll| == CutCount(l, |chunks|, k)
      modifies `free, `freeCnt, `nums
      ensures nums == Unmarked(coll, |coll|) && Pointers(l, chunks, k, free, nums) && freeCnt == |free|
    {
      freeCnt := 0;
      var n := 0;
      while n < |coll|
        invariant 0 <= n <= |coll| && freeCnt == |free|
        invariant nums == Unmarked(coll, n) && Pointers(l, chunks, k, free, nums)
      {
        if !coll[n] {
          CutChunk(l, |chunks|, k, n);
          Formulas(chunks, l, n);
          var chunk := n / (l.csize / l.bsize);
          var p := chunks[chunk] + (n - chunk * (l.csize / l.bsize)) * l.bsize;
          assert IsBlock(l, chunks, k, n, p);
          PointerAdded(l, chunks, k, free, nums, p, n);
          free := [p] + free;
          nums := [n] + nums;
          freeCnt := freeCnt + 1;
        }
        n := n + 1;
      }
    }

    /** Collects: the blocks that were not marked make the free list. */
    method CollectGarbage(live: seq<int>, ghost marked: seq<nat>)
      requires Valid() && free == [] && k == l.Per() && Fitting(l, |chunks|)
      requires AllInto(l, chunks, k, live, marked) && KeepsHeld(held, marked)
      modifies `coll, `free, `freeCnt, `nums
      ensures Valid()
      ensures forall n: nat :: n in nums <==> n < Total() && n !in marked
      ensures Descending(nums)
    {
      var count := |chunks| * l.csize / l.bsize;
      BitsMatchBlocks(l, |chunks|);
      BitFormula(l, |chunks|);
      AllCut(l, |chunks|);
      coll := seq(count, _ => false);
      var first := Collect(live, marked);
      Sweep();
      UnmarkedIs(coll, |coll|);
      coll := [];
    }

    /** The number of blocks cut so far, as the code counts them. */
    method TotalCount() returns (n: int)
      requires Valid()
      ensures n == Total()
    {
      n := (l.csize / l.bsize) * (|chunks| - 1) + (top - chunks[|chunks| - 1]) / l.bsize;
      PerIs(l);
      TimesIs(|chunks| - 1, l.Per());
      TimesIs(k, l.bsize);
      Commute(l.Per(), |chunks| - 1);
      DivUnique(top - chunks[|chunks| - 1], l.bsize, k);
    }

    /** Takes the first free block. */
    method Pop() returns (r: int, ghost n: nat)
      requires Valid() && free != []
      modifies `free, `freeCnt, `nums, `held
      ensures Valid() && Total() == old(Total()) && IsBlock(l, chunks, k, n, r)
      ensures n == old(nums)[0] && nums == old(nums)[1..] && held == old(held) + {n}
      ensures r == old(free)[0] && free == old(free)[1..]
    {
      r, n := free[0], nums[0];
      assert IsBlock(l, chunks, k, n, r);
      forall i | 0 <= i < |nums| - 1 ensures IsBlock(l, chunks, k, nums[1..][i], free[1..][i]) {
        assert IsBlock(l, chunks, k, nums[i + 1], free[i + 1]);
      }
      free, nums := free[1..], nums[1..];
      freeCnt := freeCnt - 1;
      held := held + {n};
    }

    /** Allocates a block: a free one, else one cut from the last chunk, else one that a collection frees,
        else the first of a new chunk. The collection marks live; memory is that of a new chunk. */
    method Allocate(live: seq<int>, ghost marked: seq<nat>, memory: int) returns (r: int, ghost n: nat)
      requires Valid() && Separated(chunks + [memory], l.csize)
      requires free == [] && k == l.Per() ==>
                 Fitting(l, |chunks|) && AllInto(l, chunks, k, live, marked) && KeepsHeld(held, marked)
      modifies this
      ensures Valid() && IsBlock(l, chunks, k, n, r) && n !in old(held) && held == old(held) + {n}
      ensures old(free) != [] ==>
                r == old(free)[0] && free == old(free)[1..] && n == old(nums)[0] && nums == old(nums)[1..]
                && chunks == old(chunks) && Total() == old(Total())
      ensures old(free) == [] && old(k) < l.Per() ==>
                r == old(top) && n == old(Total()) && free == [] && chunks == old(chunks) && Total() == old(Total()) + 1
      ensures old(free) == [] && old(k) == l.Per() && !AllMarked(old(Total()), marked) ==>
                chunks == old(chunks) && Total() == old(Total()) && LastUnmarked(n, Total(), marked)
                && forall m: nat :: m in nums <==> m < Total() && m !in marked && m != n
      ensures old(free) == [] && old(k) == l.Per() && AllMarked(old(Total()), marked) ==>
                r == memory && n == old(Total()) && free == [] && chunks == old(chunks) + [memory]
                && Total() == old(Total()) + 1
    {
      if free != [] {
        r, n := Pop();
        return;
      }
      Room(l, k);
      if top + l.bsize <= chunks[|chunks| - 1] + l.csize {
        r, n := Cut();
      } else {
        CollectGarbage(live, marked);
        if free != [] {
          FirstUnmarked(nums, Total(), marked);
          r, n := Pop();
        } else {
          NoneUnmarked(nums, Total(), marked);
          r, n := CutFirst(memory);
        }
      }
    }

    /** Cuts the next block of the last chunk. */
    method Cut() returns (r: int, ghost n: nat)
      requires Valid() && k < l.Per() && free == []
      modifies `top, `k, `held
      ensures Valid() && Total() == old(Total()) + 1 && IsBlock(l, chunks, k, n, r)
      ensures n == old(Total()) && n !in old(held) && held == old(held) + {n} && r == old(top)
    {
      PerIs(l);
      TimesPositive(|chunks| - 1, l.Per());
      TimesNext(k, l.bsize);
      r, n := top, CutCount(l, |chunks|, k);
      PartsAre(l, |chunks| - 1, k);
      top := top + l.bsize;
      k := k + 1;
      held := held + {n};
    }

    /** Adds a chunk and cuts its first block. */
    method CutFirst(memory: int) returns (r: int, ghost n: nat)
      requires Valid() && k == l.Per() && free == [] && Separated(chunks + [memory], l.csize)
      modifies `top, `k, `held, `chunks
      ensures Valid() && Total() == old(Total()) + 1 && IsBlock(l, chunks, k, n, r) && chunks == old(chunks) + [memory]
      ensures n == old(Total()) && n !in old(held) && held == old(held) + {n} && r == memory
    {
      PerIs(l);
      AllCut(l, |chunks|);
      n := CutCount(l, |chunks|, k);
      PartsAre(l, |chunks|, 0);
      chunks := chunks + [memory];
      top := memory + l.bsize;
      k := 1;
      r := memory;
      held := held + {n};
    }
  }

  /** The pointers are within the numbered blocks. */
  ghost predicate AllInto(l: Layout, chunks: seq<int>, k: nat, live: seq<int>, marked: seq<nat>)
    requires l.Ok() && chunks != [] && k <= l.Per()
  {
    |live| == |marked| && forall i :: 0 <= i < |live| ==> PointsInto(l, chunks, k, marked[i], live[i])
  }

  /** Every block below total is marked. */
  predicate AllMarked(total: int, marked: seq<nat>) {
    forall m: nat :: m < total ==> m in marked
  }

  /** n is the last block that is not. */
  ghost predicate LastUnmarked(n: nat, total: int, marked: seq<nat>) {
    n < total && n !in marked && forall m: nat :: m < total && m !in marked ==> m <= n
  }

  /** What a collection leaves first on the free list, and when it leaves nothing. */
  lemma FirstUnmarked(nums: seq<nat>, total: int, marked: seq<nat>)
    requires nums != [] && Descending(nums) && forall n: nat :: n in nums <==> n < total && n !in marked
    ensures LastUnmarked(nums[0], total, marked) && !AllMarked(total, marked)
    ensures forall m: nat :: m in nums[1..] <==> m < total && m !in marked && m != nums[0]
  {
    assert nums[0] in nums;
    forall m: nat | m < total && m !in marked ensures m <= nums[0] { assert m in nums; }
    forall m: nat ensures m in nums[1..] <==> m in nums && m != nums[0] {
      if m in nums[1..] {
        var i :| 0 <= i < |nums| - 1 && nums[1..][i] == m;
        assert nums[i + 1] == m;
      }
      if m in nums && m != nums[0] {
        var i :| 0 <= i < |nums| && nums[i] == m;
        assert nums[1..][i - 1] == m;
      }
    }
  }

  lemma NoneUnmarked(nums: seq<nat>, total: int, marked: seq<nat>)
    requires nums == [] && forall n: nat :: n in nums <==> n < total && n !in marked
    ensures AllMarked(total, marked)
  {}

  lemma PointerAdded(l: Layout, chunks: seq<int>, k: nat, ptrs: seq<int>, nums: seq<nat>, p: int, n: nat)
    requires l.Ok() && chunks != [] && k <= l.Per() && Pointers(l, chunks, k, ptrs, nums) && IsBlock(l, chunks, k, n, p)
    ensures Pointers(l, chunks, k, [p] + ptrs, [n] + nums)
  {
    forall i | 0 <= i < |nums| + 1 ensures IsBlock(l, chunks, k, ([n] + nums)[i], ([p] + ptrs)[i]) {
      if i > 0 { assert IsBlock(l, chunks, k, nums[i - 1], ptrs[i - 1]); }
    }
  }

  lemma AllCut(l: Layout, chunks: nat)
    requires l.Ok() && chunks >= 1
    ensures CutCount(l, chunks, l.Per()) == Times(chunks, l.Per()) >= 0
  {
    PerIs(l);
    TimesNext(chunks - 1, l.Per());
    TimesPositive(chunks, l.Per());
  }

  /** A block just allocated shares no byte with any other held block. */
  lemma NoOverlap(l: Layout, chunks: seq<int>, k: nat, m: nat, p: int, n: nat, q: int)
    requires l.Ok() && chunks != [] && k <= l.Per() && Separated(chunks, l.csize) && m != n
    requires IsBlock(l, chunks, k, m, p) && IsBlock(l, chunks, k, n, q)
    ensures p + l.bsize <= q || q + l.bsize <= p
  {
    BlocksApart(chunks, l, m, n);
  }

  // ---- counting ----

  /** The numbers below n. */
  function Below(n: nat): (s: set<nat>)
    ensures forall i: nat :: i in s <==> i < n
  {
    if n == 0 then {} else Below(n - 1) + {n - 1}
  }

  lemma {:induction false} BelowCount(n: nat)
    ensures |Below(n)| == n
  {
    if n > 0 { BelowCount(n - 1); }
  }

  function Numbers(s: seq<nat>): set<nat> { set i | 0 <= i < |s| :: s[i] }

  lemma {:induction false} NumbersCount(s: seq<nat>)
    requires NoRepeat(s)
    ensures |Numbers(s)| == |s|
  {
    if s == [] {
      assert Numbers(s) == {};
    } else {
      var t := s[1..];
      NumbersCount(t);
      assert forall i :: 0 <= i < |t| ==> t[i] == s[i + 1];
      assert Numbers(s) == Numbers(t) + {s[0]};
      assert s[0] !in Numbers(t);
    }
  }

  /** Every block cut is free or in use, and not both: the total is the free count plus the blocks in use. */
  lemma UsedAndFree(a: Allocator)
    requires a.Valid()
    ensures a.Total() >= 0
    ensures var used := Below(a.Total()) - Numbers(a.nums);
            |used| + a.freeCnt == a.Total() && Numbers(a.nums) <= Below(a.Total()) && a.held <= used
  {
    PerIs(a.l);
    TimesPositive(|a.chunks| - 1, a.l.Per());
    var all, free := Below(a.Total()), Numbers(a.nums);
    BelowCount(a.Total());
    NumbersCount(a.nums);
    forall n | n in free ensures n in all {
      var i :| 0 <= i < |a.nums| && a.nums[i] == n;
      assert IsBlock(a.l, a.chunks, a.k, n, a.free[i]);
    }
    assert all == (all - free) + free;
  }

  // ---- collections not started by an allocation ----

  /** The numbers that a sweep puts on the free list are all cut and not there yet exactly when the list was
      empty and the last chunk is all cut, if no free or uncut block was marked. */
  lemma DirectCollection(l: Layout, chunks: nat, k: nat, nums: seq<nat>, marks: seq<bool>)
    requires l.Ok() && chunks >= 1 && k <= l.Per() && Fitting(l, chunks) && |marks| == BitCount(l, chunks)
    requires forall i :: 0 <= i < |nums| ==> nums[i] < CutCount(l, chunks, k)
    requires forall n: nat :: n < |marks| && marks[n] ==> n < CutCount(l, chunks, k) && n !in nums
    ensures (forall n: nat :: n < |marks| && !marks[n] ==> n < CutCount(l, chunks, k) && n !in nums)
            <==> nums == [] && k == l.Per()
  {
    BitsMatchBlocks(l, chunks);
    AllCut(l, chunks);
    PerIs(l);
    TimesNext(chunks - 1, l.Per());
    TimesPositive(chunks - 1, l.Per());
    var last := Times(chunks, l.Per()) - 1;
    assert CutCount(l, chunks, k) == last + 1 - (l.Per() - k);
    if nums != [] { assert nums[0] in nums; }
    if k < l.Per() {
      assert CutCount(l, chunks, k) <= last < |marks|;
      assert !marks[last];
    }
  }
}
