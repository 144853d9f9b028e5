/** Blocks of equal size cut from chunks of memory, and the bit that stands for each. */
module BlockLayout {
  import opened Arith

  datatype Layout = Layout(bsize: int, csize: int) {
    predicate Ok() { 0 < bsize < csize }

    /** Blocks in a chunk: csize / bsize */
    function Per(): int
      requires Ok()
    {
      Quot(csize, bsize)
    }

    /** Bytes of a chunk left over by its blocks: csize % bsize */
    function Rest(): int
      requires Ok()
    {
      csize - Times(Per(), bsize)
    }
  }

  lemma PerIs(l: Layout)
    requires l.Ok()
    ensures l.Per() >= 1 && 0 <= l.Rest() < l.bsize
    ensures l.Per() == l.csize / l.bsize && l.Rest() == l.csize % l.bsize
  {
    QuotBounds(l.csize, l.bsize);
    QuotIs(l.csize, l.bsize);
    TimesIs(l.Per(), l.bsize);
    if l.Per() < 1 { TimesLess(l.Per(), 1, l.bsize); }
  }

  /** Chunk of block n and its place there: n / Per() and n - chunk * Per() */
  function ChunkOf(l: Layout, n: nat): int
    requires l.Ok()
  {
    PerIs(l);
    Quot(n, l.Per())
  }

  function PlaceOf(l: Layout, n: nat): int
    requires l.Ok()
  {
    n - Times(ChunkOf(l, n), l.Per())
  }

  lemma Parts(l: Layout, n: nat)
    requires l.Ok()
    ensures 0 <= PlaceOf(l, n) < l.Per() && ChunkOf(l, n) >= 0
  {
    PerIs(l);
    QuotBounds(n, l.Per());
    if ChunkOf(l, n) < 0 { TimesLess(ChunkOf(l, n), 0, l.Per()); }
  }

  lemma PartsAre(l: Layout, c: nat, s: nat)
    requires l.Ok() && s < l.Per()
    ensures Times(c, l.Per()) + s >= 0
    ensures ChunkOf(l, Times(c, l.Per()) + s) == c && PlaceOf(l, Times(c, l.Per()) + s) == s
  {
    PerIs(l);
    TimesPositive(c, l.Per());
    QuotUnique(Times(c, l.Per()) + s, l.Per(), c);
  }

  /** Block numbers are below k chunks' worth exactly when their chunk is below k. */
  lemma InChunks(l: Layout, n: nat, k: nat)
    requires l.Ok()
    ensures n < Times(k, l.Per()) <==> ChunkOf(l, n) < k
  {
    Parts(l, n);
    var c := ChunkOf(l, n);
    if c < k { TimesLess(c, k, l.Per()); } else if k < c { TimesLess(k, c, l.Per()); }
  }

  /** Address of block n. */
  function Ptr(chunks: seq<int>, l: Layout, n: nat): int
    requires l.Ok() && 0 <= ChunkOf(l, n) < |chunks|
  {
    chunks[ChunkOf(l, n)] + Times(PlaceOf(l, n), l.bsize)
  }

  /** These are the products and quotients that the code computes. */
  lemma Formulas(chunks: seq<int>, l: Layout, n: nat)
    requires l.Ok() && 0 <= ChunkOf(l, n) < |chunks|
    ensures l.csize / l.bsize == l.Per() >= 1
    ensures var c := n / (l.csize / l.bsize);
            c == ChunkOf(l, n) && Ptr(chunks, l, n) == chunks[c] + (n - c * (l.csize / l.bsize)) * l.bsize
  {
    PerIs(l);
    QuotIs(n, l.Per());
    TimesIs(ChunkOf(l, n), l.Per());
    TimesIs(PlaceOf(l, n), l.bsize);
  }

  /** The chunks do not overlap. */
  ghost predicate Separated(chunks: seq<int>, csize: int) {
    forall i, j :: 0 <= i < j < |chunks| ==> chunks[i] + csize <= chunks[j] || chunks[j] + csize <= chunks[i]
  }

  lemma PlaceInside(l: Layout, s: int)
    requires l.Ok() && 0 <= s < l.Per()
    ensures 0 <= Times(s, l.bsize) && Times(s, l.bsize) + l.bsize <= l.csize
  {
    PerIs(l);
    TimesPositive(s, l.bsize);
    TimesLess(s, l.Per(), l.bsize);
  }

  /** A block lies within its chunk. */
  lemma BlockInside(chunks: seq<int>, l: Layout, n: nat)
    requires l.Ok() && 0 <= ChunkOf(l, n) < |chunks|
    ensures var b := chunks[ChunkOf(l, n)]; b <= Ptr(chunks, l, n) && Ptr(chunks, l, n) + l.bsize <= b + l.csize
  {
    Parts(l, n);
    PlaceInside(l, PlaceOf(l, n));
  }

  /** Two blocks share no byte. */
  lemma BlocksApart(chunks: seq<int>, l: Layout, m: nat, n: nat)
    requires l.Ok() && Separated(chunks, l.csize) && m != n
    requires 0 <= ChunkOf(l, m) < |chunks| && 0 <= ChunkOf(l, n) < |chunks|
    ensures Ptr(chunks, l, m) + l.bsize <= Ptr(chunks, l, n) || Ptr(chunks, l, n) + l.bsize <= Ptr(chunks, l, m)
  {
    BlockInside(chunks, l, m);
    BlockInside(chunks, l, n);
    if ChunkOf(l, m) == ChunkOf(l, n) {
      if m < n {
        TimesLess(PlaceOf(l, m), PlaceOf(l, n), l.bsize);
      } else {
        TimesLess(PlaceOf(l, n), PlaceOf(l, m), l.bsize);
      }
    }
  }

  /** p is an address within block n. */
  predicate Within(chunks: seq<int>, l: Layout, n: nat, p: int)
    requires l.Ok() && 0 <= ChunkOf(l, n) < |chunks|
  {
    Ptr(chunks, l, n) <= p < Ptr(chunks, l, n) + l.bsize
  }

  /** The number computed from an address within a block is the block's. */
  lemma NumberOf(chunks: seq<int>, l: Layout, n: nat, p: int)
    requires l.Ok() && 0 <= ChunkOf(l, n) < |chunks| && Within(chunks, l, n, p)
    ensures Quot(p - chunks[ChunkOf(l, n)], l.bsize) + Times(ChunkOf(l, n), l.Per()) == n
    ensures (p - chunks[ChunkOf(l, n)]) / l.bsize + ChunkOf(l, n) * (l.csize / l.bsize) == n
  {
    var c := ChunkOf(l, n);
    PerIs(l);
    QuotUnique(p - chunks[c], l.bsize, PlaceOf(l, n));
    QuotIs(p - chunks[c], l.bsize);
    TimesIs(c, l.Per());
  }

  /** There is room for one more block at place k of a chunk exactly when fewer are cut. */
  lemma Room(l: Layout, k: nat)
    requires l.Ok() && k <= l.Per()
    ensures Times(k, l.bsize) + l.bsize <= l.csize <==> k < l.Per()
  {
    PerIs(l);
    if k < l.Per() { TimesLess(k, l.Per(), l.bsize); }
  }

  // ---- the bit vector of a collection ----

  /** How many bits it has for k chunks: k * csize / bsize */
  function BitCount(l: Layout, k: nat): int
    requires l.Ok()
  {
    Quot(Times(k, l.csize), l.bsize)
  }

  lemma BitFormula(l: Layout, k: nat)
    requires l.Ok()
    ensures BitCount(l, k) == k * l.csize / l.bsize
  {
    TimesIs(k, l.csize);
    QuotIs(k * l.csize, l.bsize);
  }

  /** The bytes of k chunks left over by their blocks amount to no block. */
  predicate Fitting(l: Layout, k: nat)
    requires l.Ok()
  {
    Times(k, l.Rest()) < l.bsize
  }

  lemma Leftover(l: Layout, k: nat)
    requires l.Ok()
    ensures Times(k, l.csize) == Times(Times(k, l.Per()), l.bsize) + Times(k, l.Rest()) && Times(k, l.Rest()) >= 0
  {
    PerIs(l);
    TimesSpread(k, Times(l.Per(), l.bsize), l.Rest());
    TimesTimes(k, l.Per(), l.bsize);
    TimesPositive(k, l.Rest());
  }

  /** There is one bit for each block exactly when the chunks' leftovers amount to no block. */
  lemma BitsMatchBlocks(l: Layout, k: nat)
    requires l.Ok()
    ensures BitCount(l, k) >= Times(k, l.Per()) >= 0
    ensures BitCount(l, k) == Times(k, l.Per()) <==> Fitting(l, k)
  {
    var n, b := Times(k, l.Per()), BitCount(l, k);
    Leftover(l, k);
    PerIs(l);
    TimesPositive(k, l.Per());
    QuotUnique(Times(k, l.csize), l.bsize, n);
    QuotBounds(Times(k, l.csize), l.bsize);
    if b < n { TimesLess(b, n, l.bsize); }
  }

  /** The sweep looks only at chunks that exist exactly when the leftovers amount to no block. */
  lemma SweepInBounds(l: Layout, k: nat)
    requires l.Ok()
    ensures (forall n: nat :: n < BitCount(l, k) ==> ChunkOf(l, n) < k) <==> Fitting(l, k)
  {
    BitsMatchBlocks(l, k);
    forall n: nat | n < BitCount(l, k) && Fitting(l, k) ensures ChunkOf(l, n) < k { InChunks(l, n, k); }
    InChunks(l, Times(k, l.Per()), k);
  }

  /** Blocks of 24 bytes in chunks of one megabyte: the second chunk already breaks it. */
  lemma DefaultChunks()
    ensures var l := Layout(24, 0x10_0000); l.Ok() && Fitting(l, 1) && !Fitting(l, 2)
  {
    var l := Layout(24, 0x10_0000);
    PerIs(l);
    TimesIs(1, l.Rest());
    TimesIs(2, l.Rest());
  }
}
