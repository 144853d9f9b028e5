/** Grouping memory blocks into clusters: a depth-first search over the blocks that share a cluster. */
module Clusters {
  import opened Bits
  import opened ClusterSearch

  /** A block of memory: its first address and its size; its last address is a 32-bit number. */
  datatype Block = Block(start: nat, size: nat) {
    function End(): nat { (start + size + 0xFFFF_FFFF) % 0x1_0000_0000 }
  }

  /** The block is not empty and does not wrap around. */
  predicate BlockOk(b: Block) { 1 <= b.size && b.start + b.size <= 0x1_0000_0000 }

  lemma EndIs(b: Block)
    requires BlockOk(b)
    ensures b.End() == b.start + b.size - 1
  {}

  const WORD: nat := 32

  /** Both addresses are in the same cluster of 2^k bytes: they agree but for their k low bits. */
  predicate SameCluster(a: nat, b: nat, k: nat) {
    Logic(Reset, a, Mask(k), WORD) == Logic(Reset, b, Mask(k), WORD)
  }

  /** The search takes two blocks as neighbours when one ends in the cluster where the other starts. */
  predicate Near(a: Block, b: Block, k: nat) {
    SameCluster(a.start, b.End(), k) || SameCluster(a.End(), b.start, k)
  }

  // ---- what neighbours are ----

  /** a >> k: the number of the cluster of address a. */
  function High(a: nat, k: nat): (h: nat)
    ensures h <= a
  {
    if k == 0 then a else High(a / 2, k - 1)
  }

  lemma {:induction false} HighBits(a: nat, k: nat, i: nat)
    ensures Bit(High(a, k), i) == Bit(a, i + k)
  {
    if k > 0 { HighBits(a / 2, k - 1, i); }
  }

  lemma {:induction false} HighOrder(x: nat, y: nat, k: nat)
    requires x <= y
    ensures High(x, k) <= High(y, k)
  {
    if k > 0 { HighOrder(x / 2, y / 2, k - 1); }
  }

  lemma ResetBit(a: nat, k: nat, i: nat)
    requires i < WORD
    ensures Bit(Logic(Reset, a, Mask(k), WORD), i) <==> Bit(a, i) && i >= k
  {
    LogicBit(Reset, a, Mask(k), WORD, i);
    MaskBit(k, i);
  }

  lemma SameHighBit(a: nat, b: nat, k: nat, i: nat)
    requires a < Pow2(WORD) && b < Pow2(WORD) && i >= k && SameCluster(a, b, k)
    ensures Bit(a, i) == Bit(b, i)
  {
    if i < WORD {
      ResetBit(a, k, i);
      ResetBit(b, k, i);
    } else {
      HighBit(a, WORD, i);
      HighBit(b, WORD, i);
    }
  }

  lemma SameHigh(a: nat, b: nat, k: nat)
    requires a < Pow2(WORD) && b < Pow2(WORD) && SameCluster(a, b, k)
    ensures High(a, k) == High(b, k)
  {
    var x, y := High(a, k), High(b, k);
    forall i: nat | i < WORD ensures Bit(x, i) == Bit(y, i) {
      HighBits(a, k, i);
      HighBits(b, k, i);
      SameHighBit(a, b, k, i + k);
    }
    BitsDetermine(x, y, WORD);
  }

  lemma SameLow(a: nat, b: nat, k: nat)
    requires k <= WORD && High(a, k) == High(b, k)
    ensures SameCluster(a, b, k)
  {
    var x, y := Logic(Reset, a, Mask(k), WORD), Logic(Reset, b, Mask(k), WORD);
    forall i: nat | i < WORD ensures Bit(x, i) == Bit(y, i) {
      ResetBit(a, k, i);
      ResetBit(b, k, i);
      if i >= k {
        HighBits(a, k, i - k);
        HighBits(b, k, i - k);
      }
    }
    BitsDetermine(x, y, WORD);
  }

  lemma WordIs()
    ensures Pow2(WORD) == 0x1_0000_0000
  {
    assert Pow2(8) == 0x100;
    assert Pow2(16) == 0x1_0000;
    assert Pow2(24) == 0x100_0000;
    assert Pow2(32) == 0x1_0000_0000;
  }

  /** Block b has a byte of cluster c. */
  predicate Touches(b: Block, c: int, k: nat) { High(b.start, k) <= c <= High(b.End(), k) }

  /** Two blocks that do not overlap are neighbours exactly when some cluster has bytes of both. */
  lemma NearIsSharing(a: Block, b: Block, k: nat)
    requires BlockOk(a) && BlockOk(b) && k <= WORD && (a.End() < b.start || b.End() < a.start)
    ensures Near(a, b, k) <==> exists c :: Touches(a, c, k) && Touches(b, c, k)
  {
    WordIs();
    EndIs(a);
    EndIs(b);
    HighOrder(a.start, a.End(), k);
    HighOrder(b.start, b.End(), k);
    if Near(a, b, k) {
      if SameCluster(a.start, b.End(), k) {
        SameHigh(a.start, b.End(), k);
        assert Touches(a, High(a.start, k), k) && Touches(b, High(a.start, k), k);
      } else {
        SameHigh(a.End(), b.start, k);
        assert Touches(a, High(b.start, k), k) && Touches(b, High(b.start, k), k);
      }
    }
    if c :| Touches(a, c, k) && Touches(b, c, k) {
      if a.End() < b.start {
        HighOrder(a.End(), b.start, k);
        SameLow(a.End(), b.start, k);
      } else {
        HighOrder(b.End(), a.start, k);
        SameLow(a.start, b.End(), k);
      }
    }
  }

  /** The blocks and the relation of the search. */
  function BlockGraph(bs: seq<Block>, k: nat): Graph {
    Graph(|bs|, (x, y) => 0 <= x < |bs| && 0 <= y < |bs| && Near(bs[x], bs[y], k))
  }

  /** The lists of blocks to place together. */
  method ClusterBlocks(bs: seq<Block>, k: nat) returns (clusters: seq<seq<int>>)
    ensures Covers(Indices(|bs|), clusters) && Components(BlockGraph(bs, k), clusters)
  {
    clusters := ClusterList(BlockGraph(bs, k));
  }

  /** Neighbours are in the same list. */
  lemma NeighboursTogether(bs: seq<Block>, k: nat, clusters: seq<seq<int>>, c: int, x: int, y: int)
    requires Components(BlockGraph(bs, k), clusters) && 0 <= c < |clusters| && x in Elems(clusters[c])
    requires 0 <= x < |bs| && 0 <= y < |bs| && Near(bs[x], bs[y], k)
    ensures y in Elems(clusters[c])
  {
    var g := BlockGraph(bs, k);
    ConnectedSelf(g, y);
    ConnectedStep(g, x, y, y);
    assert Component(g, clusters[c]);
  }

  /** Blocks that have bytes in a common cluster are in the same list, if they do not overlap. */
  lemma SharersTogether(bs: seq<Block>, k: nat, clusters: seq<seq<int>>, c: int, x: int, y: int, m: int)
    requires Components(BlockGraph(bs, k), clusters) && 0 <= c < |clusters| && x in Elems(clusters[c])
    requires k <= WORD && 0 <= x < |bs| && 0 <= y < |bs| && BlockOk(bs[x]) && BlockOk(bs[y])
    requires bs[x].End() < bs[y].start || bs[y].End() < bs[x].start
    requires Touches(bs[x], m, k) && Touches(bs[y], m, k)
    ensures y in Elems(clusters[c])
  {
    NearIsSharing(bs[x], bs[y], k);
    NeighboursTogether(bs, k, clusters, c, x, y);
  }
}
