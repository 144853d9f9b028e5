/** The pool of emitted rows: chunks filled from their top down, replayed in the order of emission. */
module LinePool {
  import opened Options
  import opened LineProgram

  /** A buffer whose records lie from offset cur up to its end. */
  datatype Chunk = Chunk(cur: int, cells: map<int, Emitted>)

  /** The records at offset p and below, down to cur, top first. */
  ghost predicate Filled(c: Chunk, p: int, rec: int)
    requires rec > 0
    decreases p - c.cur
  {
    if p < c.cur then p + rec == c.cur else p in c.cells && Filled(c, p - rec, rec)
  }

  function RowsDown(c: Chunk, p: int, rec: int): seq<Emitted>
    requires rec > 0 && Filled(c, p, rec)
    decreases p - c.cur
  {
    if p < c.cur then [] else [c.cells[p]] + RowsDown(c, p - rec, rec)
  }

  /** A well-formed chunk of the given size. */
  ghost predicate ChunkOk(c: Chunk, size: int, rec: int)
    requires rec > 0
  {
    0 <= c.cur <= size && Filled(c, size - rec, rec)
  }

  ghost predicate AllOk(cs: seq<Chunk>, size: int, rec: int)
    requires rec > 0
  {
    forall i :: 0 <= i < |cs| ==> ChunkOk(cs[i], size, rec)
  }

  /** The rows of the chunks from i on. */
  function RowsFrom(cs: seq<Chunk>, i: nat, size: int, rec: int): seq<Emitted>
    requires rec > 0 && AllOk(cs, size, rec) && i <= |cs|
    decreases |cs| - i
  {
    if i == |cs| then [] else RowsDown(cs[i], size - rec, rec) + RowsFrom(cs, i + 1, size, rec)
  }

  /** The chunk with one more record below the others. */
  function Lower(c: Chunk, rec: int, row: Emitted): Chunk {
    Chunk(c.cur - rec, c.cells[c.cur - rec := row])
  }

  lemma {:induction false} LowerRows(c: Chunk, p: int, rec: int, row: Emitted)
    requires rec > 0 && Filled(c, p, rec)
    ensures Filled(Lower(c, rec, row), p, rec)
    ensures RowsDown(Lower(c, rec, row), p, rec) == RowsDown(c, p, rec) + [row]
    decreases p - c.cur
  {
    if p >= c.cur {
      LowerRows(c, p - rec, rec, row);
    } else {
      var d := Lower(c, rec, row);
      assert RowsDown(d, p, rec) == [row] + RowsDown(d, p - rec, rec);
    }
  }

  /** Changing the last chunk so that it holds one more row. */
  lemma {:induction false} LastLower(cs: seq<Chunk>, i: nat, size: int, rec: int, row: Emitted)
    requires rec > 0 && AllOk(cs, size, rec) && i < |cs| && cs[|cs| - 1].cur >= rec
    ensures var cs' := cs[|cs| - 1 := Lower(cs[|cs| - 1], rec, row)];
            AllOk(cs', size, rec) && RowsFrom(cs', i, size, rec) == RowsFrom(cs, i, size, rec) + [row]
    decreases |cs| - i
  {
    var n := |cs| - 1;
    var cs' := cs[n := Lower(cs[n], rec, row)];
    LowerRows(cs[n], size - rec, rec, row);
    if i < n {
      LastLower(cs, i + 1, size, rec, row);
    } else {
      assert RowsFrom(cs', i + 1, size, rec) == [] == RowsFrom(cs, i + 1, size, rec);
    }
  }

  lemma {:induction false} NewChunk(cs: seq<Chunk>, i: nat, size: int, rec: int)
    requires rec > 0 && size >= 0 && AllOk(cs, size, rec) && i <= |cs|
    ensures var cs' := cs + [Chunk(size, map[])];
            AllOk(cs', size, rec) && RowsFrom(cs', i, size, rec) == RowsFrom(cs, i, size, rec)
    decreases |cs| - i
  {
    var cs' := cs + [Chunk(size, map[])];
    assert ChunkOk(cs'[|cs|], size, rec);
    if i < |cs| {
      NewChunk(cs, i + 1, size, rec);
    } else {
      assert RowsFrom(cs', i + 1, size, rec) == [];
    }
  }

  /** A row as the replay sees it, with the row after it, if any. */
  datatype Visit = Visit(row: Emitted, next: Option<Emitted>)

  /** The visits are the first rows in order, each with its successor. */
  ghost predicate InOrder(vs: seq<Visit>, rows: seq<Emitted>) {
    |vs| <= |rows| && forall i :: 0 <= i < |vs| ==> vs[i] == VisitOf(rows, i)
  }

  function VisitOf(rows: seq<Emitted>, i: nat): Visit
    requires i < |rows|
  {
    Visit(rows[i], if i + 1 < |rows| then Some(rows[i + 1]) else None)
  }

  class Pool {
    const size: int
    const rec: int
    var chunks: seq<Chunk>

    /** Only the first chunk may be empty. */
    ghost predicate Valid()
      reads this
    {
      && 0 < rec <= size && chunks != [] && AllOk(chunks, size, rec)
      && forall i :: 1 <= i < |chunks| ==> chunks[i].cur < size
    }

    ghost function Contents(): seq<Emitted>
      reads this
      requires Valid()
    {
      RowsFrom(chunks, 0, size, rec)
    }

    constructor (size: int, rec: int)
      requires 0 < rec <= size
      ensures Valid() && Contents() == [] && this.size == size && this.rec == rec
    {
      this.size := size;
      this.rec := rec;
      chunks := [Chunk(size, map[])];
      new;
      assert ChunkOk(chunks[0], size, rec);
      assert RowsFrom(chunks, 1, size, rec) == [];
    }

    /** Allocates a record below the others, in a new chunk if there is no room, and fills it. */
    method Append(row: Emitted)
      requires Valid()
      modifies this
      ensures Valid() && Contents() == old(Contents()) + [row]
    {
      var n := |chunks| - 1;
      if chunks[n].cur - rec < 0 {
        NewChunk(chunks, 0, size, rec);
        chunks := chunks + [Chunk(size, map[])];
        n := n + 1;
      }
      LastLower(chunks, 0, size, rec, row);
      chunks := chunks[n := Lower(chunks[n], rec, row)];
    }

    /** The first row of the chunk after chunk i, if there is one. */
    method NextChunkRow(i: nat) returns (next: Option<Emitted>)
      requires Valid() && i < |chunks|
      ensures var rest := RowsFrom(chunks, i + 1, size, rec);
              next == if rest == [] then None else Some(rest[0])
    {
      next := None;
      if i + 1 < |chunks| {
        assert ChunkOk(chunks[i + 1], size, rec);
        next := Some(chunks[i + 1].cells[size - rec]);
      }
    }

    /** Visits the records of chunk i from its top down. */
    method ReplayChunk(i: nat, vs0: seq<Visit>, ghost done0: seq<Emitted>, ghost all: seq<Emitted>)
      returns (vs: seq<Visit>, ghost done: seq<Emitted>)
      requires Valid() && i < |chunks| && Visited(vs0, done0, RowsFrom(chunks, i, size, rec), all)
      ensures Visited(vs, done, RowsFrom(chunks, i + 1, size, rec), all)
    {
      vs, done := vs0, done0;
      ghost var rest := RowsFrom(chunks, i + 1, size, rec);
      var c := chunks[i];
      var p := size - rec;
      assert ChunkOk(c, size, rec);
      while p >= c.cur
        invariant p + rec >= c.cur && Filled(c, p, rec)
        invariant Visited(vs, done, RowsDown(c, p, rec) + rest, all)
        decreases p - c.cur
      {
        var next;
        if p - rec >= c.cur { next := Some(c.cells[p - rec]); } else { next := NextChunkRow(i); }
        VisitStep(vs, done, c.cells[p], RowsDown(c, p - rec, rec), rest, all, next);
        vs := vs + [Visit(c.cells[p], next)];
        done := done + [c.cells[p]];
        p := p - rec;
      }
      assert RowsDown(c, p, rec) + rest == rest;
    }

    /** Visits every record, chunk after chunk. */
    method Replay() returns (vs: seq<Visit>)
      requires Valid()
      ensures InOrder(vs, Contents()) && |vs| == |Contents()|
    {
      vs := [];
      ghost var done: seq<Emitted> := [];
      var i := 0;
      assert [] + Contents() == Contents();
      while i < |chunks|
        invariant 0 <= i <= |chunks| && Visited(vs, done, RowsFrom(chunks, i, size, rec), Contents())
      {
        vs, done := ReplayChunk(i, vs, done, Contents());
        i := i + 1;
      }
      assert done + [] == done;
    }
  }

  /** The visits so far are those of the rows done; the rows left follow. */
  ghost predicate Visited(vs: seq<Visit>, done: seq<Emitted>, left: seq<Emitted>, all: seq<Emitted>) {
    |vs| == |done| && done + left == all && InOrder(vs, all)
  }

  lemma VisitStep(vs: seq<Visit>, done: seq<Emitted>, row: Emitted, more: seq<Emitted>, rest: seq<Emitted>,
                  all: seq<Emitted>, next: Option<Emitted>)
    requires Visited(vs, done, [row] + more + rest, all)
    requires next == if more + rest == [] then None else Some((more + rest)[0])
    ensures Visited(vs + [Visit(row, next)], done + [row], more + rest, all)
  {
    assert [row] + more + rest == [row] + (more + rest);
    assert done + ([row] + (more + rest)) == (done + [row]) + (more + rest);
    assert all[|done|] == row;
    if more + rest != [] { assert all[|done| + 1] == (more + rest)[0]; }
  }
}
