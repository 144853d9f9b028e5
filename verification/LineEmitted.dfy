/** From the rows a program emits to the table a line map is built from. */
module LineEmitted {
  import opened Arith
  import opened LineProgram
  import opened LineReader
  import opened LineMap

  /** The emitted row as a row of the table: the line as the unsigned number the code subtracts the file's
      lowest line from, and the flag bits as one number. */
  function ToRow(e: Emitted, bits: Flags -> int): Row {
    Row(e.file - 1, Mod32(e.line), e.address, bits(e.flags), e.isa)
  }

  /** A file with its range of lines, and a table of one descriptor a line and one more. */
  function ToUnit(low: int, high: int): Unit {
    Unit(low, high, seq(if high < low then 0 else high - low + 2, _ => UNUSED))
  }

  function ToUnits(low: seq<int>, high: seq<int>): (us: seq<Unit>)
    requires |low| == |high|
    ensures |us| == |low| && forall f :: 0 <= f < |us| ==> us[f] == ToUnit(low[f], high[f])
  {
    seq(|low|, f requires 0 <= f < |low| => ToUnit(low[f], high[f]))
  }

  lemma RowInTable(rows: seq<Emitted>, low: seq<int>, high: seq<int>, i: nat, bits: Flags -> int)
    requires RangesOk(rows, low, high) && i < |rows| && -0x8000_0000 <= rows[i].line < 0x8000_0000
    ensures RowOk(ToUnits(low, high), ToRow(rows[i], bits))
  {
    var f := rows[i].file - 1;
    assert RangeOk(rows, f, low[f], high[f]);
    if rows[i].line != 0 { assert About(rows[i], f); } else { SmallMod(0); }
  }

  /** Every row recorded has its line within its file's table. */
  lemma RowsInTables(rows: seq<Emitted>, low: seq<int>, high: seq<int>, bits: Flags -> int)
    requires RangesOk(rows, low, high) && forall i :: 0 <= i < |rows| ==> -0x8000_0000 <= rows[i].line < 0x8000_0000
    ensures forall f :: 0 <= f < |low| ==> UnitOk(ToUnits(low, high)[f])
    ensures forall i :: 0 <= i < |rows| ==> RowOk(ToUnits(low, high), ToRow(rows[i], bits))
  {
    forall f | 0 <= f < |low| ensures UnitOk(ToUnits(low, high)[f]) {
      RangeOrder(rows, f, low[f], high[f]);
    }
    forall i | 0 <= i < |rows| ensures RowOk(ToUnits(low, high), ToRow(rows[i], bits)) {
      RowInTable(rows, low, high, i, bits);
    }
  }
}
