/** Printing integers: digits are put into a buffer from its end. */
module PrintText {
  import opened Arith

  /** A digit as a character: 0 to 9, then from enc on. */
  function DigitChar(d: int, enc: char): char
    requires 0 <= d < 36 && enc as int < 0x80
  {
    if d < 10 then ('0' as int + d) as char else (enc as int + d - 10) as char
  }

  /** A number in a base: no leading zero, "0" for zero. */
  function Text(v: nat, base: int, enc: char): (s: string)
    requires 2 <= base <= 36 && enc as int < 0x80
    ensures |s| >= 1
    decreases v
  {
    if v < base then [DigitChar(v, enc)]
    else
      Smaller(v, base);
      Text(v / base, base, enc) + [DigitChar(v % base, enc)]
  }

  lemma Smaller(v: nat, base: int)
    requires 2 <= base <= v
    ensures 1 <= v / base < v
  {
    DivUnique(v, base, v / base);
    MulLe(1, v / base, base);
  }

  /** base to the power n. */
  function Power(base: int, n: nat): int { if n == 0 then 1 else base * Power(base, n - 1) }

  lemma BelowBase(v: nat, base: int, p: int)
    requires base >= 2 && p >= 1
    ensures v < base * p <==> v / base < p
  {
    Commute(base, p);
    DivUnique(v, base, v / base);
    MulLe(v / base + 1, p, base);
    MulLe(p, v / base, base);
  }

  lemma {:induction false} PowerPositive(base: int, n: nat)
    requires base >= 1
    ensures Power(base, n) >= 1
  {
    if n > 0 {
      PowerPositive(base, n - 1);
      MulLe(1, Power(base, n - 1), base);
      Commute(base, Power(base, n - 1));
    }
  }

  /** The text has the least number of digits: n suffice exactly for the numbers below the n-th power. */
  lemma {:induction false} TextLength(v: nat, base: int, enc: char, n: nat)
    requires 2 <= base <= 36 && enc as int < 0x80 && n >= 1
    ensures |Text(v, base, enc)| <= n <==> v < Power(base, n)
    decreases v
  {
    PowerPositive(base, n - 1);
    BelowBase(v, base, Power(base, n - 1));
    if v >= base {
      Smaller(v, base);
      if n > 1 { TextLength(v / base, base, enc, n - 1); }
    } else {
      DivUnique(v, base, 0);
    }
  }

  /** Writes a number into the buffer, ending before p; q is its first character. */
  method Horner(buf: array<char>, p: int, value: nat, base: int, enc: char) returns (q: int)
    requires 2 <= base <= 36 && enc as int < 0x80 && |Text(value, base, enc)| <= p <= buf.Length
    modifies buf
    ensures q == p - |Text(value, base, enc)| && buf[q..p] == Text(value, base, enc)
    ensures forall i :: 0 <= i < buf.Length && !(q <= i < p) ==> buf[i] == old(buf[i])
  {
    q := p;
    if value == 0 {
      q := q - 1;
      buf[q] := '0';
    } else {
      var v := value;
      ghost var all := Text(value, base, enc);
      while v > 0
        invariant v >= 0 && 0 <= q <= p
        invariant all == Front(v, base, enc) + buf[q..p]
        invariant forall i :: 0 <= i < buf.Length && !(q <= i < p) ==> buf[i] == old(buf[i])
        decreases v
      {
        ghost var tail := buf[q..p];
        var digit := v % base;
        FrontStep(all, v, base, enc, tail);
        q := q - 1;
        buf[q] := if digit < 10 then ('0' as int + digit) as char else (enc as int + digit - 10) as char;
        assert buf[q..p] == [DigitChar(digit, enc)] + tail;
        v := v / base;
      }
      assert [] + buf[q..p] == buf[q..p];
    }
  }

  /** The digits not written yet. */
  function Front(v: nat, base: int, enc: char): string
    requires 2 <= base <= 36 && enc as int < 0x80
  {
    if v == 0 then [] else Text(v, base, enc)
  }

  lemma FrontStep(all: string, v: nat, base: int, enc: char, tail: string)
    requires 2 <= base <= 36 && enc as int < 0x80 && v > 0 && all == Front(v, base, enc) + tail
    ensures |all| > |tail| && 0 <= v % base < base && 0 <= v / base < v
    ensures all == Front(v / base, base, enc) + ([DigitChar(v % base, enc)] + tail)
  {
    LastDigit(v, base, enc);
  }

  /** The last digit and those before it. */
  lemma LastDigit(v: nat, base: int, enc: char)
    requires 2 <= base <= 36 && enc as int < 0x80 && v > 0
    ensures 0 <= v % base < base && 0 <= v / base < v
    ensures Text(v, base, enc) == (if v / base == 0 then [] else Text(v / base, base, enc)) + [DigitChar(v % base, enc)]
  {
    if v >= base { Smaller(v, base); } else { DivUnique(v, base, 0); }
  }

  /** A number as it is printed. */
  function Decimal(n: int): string {
    if n < 0 then "-" + Text(-n, 10, 'a') else Text(n, 10, 'a')
  }

  lemma Powers10()
    ensures Power(10, 10) > 0x1_0000_0000 && Power(10, 20) > 0x1_0000_0000_0000_0000
  {
    assert Power(10, 5) == 100_000;
    assert Power(10, 10) == 10_000_000_000;
    assert Power(10, 15) == 1_000_000_000_000_000;
    assert Power(10, 20) == 100_000_000_000_000_000_000;
  }

  /** The widths of the integers printed, with the sizes of their buffers. */
  datatype Kind = U32 | S32 | U64 | S64 {
    predicate Has(n: int) {
      match this
      case U32 => 0 <= n < 0x1_0000_0000
      case S32 => -0x8000_0000 <= n < 0x8000_0000
      case U64 => 0 <= n < 0x1_0000_0000_0000_0000
      case S64 => -0x8000_0000_0000_0000 <= n < 0x8000_0000_0000_0000
    }

    function Room(): int {
      match this case U32 => 16 case S32 => 16 case U64 => 32 case S64 => 64
    }
  }

  lemma Fits(kind: Kind, v: nat)
    requires v < (if kind.U32? || kind.S32? then 0x1_0000_0000 else 0x1_0000_0000_0000_0000)
    ensures |Text(v, 10, 'a')| < kind.Room()
  {
    Powers10();
    TextLength(v, 10, 'a', if kind.U32? || kind.S32? then 10 else 20);
  }

  /** Prints an integer; the buffer of its kind has room for the digits and the sign. */
  method Print(kind: Kind, value: int) returns (s: string)
    requires kind.Has(value)
    ensures s == Decimal(value)
  {
    var buffer := new char[kind.Room()];
    var neg := value < 0;
    var uval := if neg then -value else value;
    Fits(kind, uval);
    var p := Horner(buffer, buffer.Length, uval, 10, 'a');
    if neg {
      ghost var digits := buffer[p..];
      p := p - 1;
      buffer[p] := '-';
      assert buffer[p..] == "-" + digits;
    }
    s := buffer[p..];
  }
}
