/** Lists of integers, printed with a blank after each and scanned back. */
module PrintScan {
  import opened Arith
  import opened PrintText
  import opened ScanText

  // ---- digits ----

  const LOWER := "0123456789abcdef"
  const UPPER := "0123456789ABCDEF"

  /** The sixteen digits, as they are scanned and as they are printed. */
  lemma SixteenDigits(d: nat)
    requires d < 16
    ensures TestBase(LOWER[d] as int, 16) == d && TestBase(UPPER[d] as int, 16) == d
    ensures DigitChar(d, 'a') == LOWER[d] && DigitChar(d, 'A') == UPPER[d]
  {}

  /** The characters of a base's digits are those it has. */
  lemma BaseDigits(c: char, base: int)
    requires 2 <= base <= 16
    ensures TestBase(c as int, base) >= 0 <==>
              exists d: nat :: d < base && (c == LOWER[d] || c == UPPER[d])
    ensures TestBase(c as int, base) >= 0 ==> TestBase(c as int, base) == TestBase(c as int, 16)
  {
    var d := TestBase(c as int, base);
    if d >= 0 {
      assert c == LOWER[d] || c == UPPER[d];
    }
  }

  lemma DigitBack(d: nat, base: int, enc: char)
    requires 2 <= base <= 16 && d < base && (enc == 'a' || enc == 'A')
    ensures TestBase(DigitChar(d, enc) as int, base) == d
  {}

  /** Digits of the base that stand for v, the first not 0 unless v is. */
  predicate Writes(s: string, v: nat, base: int)
    requires 2 <= base <= 16
  {
    s != "" && Digits(s, base) && Number(s, base) == v && (v > 0 ==> TestBase(s[0] as int, base) > 0)
  }

  lemma OneDigit(v: nat, base: int, enc: char)
    requires 2 <= base <= 16 && v < base && (enc == 'a' || enc == 'A')
    ensures Writes([DigitChar(v, enc)], v, base)
  {
    var s := [DigitChar(v, enc)];
    DigitBack(v, base, enc);
    assert s[..0] == "" && Number("", base) == 0;
  }

  lemma OneMore(t: string, q: nat, d: nat, base: int, enc: char)
    requires 2 <= base <= 16 && d < base && (enc == 'a' || enc == 'A') && q > 0 && Writes(t, q, base)
    ensures q * base + d >= 0 && Writes(t + [DigitChar(d, enc)], q * base + d, base)
  {
    NatTimes(q, base);
    DigitBack(d, base, enc);
    NumberAppend(t, base, DigitChar(d, enc));
  }

  /** The text of a number. */
  lemma {:induction false} TextDigits(v: nat, base: int, enc: char)
    requires 2 <= base <= 16 && (enc == 'a' || enc == 'A')
    ensures Writes(Text(v, base, enc), v, base)
    decreases v
  {
    if v < base {
      OneDigit(v, base, enc);
    } else {
      Smaller(v, base);
      DivMod(v, base);
      TextDigits(v / base, base, enc);
      OneMore(Text(v / base, base, enc), v / base, v % base, base, enc);
    }
  }

  lemma DivMod(v: nat, base: nat)
    requires base > 0
    ensures (v / base) * base + v % base == v && 0 <= v % base < base
  {}

  /** Nothing more, or a blank. */
  predicate Ends(rest: string) { rest == "" || rest[0] == ' ' }

  lemma BlankRead(chr: int, t: string, rest: string)
    requires -0x80 <= chr < 0x100 && InFront(chr, t) == " " + rest && (chr < 0 ==> t == "")
    ensures t == rest
  {
    assert chr >= 0;
    assert InFront(chr, t)[1..] == t && (" " + rest)[1..] == rest;
  }

  lemma ZeroFound(rest: string)
    requires Ends(rest)
    ensures Unsigned("0" + rest) == Parts("0", 10, rest)
  {
    var t := "0" + rest;
    assert t[0] == '0' && t[1..] == rest;
  }

  // ---- decimal numbers ----

  lemma DigitsFound(s: string, rest: string)
    requires s != "" && Digits(s, 10) && 49 <= s[0] as int <= 57 && Ends(rest)
    ensures Unsigned(s + rest) == Parts(s, 10, rest)
  {
    var t := s + rest;
    assert t[0] == s[0] && t[0..] == t;
    assert t[..|s|] == s && t[|s|..] == rest;
    if rest != "" { assert t[|s|] == rest[0]; }
    LeadingIs(t, |s|, 10);
  }

  /** A printed number is found whole by the scanner. */
  lemma PrintedFound(v: nat, rest: string)
    requires Ends(rest)
    ensures Unsigned(Text(v, 10, 'a') + rest) == Parts(Text(v, 10, 'a'), 10, rest)
    ensures Digits(Text(v, 10, 'a'), 10) && Number(Text(v, 10, 'a'), 10) == v
  {
    TextDigits(v, 10, 'a');
    if v == 0 {
      assert Text(v, 10, 'a') == "0";
      ZeroFound(rest);
    } else {
      DigitsFound(Text(v, 10, 'a'), rest);
    }
  }

  /** The lowest number of a signed kind: the only one printed that is not scanned back. */
  predicate Lowest(kind: Kind, n: int) {
    (kind.S32? && n == -0x8000_0000) || (kind.S64? && n == -0x8000_0000_0000_0000)
  }

  lemma MinusFound(s: string, rest: string)
    ensures var t := "-" + s + rest; AfterSign(t) == s + rest && Peek(t) == 45
  {
    var t := "-" + s + rest;
    assert t[0] == '-' && t[1..] == s + rest;
  }

  lemma SignedFound(n: int, rest: string)
    requires Ends(rest)
    ensures var t := Decimal(n) + rest;
            AfterSign(t) == Text(if n < 0 then -n else n, 10, 'a') + rest && (Peek(t) == 45 <==> n < 0)
  {
    var v := if n < 0 then -n else n;
    var s := Text(v, 10, 'a');
    TextDigits(v, 10, 'a');
    if n < 0 {
      MinusFound(s, rest);
    } else {
      assert s[0] as int >= 48 by { if n == 0 { assert s == "0"; } }
      assert (s + rest)[0] == s[0];
    }
  }

  method ScanPlain(input: Input, wide: bool, ghost n: nat, ghost rest: string) returns (r: Result<int>)
    requires input.Valid() && Ends(rest) && input.Contents() == Text(n, 10, 'a') + rest
    requires n < (if wide then 0x1_0000_0000_0000_0000 else 0x1_0000_0000)
    modifies input
    ensures input.Valid() && r == Ok(n) && input.Contents() == rest
  {
    PrintedFound(n, rest);
    if !wide { FitsNoDrop(Text(n, 10, 'a'), 10); }
    var u := input.ScanUnsigned(wide);
    r := Ok(u.value);
  }

  method ScanWithSign(input: Input, wide: bool, ghost n: int, ghost rest: string) returns (r: Result<int>)
    requires input.Valid() && Ends(rest) && input.Contents() == Decimal(n) + rest && -Half(wide) <= n < Half(wide)
    modifies input
    ensures input.Valid() && if n == -Half(wide) then r == TooBig else r == Ok(n) && input.Contents() == rest
  {
    SignedFound(n, rest);
    PrintedFound(if n < 0 then -n else n, rest);
    r := input.ScanSigned(wide);
    InRange(wide, n < 0, Unsigned(AfterSign(old(input.Contents()))), r, input.Contents());
  }

  /** Scans a number of the given kind. */
  method Scan(input: Input, kind: Kind, ghost n: int, ghost rest: string) returns (r: Result<int>)
    requires input.Valid() && kind.Has(n) && Ends(rest) && input.Contents() == Decimal(n) + rest
    modifies input
    ensures input.Valid() && if Lowest(kind, n) then r == TooBig else r == Ok(n) && input.Contents() == rest
  {
    if kind.U32? || kind.U64? {
      r := ScanPlain(input, kind.U64?, n, rest);
    } else {
      r := ScanWithSign(input, kind.S64?, n, rest);
    }
  }

  /** The numbers, each followed by a blank. */
  function ListText(xs: seq<int>): string {
    if xs == [] then "" else Decimal(xs[0]) + (" " + ListText(xs[1..]))
  }

  lemma {:induction false} ListAppend(xs: seq<int>, x: int)
    ensures ListText(xs + [x]) == ListText(xs) + (Decimal(x) + " ")
  {
    if xs == [] {
      assert (xs + [x])[1..] == [];
      assert " " + "" == " ";
    } else {
      assert (xs + [x])[1..] == xs[1..] + [x];
      ListAppend(xs[1..], x);
    }
  }

  method PrintList(kind: Kind, xs: seq<int>) returns (s: string)
    requires forall i :: 0 <= i < |xs| ==> kind.Has(xs[i])
    ensures s == ListText(xs)
  {
    s := "";
    var i := 0;
    while i < |xs|
      invariant 0 <= i <= |xs| && s == ListText(xs[..i])
    {
      var d := Print(kind, xs[i]);
      ListAppend(xs[..i], xs[i]);
      assert xs[..i + 1] == xs[..i] + [xs[i]];
      s := s + (d + " ");
      i := i + 1;
    }
    assert xs[..i] == xs;
  }

  /** Scans a number of a list and the blank after it. */
  method ScanItem(input: Input, kind: Kind, ghost n: int, ghost rest: string) returns (r: Result<int>)
    requires input.Valid() && kind.Has(n) && input.Contents() == Decimal(n) + (" " + rest)
    modifies input
    ensures input.Valid() && if Lowest(kind, n) then r == TooBig else r == Ok(n) && input.Contents() == rest
  {
    r := Scan(input, kind, n, " " + rest);
    if r.TooBig? { return; }
    var blank := input.Get();
    BlankRead(blank, input.Contents(), rest);
  }

  /** Scans as many numbers, and the blank after each. */
  method ScanList(input: Input, kind: Kind, count: nat, ghost xs: seq<int>) returns (r: Result<seq<int>>)
    requires input.Valid() && |xs| == count && input.Contents() == ListText(xs)
    requires forall i :: 0 <= i < |xs| ==> kind.Has(xs[i])
    modifies input
    ensures if exists i :: 0 <= i < |xs| && Lowest(kind, xs[i]) then r == TooBig else r == Ok(xs)
  {
    var ys: seq<int> := [];
    while |ys| < count
      invariant input.Valid() && ys <= xs && input.Contents() == ListText(xs[|ys|..])
      invariant forall i :: 0 <= i < |ys| ==> !Lowest(kind, xs[i])
      decreases count - |ys|
    {
      ghost var left := xs[|ys|..];
      assert left[0] == xs[|ys|] && left[1..] == xs[|ys| + 1..];
      var one := ScanItem(input, kind, left[0], ListText(left[1..]));
      if one.TooBig? { return TooBig; }
      assert ys + [one.value] == xs[..|ys| + 1];
      ys := ys + [one.value];
    }
    assert ys == xs;
    return Ok(ys);
  }

  lemma {:induction false} ListBytes(xs: seq<int>)
    ensures Bytes(ListText(xs))
  {
    if xs != [] {
      ListBytes(xs[1..]);
      DecimalBytes(xs[0]);
    }
  }

  lemma DecimalBytes(n: int)
    ensures Bytes(Decimal(n))
  {
    TextBytes(if n < 0 then -n else n);
  }

  lemma {:induction false} TextBytes(v: nat)
    ensures Bytes(Text(v, 10, 'a'))
    decreases v
  {
    if v >= 10 { TextBytes(v / 10); }
  }

  /** Printing a list and scanning it gives the list back, unless it has the lowest number of its kind. */
  method RoundTrip(kind: Kind, xs: seq<int>) returns (r: Result<seq<int>>)
    requires forall i :: 0 <= i < |xs| ==> kind.Has(xs[i])
    ensures r == Ok(xs) <==> forall i :: 0 <= i < |xs| ==> !Lowest(kind, xs[i])
    ensures r == Ok(xs) || r == TooBig
  {
    var s := PrintList(kind, xs);
    ListBytes(xs);
    var input := new Input(s);
    r := ScanList(input, kind, |xs|, xs);
  }

  /** What the signed scan gives for a number that is not refused. */
  lemma SignedGives(wide: bool, neg: bool, a: Parts, r: Result<int>, left: string, v: nat)
    requires 2 <= a.base <= 16 && Digits(a.digits, a.base) && a.digits != "" && SignedOk(wide, neg, a, r, left)
    requires v == Wrap(wide, Number(a.digits, a.base)) < Half(wide) && (!wide ==> !Drops(a.digits, a.base))
    ensures r == Ok(if neg then 0 - v else v) && left == a.rest
  {}

  /** The signed scan takes 9999999999 for another number. */
  lemma MissedSigned(neg: bool, r: Result<int>, left: string)
    requires SignedOk(false, neg, Unsigned(Nines(10)), r, left)
    ensures r == Ok(if neg then -1_410_065_407 else 1_410_065_407) && left == ""
  {
    var t := Nines(10);
    MissedNumber();
    DigitsFound(t, "");
    assert t + "" == t;
    SignedGives(false, neg, Unsigned(t), r, left, 1_410_065_407);
  }

  lemma PrintedWhole(n: nat)
    ensures var t := Text(n, 10, 'a'); Unsigned(t) == Parts(t, 10, "") && t != "" && Digits(t, 10) && Number(t, 10) == n
  {
    var t := Text(n, 10, 'a');
    PrintedFound(n, "");
    assert t + "" == t;
  }

  /** What the 64-bit scan gives for a printed number, which may be out of the range. */
  lemma PrintedGives(n: nat, v: nat, neg: bool, r: Result<int>, left: string)
    requires SignedOk(true, neg, Unsigned(Text(n, 10, 'a')), r, left) && v == Wrap(true, n) && v < Half(true)
    ensures r == Ok(if neg then 0 - v else v) && left == ""
  {
    PrintedWhole(n);
    SignedGives(true, neg, Parts(Text(n, 10, 'a'), 10, ""), r, left, v);
  }

  /** It takes the text of 2 to the power 64 plus 5 for 5. */
  lemma MissedWide(neg: bool, r: Result<int>, left: string)
    requires SignedOk(true, neg, Unsigned(Text(PAST_RANGE, 10, 'a')), r, left)
    ensures r == Ok(if neg then -5 else 5) && left == ""
  {
    PrintedGives(PAST_RANGE, 5, neg, r, left);
  }

  const PAST_RANGE: nat := 0x1_0000_0000_0000_0005

  function Nines(n: nat): string { seq(n, _ => '9') }

  lemma {:induction false} NinesValue(n: nat)
    ensures Digits(Nines(n), 10) && Number(Nines(n), 10) == Power(10, n) - 1
  {
    if n > 0 {
      NinesValue(n - 1);
      NumberAppend(Nines(n - 1), 10, '9');
      assert Nines(n) == Nines(n - 1) + ['9'];
    }
  }

  /** A number that is too big may pass: its value wraps without ever getting lower. The scan of this one
      gives 1410065407. */
  lemma MissedNumber()
    ensures var t := Nines(10);
            Digits(t, 10) && Number(t, 10) == 9_999_999_999 && !Drops(t, 10) && Mod32(Number(t, 10)) == 1_410_065_407
  {
    var t := Nines(10);
    NinesValue(10);
    NinePowers();
    forall j | 0 <= j < 10 ensures !DropsAt(t, 10, j) { NinesStep(j); }
  }

  lemma NinesStep(j: nat)
    requires j < 10 && Digits(Nines(10), 10)
    ensures !DropsAt(Nines(10), 10, j)
  {
    NinesPrefix(j);
    NinesPrefix(j + 1);
    if j < 9 { NinesGrow(j); } else { NoDropAtLast(); }
  }

  /** The number of the first j nines. */
  lemma NinesPrefix(j: nat)
    requires j <= 10
    ensures Digits(Nines(10)[..j], 10) && Number(Nines(10)[..j], 10) == Power(10, j) - 1
  {
    assert Nines(10)[..j] == Nines(j);
    NinesValue(j);
  }

  lemma NinePowers()
    ensures Power(10, 9) == 1_000_000_000 && Power(10, 10) == 10_000_000_000
  {
    assert Power(10, 3) == 1000;
    assert Power(10, 6) == 1_000_000;
  }

  lemma {:induction false} PowerUp(j: nat, n: nat)
    requires j <= n
    ensures 1 <= Power(10, j) <= Power(10, n)
    decreases n
  {
    if j < n { PowerUp(j, n - 1); } else if n > 0 { PowerUp(j - 1, n - 1); }
  }

  lemma NinesGrow(j: nat)
    requires j < 9
    ensures 1 <= Power(10, j) && Mod32(Power(10, j) - 1) <= Mod32(Power(10, j + 1) - 1)
  {
    NinePowers();
    PowerUp(j, j + 1);
    PowerUp(j + 1, 9);
    SmallMod(Power(10, j) - 1);
    SmallMod(Power(10, j + 1) - 1);
  }

  lemma NoDropAtLast()
    ensures Mod32(Power(10, 9) - 1) <= Mod32(Power(10, 10) - 1)
  {
    NinePowers();
    SmallMod(999_999_999);
  }
}
