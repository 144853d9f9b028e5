/** The texts a scan of an unsigned number finds, with the prefixes of the bases. */
module ScanBases {
  import opened Arith
  import opened PrintText
  import opened ScanText
  import opened PrintScan

  /** No digit of the base follows. */
  predicate Stops(rest: string, base: int)
    requires 2 <= base <= 16
  {
    rest == "" || TestBase(rest[0] as int, base) < 0
  }

  lemma AfterPrefix(pre: string, s: string, rest: string, base: int)
    requires 2 <= base <= 16 && Digits(s, base) && Stops(rest, base)
    requires PrefixOf(pre + s + rest) == Prefix(false, base, |pre|)
    ensures Unsigned(pre + s + rest) == Parts(s, base, rest)
  {
    var t, u := pre + s + rest, s + rest;
    assert t[|pre|..] == u;
    assert u[..|s|] == s && u[|s|..] == rest;
    if rest != "" { assert u[|s|] == rest[0]; }
    LeadingIs(u, |s|, base);
  }

  /** 0x or 0X, then digits of base 16. */
  lemma HexFound(pre: string, s: string, rest: string)
    requires (pre == "0x" || pre == "0X") && Digits(s, 16) && Stops(rest, 16)
    ensures Unsigned(pre + s + rest) == Parts(s, 16, rest)
  {
    var t := pre + s + rest;
    assert t[0] == pre[0] && t[1..][0] == pre[1];
    AfterPrefix(pre, s, rest, 16);
  }

  /** 0b or 0B, then digits of base 2. */
  lemma BinaryFound(pre: string, s: string, rest: string)
    requires (pre == "0b" || pre == "0B") && Digits(s, 2) && Stops(rest, 2)
    ensures Unsigned(pre + s + rest) == Parts(s, 2, rest)
  {
    var t := pre + s + rest;
    assert t[0] == pre[0] && t[1..][0] == pre[1];
    AfterPrefix(pre, s, rest, 2);
  }

  /** 0, then digits of base 8. */
  lemma OctalFound(s: string, rest: string)
    requires s != "" && Digits(s, 8) && Stops(rest, 8)
    ensures Unsigned("0" + s + rest) == Parts(s, 8, rest)
  {
    var t := "0" + s + rest;
    assert t[0] == '0' && t[1..] == s + rest && (s + rest)[0] == s[0];
    AfterPrefix("0", s, rest, 8);
  }

  /** 0 with no prefix's character nor octal digit after it. */
  lemma ZeroAlone(rest: string)
    requires rest == "" || (rest[0] !in "xXbB" && TestBase(rest[0] as int, 8) < 0)
    ensures Unsigned("0" + rest) == Parts("0", 10, rest)
  {
    var t := "0" + rest;
    assert t[0] == '0' && t[1..] == rest;
  }

  /** So a 0 before an 8 is a number by itself. */
  lemma ZeroEight(rest: string)
    ensures Unsigned("08" + rest) == Parts("0", 10, "8" + rest)
  {
    ZeroAlone("8" + rest);
    assert "08" + rest == "0" + ("8" + rest);
  }

  /** Digits of base 10 that do not start with 0, or no digit at all. */
  lemma DecimalFound(s: string, rest: string)
    requires Digits(s, 10) && Stops(rest, 10) && (s != "" ==> s[0] != '0')
    ensures Unsigned(s + rest) == Parts(s, 10, rest)
  {
    var t := "" + s + rest;
    assert t == s + rest;
    if s != "" { assert t[0] == s[0]; }
    AfterPrefix("", s, rest, 10);
  }

  /** A sign is one character, plus or minus. */
  lemma SignFound(c: char, t: string)
    ensures AfterSign([c] + t) == if c == '+' || c == '-' then t else [c] + t
    ensures Peek([c] + t) == 45 <==> c == '-'
  {
    assert ([c] + t)[1..] == t;
  }

  datatype Notation = Hex(pre: string) | Binary(pre: string) | Octal | Decimal {
    predicate Ok() {
      match this
      case Hex(pre) => pre == "0x" || pre == "0X"
      case Binary(pre) => pre == "0b" || pre == "0B"
      case _ => true
    }

    function Base(): (b: int)
      ensures 2 <= b <= 16
    {
      match this case Hex(_) => 16 case Binary(_) => 2 case Octal => 8 case Decimal => 10
    }

    function Pre(): string {
      match this case Hex(pre) => pre case Binary(pre) => pre case Octal => "0" case Decimal => ""
    }

    /** A number in this notation, with lower or upper-case digits. */
    function Form(v: nat, enc: char): string
      requires enc as int < 0x80
    {
      Pre() + Text(v, Base(), enc)
    }
  }

  lemma DigitsAfter(n: Notation, s: string, rest: string)
    requires n.Ok() && s != "" && Digits(s, n.Base()) && Stops(rest, n.Base()) && (n.Decimal? ==> s[0] != '0')
    ensures Unsigned(n.Pre() + s + rest) == Parts(s, n.Base(), rest)
  {
    match n
    case Hex(pre) => HexFound(pre, s, rest);
    case Binary(pre) => BinaryFound(pre, s, rest);
    case Octal => OctalFound(s, rest);
    case Decimal =>
      DecimalFound(s, rest);
      assert "" + s == s;
  }

  /** Every number is found whole in every notation. */
  lemma NotationFound(n: Notation, v: nat, enc: char, rest: string)
    requires n.Ok() && (enc == 'a' || enc == 'A') && Stops(rest, n.Base()) && (n.Decimal? ==> v > 0)
    ensures Unsigned(n.Form(v, enc) + rest) == Parts(Text(v, n.Base(), enc), n.Base(), rest)
    ensures Writes(Text(v, n.Base(), enc), v, n.Base())
  {
    TextDigits(v, n.Base(), enc);
    DigitsAfter(n, Text(v, n.Base(), enc), rest);
  }

  /** Scanning a number in any notation gives its value and leaves what follows. */
  method ScanNotation(input: Input, n: Notation, v: nat, enc: char, rest: string) returns (r: Result<nat>)
    requires input.Valid() && n.Ok() && (enc == 'a' || enc == 'A') && v < 0x1_0000_0000
    requires Stops(rest, n.Base()) && (n.Decimal? ==> v > 0)
    requires input.Contents() == n.Form(v, enc) + rest
    modifies input
    ensures input.Valid() && r == Ok(v) && input.Contents() == rest
  {
    NotationFound(n, v, enc, rest);
    FitsNoDrop(Text(v, n.Base(), enc), n.Base());
    SmallMod(v);
    r := input.ScanULong();
  }
}
