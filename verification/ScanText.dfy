/** Scanning integers from a stream of characters with one character of push-back. */
module ScanText {
  import opened Arith

  datatype Result<T> = Ok(value: T) | NotANumber | TooBig

  const EOF: int := -1

  /** The digit a character stands for in a base, -1 if none. */
  function TestBase(chr: int, base: int): (d: int)
    requires 2 <= base <= 16
    ensures -1 <= d < base
  {
    if base < 10 then (if 48 <= chr < 48 + base then chr - 48 else -1)
    else if 48 <= chr <= 57 then chr - 48
    else if 97 <= chr < 97 + base - 10 then chr - 97 + 10
    else if 65 <= chr < 65 + base - 10 then chr - 65 + 10
    else -1
  }

  /** The first character of a text, EOF if there is none. */
  function Peek(t: string): int { if t == [] then EOF else t[0] as int }

  /** The number of digits a text starts with. */
  function Leading(t: string, base: int): (k: nat)
    requires 2 <= base <= 16
    ensures k <= |t|
  {
    if t == [] || TestBase(t[0] as int, base) < 0 then 0 else 1 + Leading(t[1..], base)
  }

  predicate Digits(t: string, base: int)
    requires 2 <= base <= 16
  {
    forall i :: 0 <= i < |t| ==> TestBase(t[i] as int, base) >= 0
  }

  /** The number written by digits. */
  function Number(t: string, base: int): (n: nat)
    requires 2 <= base <= 16 && Digits(t, base)
  {
    if t == [] then 0
    else
      var m: nat := Number(t[..|t| - 1], base);
      NatTimes(m, base);
      m * base + TestBase(t[|t| - 1] as int, base)
  }

  lemma NatTimes(m: nat, b: nat)
    ensures m * b >= 0
  {}

  lemma {:induction false} LeadingDigits(t: string, base: int)
    requires 2 <= base <= 16
    ensures Digits(t[..Leading(t, base)], base)
    ensures Leading(t, base) < |t| ==> TestBase(t[Leading(t, base)] as int, base) < 0
  {
    var k := Leading(t, base);
    if k > 0 {
      LeadingDigits(t[1..], base);
      forall i | 0 <= i < k ensures TestBase(t[..k][i] as int, base) >= 0 {
        if i > 0 { assert t[1..][..k - 1][i - 1] == t[i]; }
      }
    }
  }

  lemma {:induction false} LeadingIs(t: string, k: nat, base: int)
    requires 2 <= base <= 16 && k <= |t| && Digits(t[..k], base)
    requires k < |t| ==> TestBase(t[k] as int, base) < 0
    ensures Leading(t, base) == k
  {
    if k > 0 {
      assert t[..k][0] == t[0];
      assert t[1..][..k - 1] == t[..k][1..];
      LeadingIs(t[1..], k - 1, base);
    }
  }

  /** What the prefix of a number says: where its digits start, and in which base. */
  datatype Prefix = Prefix(zero: bool, base: int, skip: nat)

  function PrefixOf(t: string): (p: Prefix)
    ensures 2 <= p.base <= 16 && p.skip <= |t|
  {
    if Peek(t) != 48 then Prefix(false, 10, 0)
    else
      var c := Peek(t[1..]);
      if c == 120 || c == 88 then Prefix(false, 16, 2)
      else if c == 98 || c == 66 then Prefix(false, 2, 2)
      else if c < 48 || c > 55 then Prefix(true, 10, 1)
      else Prefix(false, 8, 1)
  }

  /** What scanning an unsigned number finds: its text and what follows. */
  datatype Parts = Parts(digits: string, base: int, rest: string)

  function Unsigned(t: string): (p: Parts)
    ensures 2 <= p.base <= 16
    ensures Digits(p.digits, p.base)
  {
    var p := PrefixOf(t);
    if p.zero then Parts("0", 10, t[1..])
    else
      var u := t[p.skip..];
      LeadingDigits(u, p.base);
      Parts(u[..Leading(u, p.base)], p.base, u[Leading(u, p.base)..])
  }

  /** The characters are bytes. */
  predicate Bytes(t: string) {
    forall i :: 0 <= i < |t| ==> t[i] as int < 0x100
  }

  /** The first character, which a scan pushes back after a number, is below 128. */
  predicate StartsClean(t: string) { t == "" || t[0] as int < 0x80 }

  /** A text that starts with a character from 128 on has no number. */
  lemma HighFirst(t: string)
    requires !StartsClean(t)
    ensures Unsigned(t).digits == ""
  {
    assert t[0..] == t;
  }

  /** A character just read, in front of the others. */
  function InFront(chr: int, t: string): string
    requires chr < 0x100
  {
    if chr < 0 then t else [chr as char] + t
  }

  function Wrap64(x: nat): (r: nat)
    ensures r < 0x1_0000_0000_0000_0000 && (x < 0x1_0000_0000_0000_0000 ==> r == x)
  {
    x % 0x1_0000_0000_0000_0000
  }

  function Wrap(wide: bool, x: nat): (r: nat)
    ensures x < (if wide then 0x1_0000_0000_0000_0000 else 0x1_0000_0000) ==> r == x
  {
    if wide then Wrap64(x) else Mod32(x)
  }

  /** The value with one more digit. */
  function Next(wide: bool, val: nat, base: nat, digit: nat): nat {
    NatTimes(val, base);
    Wrap(wide, val * base + digit)
  }

  /** Wrapping along the way comes to the same as wrapping at the end. */
  lemma WrapStep(wide: bool, n: nat, base: nat, d: nat)
    ensures Wrap(wide, Wrap(wide, n) * base + d) == Wrap(wide, n * base + d)
  {
    var w := if wide then 0x1_0000_0000_0000_0000 else 0x1_0000_0000;
    var q := n / w;
    var r := n % w;
    assert n == q * w + r;
    Spread(q, w, r, base);
    ModAdd(r * base + d, w, q * base);
  }

  lemma Spread(q: nat, w: nat, r: nat, b: nat)
    ensures (q * w + r) * b == r * b + (q * b) * w
  {}

  lemma NumberAppend(t: string, base: int, c: char)
    requires 2 <= base <= 16 && Digits(t, base) && TestBase(c as int, base) >= 0
    ensures Digits(t + [c], base) && Number(t + [c], base) == Number(t, base) * base + TestBase(c as int, base)
  {
    assert (t + [c])[..|t|] == t;
  }

  lemma {:induction false} NumberMonotone(t: string, base: int, k: nat)
    requires 2 <= base <= 16 && Digits(t, base) && k <= |t|
    ensures Number(t[..k], base) <= Number(t, base)
    decreases |t| - k
  {
    if k == |t| {
      assert t[..k] == t;
    } else {
      NumberMonotone(t, base, k + 1);
      NumberAppend(t[..k], base, t[k]);
      assert t[..k + 1] == t[..k] + [t[k]];
      MulLe(1, base, if Number(t[..k], base) > 0 then Number(t[..k], base) else 1);
      Commute(Number(t[..k], base), base);
    }
  }

  class Input {
    /** The characters of the stream not read yet, and the one pushed back, if any. */
    var text: string
    var buf: int

    constructor (t: string)
      requires Bytes(t)
      ensures Valid() && Clean() && Contents() == t
    {
      text, buf := t, EOF;
    }

    predicate Valid()
      reads this
    {
      -0x80 <= buf < 0x100 && Bytes(text)
    }

    /** The character pushed back, if any, is below 128: others come out negative when read again. */
    predicate Clean()
      reads this
    {
      buf < 0x80
    }

    /** What is left to read. */
    function Contents(): string
      reads this
      requires Valid()
    {
      InFront(buf, text)
    }

    /** The next character. One from 128 on that was pushed back looks like the end, and is gone. */
    method Get() returns (chr: int)
      requires Valid()
      modifies this
      ensures Valid() && buf < 0 && -0x80 <= chr < 0x100
      ensures old(Clean()) ==> chr == Peek(old(Contents())) && InFront(chr, Contents()) == old(Contents())
      ensures old(Clean()) && chr < 0 ==> Contents() == ""
      ensures !old(Clean()) ==> chr < 0 && Contents() == old(Contents())[1..]
    {
      if buf >= 0 {
        chr := if buf < 0x80 then buf else buf - 0x100;
        buf := EOF;
      } else if text == [] {
        chr := EOF;
      } else {
        chr := text[0] as int;
        text := text[1..];
      }
    }

    method Back(chr: int)
      requires Valid() && buf < 0 && -0x80 <= chr < 0x100
      modifies this
      ensures Valid() && Contents() == InFront(chr, old(Contents())) && (Clean() <==> chr < 0x80)
    {
      buf := chr;
    }

    /** Reads the prefix of a number and the character after it. */
    method ReadPrefix() returns (zero: bool, base: int, chr: int)
      requires Valid()
      modifies this
      ensures Valid() && -0x80 <= chr < 0x100
      ensures old(Clean()) ==> zero == PrefixOf(old(Contents())).zero
      ensures old(Clean()) && zero ==> Contents() == old(Contents())[1..] && (Clean() <==> StartsClean(Contents()))
      ensures old(Clean()) && !zero ==>
                var p := PrefixOf(old(Contents()));
                base == p.base && (chr < 0 ==> Contents() == "") && InFront(chr, Contents()) == old(Contents())[p.skip..]
      ensures !zero ==> buf < 0 && 2 <= base <= 16
      ensures !old(Clean()) ==> !zero && chr < 0 && Contents() == old(Contents())[1..]
    {
      zero, base := false, 10;
      chr := Get();
      if chr == 48 {
        chr := Get();
        if chr == 120 || chr == 88 {
          base := 16;
          chr := Get();
        } else if chr == 98 || chr == 66 {
          base := 2;
          chr := Get();
        } else if chr < 48 || chr > 55 {
          Back(chr);
          zero := true;
        } else {
          base := 8;
        }
      }
    }

    /** Reads the digits of a number, the first being chr; the 32-bit form stops when the value gets lower. */
    method ReadDigits(wide: bool, base: int, chr0: int) returns (val: nat, one: bool, big: bool)
      requires Valid() && 2 <= base <= 16 && -0x80 <= chr0 < 0x100 && buf < 0
      modifies this
      ensures Valid()
      ensures chr0 >= 0 || old(Contents()) == "" ==>
                (big <==> !wide && Drops(LeadingText(InFront(chr0, old(Contents())), base), base))
      ensures (chr0 >= 0 || old(Contents()) == "") && !big ==>
                ReadOut(wide, InFront(chr0, old(Contents())), base, Contents(), val, one) && (Clean() <==> StartsClean(Contents()))
      ensures chr0 < 0 ==> !big && !one && Contents() == old(Contents())
    {
      ghost var u := InFront(chr0, Contents());
      ghost var n := 0;
      ghost var live := chr0 >= 0 || Contents() == "";
      if live { ScanStart(wide, u, base, chr0, Contents()); }
      val, one, big := 0, false, false;
      var chr := chr0;
      var digit := TestBase(chr, base);
      while digit >= 0
        invariant Valid() && buf < 0 && digit == TestBase(chr, base)
        invariant live ==> Reading(wide, u, base, n, chr, Contents(), val, one)
        invariant !live ==> digit < 0 && !one
        invariant chr0 < 0 ==> digit < 0 && chr == chr0 && !one && Contents() == old(Contents())
        decreases |u| - n
      {
        DigitRead(wide, u, base, n, chr, Contents(), val, one);
        var old_val := val;
        val := Next(wide, val, base, digit);
        one := true;
        n := n + 1;
        if !wide && val < old_val {
          big := true;
          return;
        }
        ghost var after := Contents();
        chr := Get();
        NextRead(wide, u, base, n, after, chr, Contents(), val);
        digit := TestBase(chr, base);
      }
      if live { AllRead(wide, u, base, n, chr, Contents(), val, one); }
      if chr >= 0 { Back(chr); }
    }

    /** Scans an unsigned 32-bit number. A number too big may go unnoticed: then its value is wrapped. */
    method ScanULong() returns (r: Result<nat>)
      requires Valid()
      modifies this
      ensures Valid()
      ensures var a := Unsigned(old(Contents())); var n := Number(a.digits, a.base);
              && (r.NotANumber? <==> a.digits == "")
              && (r.TooBig? <==> Drops(a.digits, a.base)) && (r.TooBig? ==> n >= 0x1_0000_0000)
              && (r.Ok? ==> r.value == Mod32(n) && Contents() == a.rest)
      ensures r.Ok? ==> (Clean() <==> StartsClean(Contents()))
      ensures !old(Clean()) ==> r.NotANumber? && Contents() == old(Contents())[1..]
    {
      ghost var a := Unsigned(Contents());
      if Number(a.digits, a.base) < 0x1_0000_0000 { FitsNoDrop(a.digits, a.base); }
      if !Clean() { HighFirst(Contents()); }
      var zero, base, chr := ReadPrefix();
      if zero { return Ok(0); }
      var val, one, big := ReadDigits(false, base, chr);
      if big { return TooBig; }
      if !one { return NotANumber; }
      return Ok(val);
    }

    /** Scans an unsigned 64-bit number. The value of a number too big is wrapped. */
    method ScanULLong() returns (r: Result<nat>)
      requires Valid()
      modifies this
      ensures Valid()
      ensures !r.TooBig? && UnsignedOk(true, Unsigned(old(Contents())), r, Contents())
      ensures r.Ok? ==> (Clean() <==> StartsClean(Contents()))
      ensures !old(Clean()) ==> r.NotANumber? && Contents() == old(Contents())[1..]
    {
      ghost var t := Contents();
      if !Clean() { HighFirst(t); }
      var zero, base, chr := ReadPrefix();
      if zero { return Ok(0); }
      NoDigits(t, chr, Contents());
      if TestBase(chr, base) < 0 { return NotANumber; }
      var val, one, big := ReadDigits(true, base, chr);
      return Ok(val);
    }

    method ScanUnsigned(wide: bool) returns (r: Result<nat>)
      requires Valid()
      modifies this
      ensures Valid()
      ensures UnsignedOk(wide, Unsigned(old(Contents())), r, Contents())
      ensures r.Ok? ==> (Clean() <==> StartsClean(Contents()))
    {
      if wide { r := ScanULLong(); } else { r := ScanULong(); }
    }

    /** Reads a sign, if there is one. */
    method ReadSign() returns (neg: bool)
      requires Valid()
      modifies this
      ensures Valid()
      ensures old(Clean()) ==> Contents() == AfterSign(old(Contents())) && neg == (Peek(old(Contents())) == 45)
      ensures !old(Clean()) ==> Clean() && Contents() == old(Contents())[1..] && !neg
    {
      neg := false;
      var chr := Get();
      if chr == 45 { neg := true; } else if chr != 43 { Back(chr); }
    }

    /** Scans a signed number: a sign, then an unsigned number. */
    method ScanSigned(wide: bool) returns (r: Result<int>)
      requires Valid()
      modifies this
      ensures Valid()
      ensures r.Ok? ==> (Clean() <==> StartsClean(Contents()))
      ensures old(Clean()) ==> SignedOk(wide, Peek(old(Contents())) == 45, Unsigned(AfterSign(old(Contents()))), r, Contents())
      ensures !old(Clean()) ==> SignedOk(wide, false, Unsigned(old(Contents())[1..]), r, Contents())
    {
      var neg := ReadSign();
      ghost var a := Unsigned(Contents());
      var u := ScanUnsigned(wide);
      SignedFrom(wide, neg, a, u, Contents());
      match u
      case NotANumber => return NotANumber;
      case TooBig => return TooBig;
      case Ok(val) => return if val >= Half(wide) then TooBig else Ok(if neg then 0 - val else val);
    }
  }

  /** After its prefix, a text has no number exactly when the next character is no digit. */
  lemma NoDigits(t: string, chr: int, left: string)
    requires -0x80 <= chr < 0x100 && (chr < 0 ==> left == "" || !StartsClean(t))
    ensures var p := PrefixOf(t);
            !p.zero && InFront(chr, left) == t[p.skip..] ==> (Unsigned(t).digits == "" <==> TestBase(chr, p.base) < 0)
  {
    var p := PrefixOf(t);
    if !StartsClean(t) { HighFirst(t); }
    if InFront(chr, left) == t[p.skip..] && chr >= 0 {
      assert t[p.skip..][0] == chr as char;
    }
  }

  /** The answer for an unsigned number: the wrapped number, unless the 32-bit form notices. */
  ghost predicate UnsignedOk(wide: bool, a: Parts, r: Result<nat>, left: string)
    requires 2 <= a.base <= 16 && Digits(a.digits, a.base)
  {
    var n := Number(a.digits, a.base);
    && (r.NotANumber? <==> a.digits == "")
    && (r.TooBig? <==> !wide && Drops(a.digits, a.base))
    && (r.Ok? ==> r.value == Wrap(wide, n) && left == a.rest)
  }

  function Signed(wide: bool, neg: bool, u: Result<nat>): Result<int> {
    match u
    case NotANumber => NotANumber
    case TooBig => TooBig
    case Ok(val) => if val >= Half(wide) then TooBig else Ok(if neg then 0 - val else val)
  }

  lemma SignedFrom(wide: bool, neg: bool, a: Parts, u: Result<nat>, left: string)
    requires 2 <= a.base <= 16 && Digits(a.digits, a.base) && UnsignedOk(wide, a, u, left)
    ensures SignedOk(wide, neg, a, Signed(wide, neg, u), left)
  {}

  /** The answer for a sign and an unsigned number: refused if that is, or if it wraps to half the range or more. */
  ghost predicate SignedOk(wide: bool, neg: bool, a: Parts, r: Result<int>, left: string)
    requires 2 <= a.base <= 16 && Digits(a.digits, a.base)
  {
    var n := Number(a.digits, a.base);
    && (r.NotANumber? <==> a.digits == "")
    && (r.TooBig? <==> Refused(wide, a))
    && (r.Ok? ==> r.value == (if neg then 0 - Wrap(wide, n) else Wrap(wide, n)) && left == a.rest)
  }

  ghost predicate Refused(wide: bool, a: Parts)
    requires 2 <= a.base <= 16 && Digits(a.digits, a.base)
  {
    a.digits != "" && ((!wide && Drops(a.digits, a.base)) || Wrap(wide, Number(a.digits, a.base)) >= Half(wide))
  }

  /** Numbers below half the range are given back, the others up to the range are refused. */
  lemma InRange(wide: bool, neg: bool, a: Parts, r: Result<int>, left: string)
    requires 2 <= a.base <= 16 && Digits(a.digits, a.base) && a.digits != "" && SignedOk(wide, neg, a, r, left)
    requires Number(a.digits, a.base) < 2 * Half(wide)
    ensures if Number(a.digits, a.base) < Half(wide) then
              r == Ok(if neg then 0 - Number(a.digits, a.base) else Number(a.digits, a.base)) && left == a.rest
            else r == TooBig
  {
    if !wide { FitsNoDrop(a.digits, a.base); }
  }

  /** Another number than the one written is given exactly for those that are out of the range, are not noticed
      and wrap to less than half the range. */
  lemma GivenWrong(wide: bool, neg: bool, a: Parts, r: Result<int>, left: string)
    requires 2 <= a.base <= 16 && Digits(a.digits, a.base) && a.digits != "" && SignedOk(wide, neg, a, r, left)
    ensures r.Ok? && r.value != (if neg then 0 - Number(a.digits, a.base) else Number(a.digits, a.base)) <==>
              Number(a.digits, a.base) >= 2 * Half(wide) && !Refused(wide, a)
  {
    if Number(a.digits, a.base) < 2 * Half(wide) {
      InRange(wide, neg, a, r, left);
    }
  }

  /** Half the range of the unsigned numbers. */
  function Half(wide: bool): int { if wide then 0x8000_0000_0000_0000 else 0x8000_0000 }

  /** What follows a sign, if there is one. */
  function AfterSign(t: string): string {
    if Peek(t) == 45 || Peek(t) == 43 then t[1..] else t
  }

  /** The digits read so far are the first n of u; chr is the next character, t what follows. */
  ghost predicate Scanning(wide: bool, u: string, base: int, n: nat, chr: int, t: string, val: nat, one: bool) {
    && 2 <= base <= 16 && n <= Leading(u, base) && -0x80 <= chr < 0x100
    && (chr < 0 ==> t == "") && InFront(chr, t) == u[n..]
    && Digits(u[..n], base) && val == Wrap(wide, Number(u[..n], base)) && one == (n > 0)
  }

  /** The wrapped value gets lower with digit j. */
  ghost predicate DropsAt(t: string, base: int, j: nat)
    requires 2 <= base <= 16 && Digits(t, base) && j < |t|
  {
    EachPrefix(t, base);
    Mod32(Number(t[..j + 1], base)) < Mod32(Number(t[..j], base))
  }

  lemma EachPrefix(t: string, base: int)
    requires 2 <= base <= 16 && Digits(t, base)
    ensures forall n :: 0 <= n <= |t| ==> Digits(t[..n], base)
  {}

  /** So it does somewhere: this is how the 32-bit form knows that a number is too big. */
  ghost predicate Drops(t: string, base: int)
    requires 2 <= base <= 16 && Digits(t, base)
  {
    exists j :: 0 <= j < |t| && DropsAt(t, base, j)
  }

  /** It does not with the first n digits. */
  ghost predicate NoDrop(t: string, base: int, n: nat)
    requires 2 <= base <= 16 && Digits(t, base) && n <= |t|
  {
    forall j :: 0 <= j < n ==> !DropsAt(t, base, j)
  }

  lemma DropStep(t: string, base: int, n: nat)
    requires 2 <= base <= 16 && Digits(t, base) && n < |t| && NoDrop(t, base, n)
    ensures if DropsAt(t, base, n) then Drops(t, base) else NoDrop(t, base, n + 1)
    ensures n + 1 == |t| && !DropsAt(t, base, n) ==> !Drops(t, base)
  {}

  /** It never does for a number that fits. */
  lemma FitsNoDrop(t: string, base: int)
    requires 2 <= base <= 16 && Digits(t, base) && Number(t, base) < 0x1_0000_0000
    ensures !Drops(t, base)
  {
    forall j | 0 <= j < |t| ensures !DropsAt(t, base, j) { NoDropThere(t, base, j); }
  }

  lemma NoDropThere(t: string, base: int, j: nat)
    requires 2 <= base <= 16 && Digits(t, base) && Number(t, base) < 0x1_0000_0000 && j < |t|
    ensures !DropsAt(t, base, j)
  {
    EachPrefix(t, base);
    var a, b := t[..j], t[..j + 1];
    assert b[..j] == a;
    NumberMonotone(t, base, j + 1);
    NumberMonotone(b, base, j);
    SmallMod(Number(a, base));
    SmallMod(Number(b, base));
  }

  /** The leading digits of a text. */
  function LeadingText(u: string, base: int): (t: string)
    requires 2 <= base <= 16
    ensures Digits(t, base) && |t| == Leading(u, base)
  {
    LeadingDigits(u, base);
    u[..Leading(u, base)]
  }

  lemma DigitInside(u: string, base: int, n: nat)
    requires 2 <= base <= 16 && n <= Leading(u, base) && n < |u| && TestBase(u[n] as int, base) >= 0
    ensures n < Leading(u, base) && Digits(u[..n + 1], base)
  {
    LeadingDigits(u, base);
    LeadingEach(u, base, n);
    assert u[..n + 1] == u[..n] + [u[n]];
  }

  lemma {:induction false} LeadingEach(u: string, base: int, n: nat)
    requires 2 <= base <= 16 && n <= Leading(u, base)
    ensures Digits(u[..n], base)
    ensures n < Leading(u, base) ==> TestBase(u[n] as int, base) >= 0
  {
    if n > 0 {
      LeadingEach(u[1..], base, n - 1);
      assert u[..n] == [u[0]] + u[1..][..n - 1];
    }
  }

  lemma DigitValue(wide: bool, u: string, base: int, n: nat)
    requires 2 <= base <= 16 && n < |u| && Digits(u[..n], base) && TestBase(u[n] as int, base) >= 0
    ensures Digits(u[..n + 1], base)
    ensures Wrap(wide, Number(u[..n + 1], base)) == Wrap(wide, Wrap(wide, Number(u[..n], base)) * base + TestBase(u[n] as int, base))
  {
    assert u[..n + 1] == u[..n] + [u[n]];
    NumberAppend(u[..n], base, u[n]);
    WrapStep(wide, Number(u[..n], base), base, TestBase(u[n] as int, base));
  }

  /** One more digit: its value, and whether it makes the value lower. */
  lemma DigitStep(wide: bool, u: string, base: int, n: nat, chr: int, t: string, val: nat, one: bool)
    requires Scanning(wide, u, base, n, chr, t, val, one) && TestBase(chr, base) >= 0
    ensures n < Leading(u, base) && t == u[n + 1..] && Digits(u[..n + 1], base)
    ensures Next(wide, val, base, TestBase(chr, base)) == Wrap(wide, Number(u[..n + 1], base))
    ensures !wide ==> (Next(wide, val, base, TestBase(chr, base)) < val <==> DropsAt(LeadingText(u, base), base, n))
  {
    assert u[n..] == [chr as char] + t;
    assert u[n] == chr as char && t == u[n..][1..];
    DigitInside(u, base, n);
    DigitValue(wide, u, base, n);
    assert LeadingText(u, base)[..n + 1] == u[..n + 1] && LeadingText(u, base)[..n] == u[..n];
  }

  /** The character after a digit. */
  lemma ScanNext(wide: bool, u: string, base: int, n: nat, t: string, chr: int, left: string, val: nat)
    requires 2 <= base <= 16 && n < Leading(u, base) && t == u[n + 1..] && Digits(u[..n + 1], base)
    requires -0x80 <= chr < 0x100 && InFront(chr, left) == t && (chr < 0 ==> left == "")
    requires val == Wrap(wide, Number(u[..n + 1], base))
    ensures Scanning(wide, u, base, n + 1, chr, left, val, true)
  {}

  /** The leading digits of u read: their value, and what is left. */
  ghost predicate ReadOut(wide: bool, u: string, base: int, left: string, val: nat, one: bool)
    requires 2 <= base <= 16
  {
    left == u[Leading(u, base)..] && val == Wrap(wide, Number(LeadingText(u, base), base)) && one == (Leading(u, base) > 0)
  }

  lemma ScanStart(wide: bool, u: string, base: int, chr: int, t: string)
    requires 2 <= base <= 16 && -0x80 <= chr < 0x100 && (chr < 0 ==> t == "") && u == InFront(chr, t)
    ensures Scanning(wide, u, base, 0, chr, t, 0, false)
  {
    assert u[0..] == u && u[..0] == "";
  }

  lemma ScanEnd(wide: bool, u: string, base: int, n: nat, chr: int, t: string, val: nat, one: bool)
    requires Scanning(wide, u, base, n, chr, t, val, one) && TestBase(chr, base) < 0
    ensures n == Leading(u, base) && InFront(chr, t) == u[n..] && val == Wrap(wide, Number(LeadingText(u, base), base))
  {
    LeadingEach(u, base, n);
    if n < |u| { assert u[n..][0] == u[n]; }
  }

  /** The state of ReadDigits before character chr, and after the digit it was. */
  ghost predicate Reading(wide: bool, u: string, base: int, n: nat, chr: int, t: string, val: nat, one: bool) {
    Scanning(wide, u, base, n, chr, t, val, one) && (!wide ==> NoDrop(LeadingText(u, base), base, n))
  }

  ghost predicate DigitDone(wide: bool, u: string, base: int, n: nat, t: string, val: nat) {
    && 2 <= base <= 16 && 0 < n <= Leading(u, base) && t == u[n..] && Digits(u[..n], base)
    && val == Wrap(wide, Number(u[..n], base)) && (!wide ==> NoDrop(LeadingText(u, base), base, n))
  }

  /** A digit: either the value drops, or one more is read. */
  lemma DigitRead(wide: bool, u: string, base: int, n: nat, chr: int, t: string, val: nat, one: bool)
    requires Reading(wide, u, base, n, chr, t, val, one) && TestBase(chr, base) >= 0
    ensures n < |u|
    ensures var v := Next(wide, val, base, TestBase(chr, base));
            if !wide && v < val then Drops(LeadingText(u, base), base) else DigitDone(wide, u, base, n + 1, t, v)
  {
    DigitStep(wide, u, base, n, chr, t, val, one);
    if !wide { DropStep(LeadingText(u, base), base, n); }
  }

  lemma NextRead(wide: bool, u: string, base: int, n: nat, t: string, chr: int, left: string, val: nat)
    requires DigitDone(wide, u, base, n, t, val)
    requires -0x80 <= chr < 0x100 && InFront(chr, left) == t && (chr < 0 ==> left == "")
    ensures Reading(wide, u, base, n, chr, left, val, true)
  {
    ScanNext(wide, u, base, n - 1, t, chr, left, val);
  }

  /** No digit any more. */
  lemma AllRead(wide: bool, u: string, base: int, n: nat, chr: int, t: string, val: nat, one: bool)
    requires Reading(wide, u, base, n, chr, t, val, one) && TestBase(chr, base) < 0
    ensures ReadOut(wide, u, base, InFront(chr, t), val, one)
    ensures !wide ==> !Drops(LeadingText(u, base), base)
  {
    ScanEnd(wide, u, base, n, chr, t, val, one);
  }
}
