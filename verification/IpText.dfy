/** Reading and printing dotted addresses: sscanf("%i.%i.%i.%i") and its inverse. */
module IpText {
  import opened Wrappers
  import opened Text

  datatype Quad = Quad(first: int, second: int, third: int, fourth: int)

  /** A number read from the front of a text, and what follows it. */
  datatype Scanned = Scanned(n: int, rest: string)

  function DigitIn(c: char, base: nat): Option<nat> {
    var d := if '0' <= c <= '9' then c as int - '0' as int
             else if 'a' <= c <= 'f' then c as int - 'a' as int + 10
             else if 'A' <= c <= 'F' then c as int - 'A' as int + 10
             else 16;
    if d < base then Some(d) else None
  }

  /** All leading digits of the base, after `n` has been read. */
  function ScanDigits(s: string, base: nat, n: nat): Scanned {
    if s == "" || DigitIn(s[0], base).None? then Scanned(n, s)
    else ScanDigits(s[1..], base, n * base + DigitIn(s[0], base).value)
  }

  /** %i without a sign: 0x is hexadecimal, a leading 0 octal, all else decimal. */
  function ScanUnsigned(s: string): Option<Scanned> {
    if s == "" || DigitIn(s[0], 10).None? then None
    else if s[0] != '0' then Some(ScanDigits(s, 10, 0))
    else if |s| >= 2 && (s[1] == 'x' || s[1] == 'X') then
      if |s| >= 3 && DigitIn(s[2], 16).Some? then Some(ScanDigits(s[2..], 16, 0)) else None
    else Some(ScanDigits(s, 8, 0))
  }

  function ScanInt(s: string): Option<Scanned> {
    if s != "" && s[0] == '-' then
      var r := ScanUnsigned(s[1..]);
      if r.None? then None else Some(Scanned(-r.value.n, r.value.rest))
    else if s != "" && s[0] == '+' then ScanUnsigned(s[1..])
    else ScanUnsigned(s)
  }

  function SkipDot(s: string): Option<string> {
    if s != "" && s[0] == '.' then Some(s[1..]) else None
  }

  /** sscanf("%i.%i.%i.%i"); None where it fills fewer than four numbers. */
  function ScanQuad(s: string): Option<Quad> {
    var a := ScanInt(s);
    if a.None? then None else
    var s1 := SkipDot(a.value.rest);
    if s1.None? then None else
    var b := ScanInt(s1.value);
    if b.None? then None else
    var s2 := SkipDot(b.value.rest);
    if s2.None? then None else
    var c := ScanInt(s2.value);
    if c.None? then None else
    var s3 := SkipDot(c.value.rest);
    if s3.None? then None else
    var d := ScanInt(s3.value);
    if d.None? then None else Some(Quad(a.value.n, b.value.n, c.value.n, d.value.n))
  }

  /** The four variables after sscanf("%i.%i.%i.%i"), where `before` is what they held:
      those it does not reach keep it. */
  function Filled(s: string, before: Quad): Quad {
    var a := ScanInt(s);
    if a.None? then before else
    var q := before.(first := a.value.n);
    var s1 := SkipDot(a.value.rest);
    if s1.None? then q else
    var b := ScanInt(s1.value);
    if b.None? then q else
    var q := q.(second := b.value.n);
    var s2 := SkipDot(b.value.rest);
    if s2.None? then q else
    var c := ScanInt(s2.value);
    if c.None? then q else
    var q := q.(third := c.value.n);
    var s3 := SkipDot(c.value.rest);
    if s3.None? then q else
    var d := ScanInt(s3.value);
    if d.None? then q else q.(fourth := d.value.n)
  }

  lemma FilledWhenRead(s: string, before: Quad)
    requires ScanQuad(s).Some?
    ensures Filled(s, before) == ScanQuad(s).value
  {
  }

  /** virtualIPToString(). */
  function Print(q: Quad): string {
    DecInt(q.first) + (['.'] + (DecInt(q.second) + (['.'] + (DecInt(q.third) + (['.'] + DecInt(q.fourth))))))
  }

  predicate Ends(rest: string) {
    rest == "" || rest[0] == '.'
  }

  lemma {:induction false} ScanDigitsOf(s: string, rest: string, n: nat)
    requires (forall i :: 0 <= i < |s| ==> '0' <= s[i] <= '9') && Ends(rest)
    ensures ScanDigits(s + rest, 10, n) == Scanned(Shifted(n, s), rest)
  {
    if s == "" {
      assert s + rest == rest;
    } else {
      assert (s + rest)[1..] == s[1..] + rest;
      ScanDigitsOf(s[1..], rest, n * 10 + (s[0] as int - '0' as int));
    }
  }

  /** The number whose decimal digits are those of n followed by s. */
  function Shifted(n: nat, s: string): nat
    requires forall i :: 0 <= i < |s| ==> '0' <= s[i] <= '9'
    decreases |s|
  {
    if s == "" then n else Shifted(n * 10 + (s[0] as int - '0' as int), s[1..])
  }

  lemma {:induction false} ShiftedSnoc(n: nat, s: string)
    requires s != "" && forall i :: 0 <= i < |s| ==> '0' <= s[i] <= '9'
    ensures Shifted(n, s) == Shifted(n, s[..|s| - 1]) * 10 + (s[|s| - 1] as int - '0' as int)
    decreases |s|
  {
    if |s| == 1 {
      assert s[..0] == "" && s[1..] == "";
    } else {
      ShiftedSnoc(n * 10 + (s[0] as int - '0' as int), s[1..]);
      assert s[1..][..|s| - 2] == s[..|s| - 1][1..];
    }
  }

  lemma {:induction false} ShiftedIsValue(s: string)
    requires forall i :: 0 <= i < |s| ==> '0' <= s[i] <= '9'
    ensures Shifted(0, s) == Value(s)
  {
    if s != "" {
      ShiftedSnoc(0, s);
      ShiftedIsValue(s[..|s| - 1]);
    }
  }

  lemma ScanOfDec(n: nat, rest: string)
    requires Ends(rest)
    ensures ScanUnsigned(Dec(n) + rest) == Some(Scanned(n, rest))
  {
    var s := Dec(n);
    assert (s + rest)[0] == s[0];
    if s[0] == '0' {
      assert s == "0" && (s + rest)[1..] == rest;
      assert ScanDigits(rest, 8, 0) == Scanned(0, rest);
    } else {
      ScanDigitsOf(s, rest, 0);
      ShiftedIsValue(s);
      ValueOfDec(n);
    }
  }

  lemma ScanOfDecInt(i: int, rest: string)
    requires Ends(rest)
    ensures ScanInt(DecInt(i) + rest) == Some(Scanned(i, rest))
  {
    if i < 0 {
      assert (DecInt(i) + rest)[1..] == Dec(-i) + rest;
      ScanOfDec(-i, rest);
    } else {
      ScanOfDec(i, rest);
    }
  }

  /** How %i reads: hexadecimal behind 0x, octal behind 0, and signs. */
  lemma ReadsBases()
    ensures ScanInt("0x1F.") == Some(Scanned(31, ".")) && ScanInt("017.") == Some(Scanned(15, "."))
    ensures ScanInt("-12") == Some(Scanned(-12, "")) && ScanInt("+7") == Some(Scanned(7, "")) && ScanInt("x") == None
    ensures ScanInt("09") == Some(Scanned(0, "9"))
  {
    HexDigits();
    OctalDigits();
    assert "-12"[1..] == "12" && "+7"[1..] == "7";
    assert ScanDigits("2", 10, 1) == Scanned(12, "") by { assert "2"[1..] == ""; }
    assert "12"[1..] == "2" && "7"[1..] == "";
  }

  lemma HexDigits()
    ensures ScanDigits("0x1F."[2..], 16, 0) == Scanned(31, ".")
  {
    assert "0x1F."[2..] == "1F." && "1F."[1..] == "F." && "F."[1..] == ".";
    assert ScanDigits("F.", 16, 1) == ScanDigits(".", 16, 31);
  }

  lemma OctalDigits()
    ensures ScanDigits("017.", 8, 0) == Scanned(15, ".") && ScanDigits("09", 8, 0) == Scanned(0, "9")
  {
    assert "017."[1..] == "17." && "17."[1..] == "7." && "7."[1..] == "." && "09"[1..] == "9";
    assert ScanDigits("17.", 8, 0) == ScanDigits("7.", 8, 1);
    assert ScanDigits("7.", 8, 1) == ScanDigits(".", 8, 15);
  }

  /** Printing and re-reading an address is the identity. */
  lemma ScanOfPrint(q: Quad)
    ensures ScanQuad(Print(q)) == Some(q)
  {
    var t3 := ['.'] + DecInt(q.fourth);
    var t2 := ['.'] + (DecInt(q.third) + t3);
    var t1 := ['.'] + (DecInt(q.second) + t2);
    ScanOfDecInt(q.first, t1);
    ScanOfDecInt(q.second, t2);
    ScanOfDecInt(q.third, t3);
    ScanOfDecInt(q.fourth, "");
    assert DecInt(q.fourth) + "" == DecInt(q.fourth);
    assert t1[1..] == DecInt(q.second) + t2 && t2[1..] == DecInt(q.third) + t3 && t3[1..] == DecInt(q.fourth);
  }

  lemma PrintInjective(p: Quad, q: Quad)
    requires Print(p) == Print(q)
    ensures p == q
  {
    ScanOfPrint(p);
    ScanOfPrint(q);
  }
}
