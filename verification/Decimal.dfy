/** Decimal printing and parsing of integers: Python's `str(n)` and the part of `int(s)` that reads its output. */
module Decimal {
  import opened Wrappers

  predicate IsDigit(c: char) {
    '0' <= c <= '9'
  }

  predicate AllDigits(s: string) {
    forall i | 0 <= i < |s| :: IsDigit(s[i])
  }

  function DigitChar(d: nat): (c: char)
    requires d < 10
    ensures IsDigit(c) && DigitValue(c) == d
  {
    ('0' as int + d) as char
  }

  function DigitValue(c: char): nat
    requires IsDigit(c)
  {
    c as int - '0' as int
  }

  function PrintNat(n: nat): (s: string)
    ensures s != [] && AllDigits(s)
  {
    if n < 10 then [DigitChar(n)] else PrintNat(n / 10) + [DigitChar(n % 10)]
  }

  function Print(n: int): (s: string)
    ensures s != []
  {
    if n < 0 then "-" + PrintNat(-n) else PrintNat(n)
  }

  function ParseDigits(s: string): nat
    requires AllDigits(s)
  {
    if s == [] then 0 else ParseDigits(s[..|s| - 1]) * 10 + DigitValue(s[|s| - 1])
  }

  function ParseNat(s: string): Option<nat> {
    if s != [] && AllDigits(s) then Some(ParseDigits(s)) else None
  }

  function Parse(s: string): Option<int> {
    if s != [] && s[0] == '-' then
      match ParseNat(s[1..])
      case Some(n) => Some(0 - n)
      case None => None
    else
      match ParseNat(s)
      case Some(n) => Some(n)
      case None => None
  }

  lemma {:induction false} ParsePrintNat(n: nat)
    ensures ParseDigits(PrintNat(n)) == n
  {
    if n >= 10 {
      ParsePrintNat(n / 10);
      assert PrintNat(n)[..|PrintNat(n)| - 1] == PrintNat(n / 10);
    }
  }

  lemma ParseNatPrint(n: nat)
    ensures ParseNat(PrintNat(n)) == Some(n) && PrintNat(n)[0] != '-'
  {
    ParsePrintNat(n);
    assert IsDigit(PrintNat(n)[0]);
  }

  lemma ParseMinus(s: string, n: nat)
    requires ParseNat(s) == Some(n)
    ensures Parse("-" + s) == Some(0 - n)
  {
    assert ("-" + s)[1..] == s;
  }

  /** Reading what was printed gives the number back. */
  lemma ParsePrint(n: int)
    ensures Parse(Print(n)) == Some(n)
  {
    if n < 0 {
      ParseNatPrint(-n);
      ParseMinus(PrintNat(-n), -n);
    } else {
      ParseNatPrint(n);
    }
  }

  lemma PrintInjective(a: int, b: int)
    requires Print(a) == Print(b)
    ensures a == b
  {
    ParsePrint(a);
    ParsePrint(b);
  }

  /** A printed integer is made of digits and at most a leading minus sign. */
  lemma PrintCharacters(n: int)
    ensures forall i | 0 <= i < |Print(n)| :: IsDigit(Print(n)[i]) || Print(n)[i] == '-'
  {
  }

  /** Number text of at least `width` characters, padded with zeros on the left (Python's `:04d`). */
  function Padded(n: nat, width: nat): (s: string)
    ensures |s| >= width && AllDigits(s)
  {
    Zeros(width - |PrintNat(n)|) + PrintNat(n)
  }

  function Zeros(k: int): (s: string)
    ensures |s| == (if k < 0 then 0 else k)
    ensures forall i | 0 <= i < |s| :: s[i] == '0'
  {
    if k <= 0 then "" else "0" + Zeros(k - 1)
  }

  lemma {:induction false} ParseZeros(z: string, s: string)
    requires AllDigits(s) && forall i | 0 <= i < |z| :: z[i] == '0'
    ensures AllDigits(z + s) && ParseDigits(z + s) == ParseDigits(s)
    decreases |s|, |z|
  {
    if s != [] {
      ParseZeros(z, s[..|s| - 1]);
      assert (z + s)[..|z + s| - 1] == z + s[..|s| - 1];
    } else if z != [] {
      assert z + s == z;
      ParseZeros(z[..|z| - 1], s);
      assert z[..|z| - 1] + s == z[..|z| - 1];
    } else {
      assert z + s == s;
    }
  }

  lemma ParsePadded(n: nat, width: nat)
    ensures ParseDigits(Padded(n, width)) == n
  {
    ParseZeros(Zeros(width - |PrintNat(n)|), PrintNat(n));
    ParsePrintNat(n);
  }

  function PowerOfTen(width: nat): nat {
    if width == 0 then 1 else 10 * PowerOfTen(width - 1)
  }

  lemma {:induction false} PrintLength(n: nat, width: nat)
    requires width >= 1 && n < PowerOfTen(width)
    ensures |PrintNat(n)| <= width
  {
    if n >= 10 {
      PrintLength(n / 10, width - 1);
    }
  }

  /** A number that fits the width is padded to exactly that width. */
  lemma PaddedFits(n: nat, width: nat)
    requires width >= 1 && n < PowerOfTen(width)
    ensures |Padded(n, width)| == width
  {
    PrintLength(n, width);
  }

  /** Most significant digit first, and zeros in front. */
  lemma Examples()
    ensures Print(-1205) == "-1205" && Padded(7, 2) == "07" && Padded(2026, 4) == "2026"
  {
    assert PrintNat(12) == "12";
    assert PrintNat(120) == "120";
    assert PrintNat(1205) == "1205";
    assert PrintNat(20) == "20";
    assert PrintNat(202) == "202";
    assert PrintNat(2026) == "2026";
    assert PrintNat(7) == "7";
    assert Zeros(1) == "0" && Zeros(0) == "";
  }
}
