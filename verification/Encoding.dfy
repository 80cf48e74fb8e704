/** Text as UTF-8 bytes (RFC 3629). */
module Utf8 {
  import opened Wrappers

  type Byte = b: int | 0 <= b < 256

  function EncodeChar(c: char): (bytes: seq<Byte>)
    ensures 1 <= |bytes| <= 4
  {
    var p := c as int;
    if p < 0x80 then [p]
    else if p < 0x800 then [0xC0 + p / 64, 0x80 + p % 64]
    else if p < 0x1_0000 then [0xE0 + p / 4096, 0x80 + p / 64 % 64, 0x80 + p % 64]
    else [0xF0 + p / 262144, 0x80 + p / 4096 % 64, 0x80 + p / 64 % 64, 0x80 + p % 64]
  }

  function Encode(s: string): seq<Byte> {
    if s == "" then [] else EncodeChar(s[0]) + Encode(s[1..])
  }

  predicate IsTail(b: Byte) {
    0x80 <= b < 0xC0
  }

  /** A code point that text may contain, no smaller than its encoded length allows. */
  predicate Acceptable(p: int, least: int) {
    least <= p < 0x11_0000 && !(0xD800 <= p < 0xE000)
  }

  function Point2(a: int, b: int): int {
    (a - 0xC0) * 64 + (b - 0x80)
  }

  function Point3(a: int, b: int, c: int): int {
    (a - 0xE0) * 4096 + (b - 0x80) * 64 + (c - 0x80)
  }

  function Point4(a: int, b: int, c: int, d: int): int {
    (a - 0xF0) * 262144 + (b - 0x80) * 4096 + (c - 0x80) * 64 + (d - 0x80)
  }

  /** The first character and the bytes after it; None for anything that is not well-formed. */
  function DecodeFirst(b: seq<Byte>): (r: Option<(char, seq<Byte>)>)
    ensures r.Some? ==> |r.value.1| < |b|
  {
    if |b| >= 1 && b[0] < 0x80 then Some((b[0] as char, b[1..]))
    else if |b| >= 2 && 0xC0 <= b[0] < 0xE0 && IsTail(b[1]) then
      var p := Point2(b[0], b[1]);
      if Acceptable(p, 0x80) then Some((p as char, b[2..])) else None
    else if |b| >= 3 && 0xE0 <= b[0] < 0xF0 && IsTail(b[1]) && IsTail(b[2]) then
      var p := Point3(b[0], b[1], b[2]);
      if Acceptable(p, 0x800) then Some((p as char, b[3..])) else None
    else if |b| >= 4 && 0xF0 <= b[0] < 0xF8 && IsTail(b[1]) && IsTail(b[2]) && IsTail(b[3]) then
      var p := Point4(b[0], b[1], b[2], b[3]);
      if Acceptable(p, 0x1_0000) then Some((p as char, b[4..])) else None
    else None
  }

  function Decode(b: seq<Byte>): Option<string>
    decreases |b|
  {
    if b == [] then Some("")
    else
      match DecodeFirst(b)
      case None => None
      case Some((c, rest)) =>
        match Decode(rest)
        case None => None
        case Some(s) => Some([c] + s)
  }

  lemma PointsOf(p: int)
    ensures Point2(0xC0 + p / 64, 0x80 + p % 64) == p
    ensures Point3(0xE0 + p / 4096, 0x80 + p / 64 % 64, 0x80 + p % 64) == p
    ensures Point4(0xF0 + p / 262144, 0x80 + p / 4096 % 64, 0x80 + p / 64 % 64, 0x80 + p % 64) == p
  {
  }

  lemma DecodeFirstEncoded(c: char, rest: seq<Byte>)
    ensures DecodeFirst(EncodeChar(c) + rest) == Some((c, rest))
  {
    var code := EncodeChar(c);
    var b, p := code + rest, c as int;
    assert b[|code|..] == rest && forall i | 0 <= i < |code| :: b[i] == code[i];
    PointsOf(p);
    assert p as char == c;
  }

  /** Text survives encoding and decoding. */
  lemma {:induction false} DecodeEncode(s: string)
    ensures Decode(Encode(s)) == Some(s)
  {
    if s != "" {
      DecodeFirstEncoded(s[0], Encode(s[1..]));
      DecodeEncode(s[1..]);
      assert s == [s[0]] + s[1..];
    }
  }

  /** The first example of section 7 of RFC 3629. */
  lemma Example()
    ensures Encode("A\U{2262}\U{0391}.") == [0x41, 0xE2, 0x89, 0xA2, 0xCE, 0x91, 0x2E]
  {
    var s := "A\U{2262}\U{0391}.";
    assert s[1..][0] == '\U{2262}' && s[1..][1..][0] == '\U{0391}' && s[1..][1..][1..] == ".";
    assert "."[1..] == "";
    assert Encode(".") == [0x2E];
    assert Encode(s[1..][1..]) == [0xCE, 0x91] + [0x2E];
    assert Encode(s[1..]) == [0xE2, 0x89, 0xA2] + Encode(s[1..][1..]);
  }
}

/** URL-safe Base64 with padding (section 5 of RFC 4648). */
module Base64 {
  import opened Wrappers
  import opened Utf8

  /** Sixty-four digits and the padding mark. */
  type Sextet = v: int | 0 <= v <= 64

  const PAD: Sextet := 64

  function Symbol(v: Sextet): char {
    if v < 26 then ('A' as int + v) as char
    else if v < 52 then ('a' as int + (v - 26)) as char
    else if v < 62 then ('0' as int + (v - 52)) as char
    else if v == 62 then '-'
    else if v == 63 then '_'
    else '='
  }

  function Value(c: char): Option<Sextet> {
    if 'A' <= c <= 'Z' then Some(c as int - 'A' as int)
    else if 'a' <= c <= 'z' then Some(c as int - 'a' as int + 26)
    else if '0' <= c <= '9' then Some(c as int - '0' as int + 52)
    else if c == '-' then Some(62)
    else if c == '_' then Some(63)
    else if c == '=' then Some(PAD)
    else None
  }

  lemma SymbolValue(v: Sextet)
    ensures Value(Symbol(v)) == Some(v) && Symbol(v) != '.'
  {
  }

  /** Three bytes as four digits, the last group padded. */
  function Group(b: seq<Byte>): seq<Sextet> {
    if b == [] then []
    else if |b| == 1 then [b[0] / 4, b[0] % 4 * 16, PAD, PAD]
    else if |b| == 2 then [b[0] / 4, b[0] % 4 * 16 + b[1] / 16, b[1] % 16 * 4, PAD]
    else [b[0] / 4, b[0] % 4 * 16 + b[1] / 16, b[1] % 16 * 4 + b[2] / 64, b[2] % 64] + Group(b[3..])
  }

  function First(a: int, b: int): int {
    a * 4 + b / 16
  }

  function Second(b: int, c: int): int {
    b % 16 * 16 + c / 4
  }

  function Third(c: int, d: int): int {
    c % 4 * 64 + d
  }

  /** Bytes out of groups of four digits; None when a group is short or padded out of place. */
  function Ungroup(v: seq<Sextet>): Option<seq<Byte>> {
    if v == [] then Some([])
    else if |v| < 4 || v[0] == PAD || v[1] == PAD then None
    else
      var first := First(v[0], v[1]);
      if |v| == 4 && v[2] == PAD && v[3] == PAD then Some([first])
      else if v[2] == PAD then None
      else
        var second := Second(v[1], v[2]);
        if |v| == 4 && v[3] == PAD then Some([first, second])
        else if v[3] == PAD then None
        else
          match Ungroup(v[4..])
          case None => None
          case Some(rest) => Some([first, second, Third(v[2], v[3])] + rest)
  }

  function Encode(b: seq<Byte>): string {
    var v := Group(b);
    seq(|v|, i requires 0 <= i < |v| => Symbol(v[i]))
  }

  function Decode(s: string): Option<seq<Byte>> {
    if exists c :: c in s && Value(c).None? then None
    else Ungroup(seq(|s|, i requires 0 <= i < |s| => Value(s[i]).value))
  }

  lemma BytesOfDigits(x: Byte, y: Byte, z: Byte)
    ensures First(x / 4, x % 4 * 16 + y / 16) == x
    ensures Second(x % 4 * 16 + y / 16, y % 16 * 4 + z / 64) == y
    ensures Third(y % 16 * 4 + z / 64, z % 64) == z
  {
  }

  lemma GroupDecodes(x: Byte, y: Byte, z: Byte, more: seq<Sextet>, rest: seq<Byte>, v: seq<Sextet>)
    requires v == [x / 4, x % 4 * 16 + y / 16, y % 16 * 4 + z / 64, z % 64] + more
    requires Ungroup(more) == Some(rest)
    ensures Ungroup(v) == Some([x, y, z] + rest)
  {
    BytesOfDigits(x, y, z);
    FullGroup(v, more, rest);
  }

  lemma FullGroup(v: seq<Sextet>, more: seq<Sextet>, rest: seq<Byte>)
    requires |v| >= 4 && v[4..] == more && Ungroup(more) == Some(rest)
    requires v[0] < PAD && v[1] < PAD && v[2] < PAD && v[3] < PAD
    ensures Ungroup(v) == Some([First(v[0], v[1]), Second(v[1], v[2]), Third(v[2], v[3])] + rest)
  {
  }

  lemma OneByteDecodes(x: Byte, v: seq<Sextet>)
    requires v == [x / 4, x % 4 * 16, PAD, PAD]
    ensures Ungroup(v) == Some([x])
  {
  }

  lemma TwoBytesDecode(x: Byte, y: Byte, v: seq<Sextet>)
    requires v == [x / 4, x % 4 * 16 + y / 16, y % 16 * 4, PAD]
    ensures Ungroup(v) == Some([x, y])
  {
  }

  lemma {:induction false} UngroupGroup(b: seq<Byte>, v: seq<Sextet>)
    requires v == Group(b)
    ensures Ungroup(v) == Some(b)
  {
    if b == [] {
    } else if |b| == 1 {
      OneByteDecodes(b[0], v);
      assert b == [b[0]];
    } else if |b| == 2 {
      TwoBytesDecode(b[0], b[1], v);
      assert b == [b[0], b[1]];
    } else {
      var rest := b[3..];
      UngroupGroup(rest, Group(rest));
      GroupDecodes(b[0], b[1], b[2], Group(rest), rest, v);
      assert b == [b[0], b[1], b[2]] + rest;
    }
  }

  /** Bytes survive encoding and decoding. */
  lemma DecodeEncode(b: seq<Byte>)
    ensures Decode(Encode(b)) == Some(b)
  {
    var v, s := Group(b), Encode(b);
    forall i | 0 <= i < |s| ensures Value(s[i]) == Some(v[i]) {
      SymbolValue(v[i]);
    }
    assert v == seq(|s|, i requires 0 <= i < |s| => Value(s[i]).value);
    UngroupGroup(b, v);
  }

  /** Encoded text never contains a dot. */
  lemma EncodeHasNoDot(b: seq<Byte>)
    ensures '.' !in Encode(b) && (b != [] ==> Encode(b) != "")
  {
    var v, s := Group(b), Encode(b);
    forall i | 0 <= i < |s| ensures s[i] != '.' {
      SymbolValue(v[i]);
    }
  }

  /** The digits are those of table 2 of RFC 4648: A to Z, a to z, 0 to 9, minus and underscore. */
  lemma Alphabet(v: nat)
    requires v < 63
    ensures Symbol(0) == 'A' && Symbol(26) == 'a' && Symbol(52) == '0' && Symbol(62) == '-' && Symbol(63) == '_'
    ensures v !in {25, 51, 61, 62} ==> Symbol(v + 1) as int == Symbol(v) as int + 1
  {
  }

  function Number(a: int, b: int, c: int, d: int): int {
    a * 262144 + b * 4096 + c * 64 + d
  }

  lemma DigitsOfBytes(x: Byte, y: Byte, z: Byte)
    ensures Number(x / 4, x % 4 * 16 + y / 16, y % 16 * 4 + z / 64, z % 64) == x as int * 65536 + y as int * 256 + z as int
  {
    var a: int, b: int, c: int := x / 4, y / 16, z / 64;
    assert x as int == 4 * a + x % 4;
    assert y as int == 16 * b + y % 16;
    assert z as int == 64 * c + z % 64;
  }

  /** A group of three bytes and its four digits are one number; a short group is filled up with zero bytes and padded. */
  lemma GroupIsOneNumber(x: Byte, y: Byte, z: Byte)
    ensures
      var v := Group([x, y, z]);
      |v| == 4 && Number(v[0], v[1], v[2], v[3]) == x as int * 65536 + y as int * 256 + z as int
    ensures Group([x, y]) == Group([x, y, 0])[..3] + [PAD] && Group([x]) == Group([x, 0, 0])[..2] + [PAD, PAD]
  {
    assert Group([x, y, z][3..]) == [] && Group([x, y, 0][3..]) == [] && Group([x, 0, 0][3..]) == [];
    DigitsOfBytes(x, y, z);
  }

  /** The vectors of section 10 of RFC 4648. */
  lemma Vectors()
    ensures Encode([0x66]) == "Zg=="
    ensures Encode([0x66, 0x6F]) == "Zm8="
    ensures Encode([0x66, 0x6F, 0x6F, 0x62]) == "Zm9vYg=="
  {
    assert Group([0x66]) == [25, 32, PAD, PAD];
    assert Group([0x66, 0x6F]) == [25, 38, 60, PAD];
    assert [0x66, 0x6F, 0x6F, 0x62][3..] == [0x62];
    assert Group([0x62]) == [24, 32, PAD, PAD];
    assert Group([0x66, 0x6F, 0x6F, 0x62]) == [25, 38, 61, 47, 24, 32, PAD, PAD];
  }
}
