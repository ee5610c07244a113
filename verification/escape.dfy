/**
  `Uri.EscapeDataString`: every character outside the unreserved set of
  section 2.3 of RFC 3986 is replaced by its UTF-8 bytes, each written as
  "%XX" with upper-case hexadecimal digits (section 2.1 of RFC 3986).
 */
module UriEscape {

  /** The unreserved characters: letters, digits, "-", ".", "_" and "~". */
  predicate IsUnreserved(c: char) {
    || ('A' <= c <= 'Z')
    || ('a' <= c <= 'z')
    || ('0' <= c <= '9')
    || c == '-' || c == '.' || c == '_' || c == '~'
  }

  predicate IsByte(b: int) {
    0 <= b < 256
  }

  predicate AllBytes(bs: seq<int>) {
    forall i :: 0 <= i < |bs| ==> IsByte(bs[i])
  }

  /** The UTF-8 encoding of one Unicode scalar value. */
  function Utf8(c: char): (bs: seq<int>)
    ensures 1 <= |bs| <= 4 && AllBytes(bs)
    ensures c as int < 0x80 <==> bs == [c as int]
  {
    var n := c as int;
    if n < 0x80 then [n]
    else if n < 0x800 then [0xC0 + n / 0x40, 0x80 + n % 0x40]
    else if n < 0x1_0000 then [0xE0 + n / 0x1000, 0x80 + (n / 0x40) % 0x40, 0x80 + n % 0x40]
    else [0xF0 + n / 0x4_0000, 0x80 + (n / 0x1000) % 0x40, 0x80 + (n / 0x40) % 0x40, 0x80 + n % 0x40]
  }

  /** The UTF-8 encoding of a string. */
  function Utf8String(s: string): seq<int> {
    if s == [] then [] else Utf8(s[0]) + Utf8String(s[1..])
  }

  predicate IsHexDigit(c: char) {
    ('0' <= c <= '9') || ('A' <= c <= 'F') || ('a' <= c <= 'f')
  }

  function HexDigit(d: nat): (c: char)
    requires d < 16
    ensures IsHexDigit(c) && IsUnreserved(c) && HexValue(c) == d
  {
    "0123456789ABCDEF"[d]
  }

  function HexValue(c: char): nat
    requires IsHexDigit(c)
  {
    if '0' <= c <= '9' then c as int - '0' as int
    else if 'A' <= c <= 'F' then c as int - 'A' as int + 10
    else c as int - 'a' as int + 10
  }

  /** Each byte as "%XX". */
  function Percent(bs: seq<int>): (s: string)
    requires AllBytes(bs)
    ensures |s| == 3 * |bs|
    ensures forall i :: 0 <= i < |s| ==> IsUnreserved(s[i]) || s[i] == '%'
  {
    if bs == [] then [] else ['%', HexDigit(bs[0] / 16), HexDigit(bs[0] % 16)] + Percent(bs[1..])
  }

  /** One character, escaped. */
  function EscapeChar(c: char): (s: string)
    ensures forall i :: 0 <= i < |s| ==> IsUnreserved(s[i]) || s[i] == '%'
  {
    if IsUnreserved(c) then [c] else Percent(Utf8(c))
  }

  /** `Uri.EscapeDataString`. */
  function EscapeDataString(s: string): (r: string)
    ensures forall i :: 0 <= i < |r| ==> IsUnreserved(r[i]) || r[i] == '%'
    ensures (forall i :: 0 <= i < |s| ==> IsUnreserved(s[i])) ==> r == s
  {
    if s == [] then [] else EscapeChar(s[0]) + EscapeDataString(s[1..])
  }

  /**
    Percent-decoding to bytes, as a server reads a query value: "%XX" is one
    byte, any other character stands for its own code.
   */
  function PercentDecode(s: string): seq<int> {
    if s == [] then []
    else if s[0] == '%' && |s| >= 3 && IsHexDigit(s[1]) && IsHexDigit(s[2]) then
      [16 * HexValue(s[1]) + HexValue(s[2])] + PercentDecode(s[3..])
    else
      [s[0] as int] + PercentDecode(s[1..])
  }

  lemma {:induction false} DecodePercent(bs: seq<int>, rest: string)
    requires AllBytes(bs)
    ensures PercentDecode(Percent(bs) + rest) == bs + PercentDecode(rest)
  {
    if bs != [] {
      var b := bs[0];
      var tail := Percent(bs[1..]) + rest;
      PercentFirst(bs, rest);
      DecodeByte(b, tail);
      DecodePercent(bs[1..], rest);
      ConsAppend(b, bs[1..], PercentDecode(rest));
      assert [b] + bs[1..] == bs;
    } else {
      assert Percent(bs) == [];
      assert Percent(bs) + rest == rest;
      assert bs + PercentDecode(rest) == PercentDecode(rest);
    }
  }

  /** The first byte's "%XX" comes first. */
  lemma PercentFirst(bs: seq<int>, rest: string)
    requires AllBytes(bs) && bs != []
    ensures Percent(bs) + rest == ['%', HexDigit(bs[0] / 16), HexDigit(bs[0] % 16)] + (Percent(bs[1..]) + rest)
  {
  }

  /** A byte's "%XX" decodes back to the byte. */
  lemma DecodeByte(b: int, tail: string)
    requires IsByte(b)
    ensures PercentDecode(['%', HexDigit(b / 16), HexDigit(b % 16)] + tail) == [b] + PercentDecode(tail)
  {
    DecodeHexPair(HexDigit(b / 16), HexDigit(b % 16), tail);
    HexPairValue(b);
  }

  lemma ConsAppend(b: int, xs: seq<int>, ys: seq<int>)
    ensures [b] + (xs + ys) == ([b] + xs) + ys
  {
  }

  /** The two hex digits of a byte spell the byte. */
  lemma HexPairValue(b: int)
    requires IsByte(b)
    ensures 16 * HexValue(HexDigit(b / 16)) + HexValue(HexDigit(b % 16)) == b
  {
    assert HexValue(HexDigit(b / 16)) == b / 16;
    assert HexValue(HexDigit(b % 16)) == b % 16;
  }

  /** "%" and two hex digits decode to the byte they spell. */
  lemma DecodeHexPair(hi: char, lo: char, tail: string)
    requires IsHexDigit(hi) && IsHexDigit(lo)
    ensures PercentDecode(['%', hi, lo] + tail) == [16 * HexValue(hi) + HexValue(lo)] + PercentDecode(tail)
  {
    var s := ['%', hi, lo] + tail;
    assert s[0] == '%' && s[1] == hi && s[2] == lo;
    assert s[3..] == tail;
  }

  lemma DecodeEscapeChar(c: char, rest: string)
    ensures PercentDecode(EscapeChar(c) + rest) == Utf8(c) + PercentDecode(rest)
  {
    if IsUnreserved(c) {
      assert ([c] + rest)[1..] == rest;
    } else {
      DecodePercent(Utf8(c), rest);
    }
  }

  /**
    Escaping loses nothing: percent-decoding the escaped text gives exactly
    the UTF-8 bytes of the original.
   */
  lemma {:induction false} DecodeEscape(s: string)
    ensures PercentDecode(EscapeDataString(s)) == Utf8String(s)
  {
    if s != [] {
      DecodeEscape(s[1..]);
      DecodeEscapeChar(s[0], EscapeDataString(s[1..]));
    }
  }

  /** The escaped text holds none of the characters that delimit a URL query. */
  lemma EscapedHasNoDelimiters(s: string)
    ensures var r := EscapeDataString(s);
      '&' !in r && '=' !in r && '#' !in r && '?' !in r && '+' !in r && ' ' !in r
  {
    var r := EscapeDataString(s);
    forall i | 0 <= i < |r|
      ensures r[i] != '&' && r[i] != '=' && r[i] != '#' && r[i] != '?' && r[i] != '+' && r[i] != ' '
    {
      assert IsUnreserved(r[i]) || r[i] == '%';
    }
  }

  /** "Nutella" needs no escaping. */
  lemma EscapeUnreservedExample()
    ensures EscapeDataString("Nutella") == "Nutella"
  {
    assert forall i :: 0 <= i < |"Nutella"| ==> IsUnreserved("Nutella"[i]);
  }

  /** A space becomes "%20". */
  lemma EscapeSpaceExample()
    ensures EscapeDataString("a b") == "a%20b"
  {
    assert Percent([0x20]) == "%20";
    assert EscapeChar(' ') == "%20";
    var s := "a b";
    assert EscapeDataString(s[2..]) == "b";
    assert EscapeDataString(s[1..]) == "%20b";
  }

  /** "â" (U+00E2) becomes its two UTF-8 bytes, "%C3%A2". */
  lemma EscapeNonAsciiExample()
    ensures EscapeDataString("â") == "%C3%A2"
  {
    Utf8TwoBytes();
    PercentTwoBytes();
    assert EscapeChar('â') == "%C3%A2";
    assert "â"[1..] == [];
  }

  lemma Utf8TwoBytes()
    ensures Utf8('â') == [0xC3, 0xA2]
  {
    assert 'â' as int == 0xE2;
  }

  lemma PercentTwoBytes()
    ensures Percent([0xC3, 0xA2]) == "%C3%A2"
  {
    assert HexDigit(0xC) == 'C' && HexDigit(3) == '3';
    assert HexDigit(0xA) == 'A' && HexDigit(2) == '2';
    assert Percent([0xA2]) == "%A2";
    assert [0xC3, 0xA2][1..] == [0xA2];
  }
}
