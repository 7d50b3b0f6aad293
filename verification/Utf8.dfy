/** UTF-8 (RFC 3629): the encoder, and the strict decoder with its habit of dropping a byte order
    mark at the start. */
module Utf8 {
  import opened Queries
  import Base64Url

  type Byte = Base64Url.Byte

  predicate IsTail(b: Byte) {
    0x80 <= b < 0xC0
  }

  function EncodeChar(c: char): seq<Byte> {
    var n := c as int;
    if n < 0x80 then [n]
    else if n < 0x800 then [0xC0 + n / 64, 0x80 + n % 64]
    else if n < 0x10000 then [0xE0 + n / 4096, 0x80 + n / 64 % 64, 0x80 + n % 64]
    else [0xF0 + n / 262144, 0x80 + n / 4096 % 64, 0x80 + n / 64 % 64, 0x80 + n % 64]
  }

  function Encode(text: string): seq<Byte> {
    if text == "" then [] else EncodeChar(text[0]) + Encode(text[1..])
  }

  predicate IsScalar(n: int) {
    0 <= n < 0xD800 || 0xE000 <= n < 0x110000
  }

  function Combine2(a: int, b: int): int {
    (a - 0xC0) * 64 + (b - 0x80)
  }

  function Combine3(a: int, b: int, c: int): int {
    (a - 0xE0) * 4096 + (b - 0x80) * 64 + (c - 0x80)
  }

  function Combine4(a: int, b: int, c: int, d: int): int {
    (a - 0xF0) * 262144 + (b - 0x80) * 4096 + (c - 0x80) * 64 + (d - 0x80)
  }

  /** The first character and how many bytes it takes; none if the bytes are malformed, overlong, a
      surrogate or out of range. */
  function DecodeFirst(bytes: seq<Byte>): (r: Option<(char, nat)>)
    requires bytes != []
    ensures r.Some? ==> 1 <= r.value.1 <= |bytes|
  {
    var a: int := bytes[0];
    if a < 0x80 then Some((a as char, 1))
    else if 0xC2 <= a < 0xE0 && |bytes| >= 2 && IsTail(bytes[1]) then Some((Combine2(a, bytes[1]) as char, 2))
    else if 0xE0 <= a < 0xF0 && |bytes| >= 3 && IsTail(bytes[1]) && IsTail(bytes[2]) then
      var n := Combine3(a, bytes[1], bytes[2]);
      if n >= 0x800 && IsScalar(n) then Some((n as char, 3)) else None
    else if 0xF0 <= a < 0xF8 && |bytes| >= 4 && IsTail(bytes[1]) && IsTail(bytes[2]) && IsTail(bytes[3]) then
      var n := Combine4(a, bytes[1], bytes[2], bytes[3]);
      if n >= 0x10000 && IsScalar(n) then Some((n as char, 4)) else None
    else None
  }

  function DecodeStrict(bytes: seq<Byte>): Option<string> {
    if bytes == [] then Some("")
    else
      var first := DecodeFirst(bytes);
      if first.None? then None
      else
        var rest := DecodeStrict(bytes[first.value.1..]);
        if rest.None? then None else Some([first.value.0] + rest.value)
  }

  const BOM: seq<Byte> := [0xEF, 0xBB, 0xBF]

  /** What a strict text decoder makes of the bytes: a leading byte order mark disappears. */
  function DecodeText(bytes: seq<Byte>): Option<string> {
    DecodeStrict(if BOM <= bytes then bytes[3..] else bytes)
  }

  lemma SplitsAndCombines(n: int)
    requires 0 <= n < 0x110000
    ensures n == Combine2(0xC0 + n / 64, 0x80 + n % 64)
    ensures n == Combine3(0xE0 + n / 4096, 0x80 + n / 64 % 64, 0x80 + n % 64)
    ensures n == Combine4(0xF0 + n / 262144, 0x80 + n / 4096 % 64, 0x80 + n / 64 % 64, 0x80 + n % 64)
  {
    assert n / 4096 == n / 64 / 64 && n / 262144 == n / 4096 / 64;
  }

  lemma CombinesAndSplits2(a: int, b: int)
    requires 0x80 <= b < 0xC0
    ensures var n := Combine2(a, b); a == 0xC0 + n / 64 && b == 0x80 + n % 64
  {
  }

  lemma CombinesAndSplits3(a: int, b: int, c: int)
    requires 0x80 <= b < 0xC0 && 0x80 <= c < 0xC0
    ensures var n := Combine3(a, b, c); a == 0xE0 + n / 4096 && b == 0x80 + n / 64 % 64 && c == 0x80 + n % 64
  {
    var high := (a - 0xE0) * 64 + (b - 0x80);
    assert Combine3(a, b, c) == high * 64 + (c - 0x80);
    assert Combine3(a, b, c) / 64 == high;
  }

  lemma CombinesAndSplits4(a: int, b: int, c: int, d: int)
    requires 0x80 <= b < 0xC0 && 0x80 <= c < 0xC0 && 0x80 <= d < 0xC0
    ensures var n := Combine4(a, b, c, d);
      a == 0xF0 + n / 262144 && b == 0x80 + n / 4096 % 64 && c == 0x80 + n / 64 % 64 && d == 0x80 + n % 64
  {
    var top := (a - 0xF0) * 64 + (b - 0x80);
    var high := top * 64 + (c - 0x80);
    assert Combine4(a, b, c, d) == high * 64 + (d - 0x80);
    assert Combine4(a, b, c, d) / 64 == high;
    assert Combine4(a, b, c, d) / 4096 == top;
  }

  lemma FirstOfEncoded(c: char, rest: seq<Byte>)
    ensures EncodeChar(c) + rest != []
    ensures DecodeFirst(EncodeChar(c) + rest) == Some((c, |EncodeChar(c)|))
  {
    hide Combine2;
    hide Combine3;
    hide Combine4;
    var n := c as int;
    SplitsAndCombines(n);
    var bytes := EncodeChar(c) + rest;
    assert forall i | 0 <= i < |EncodeChar(c)| :: bytes[i] == EncodeChar(c)[i];
  }

  lemma EncodedFirst(bytes: seq<Byte>)
    requires bytes != [] && DecodeFirst(bytes).Some?
    ensures EncodeChar(DecodeFirst(bytes).value.0) == bytes[..DecodeFirst(bytes).value.1]
  {
    var n := DecodeFirst(bytes).value.1;
    if n == 2 {
      CombinesAndSplits2(bytes[0], bytes[1]);
    } else if n == 3 {
      CombinesAndSplits3(bytes[0], bytes[1], bytes[2]);
    } else if n == 4 {
      CombinesAndSplits4(bytes[0], bytes[1], bytes[2], bytes[3]);
    }
  }

  lemma {:induction false} DecodeInvertsEncode(text: string)
    ensures DecodeStrict(Encode(text)) == Some(text)
  {
    if text == "" {
      assert Encode(text) == [];
    } else {
      hide EncodeChar;
      hide DecodeFirst;
      DecodeInvertsEncode(text[1..]);
      FirstOfEncoded(text[0], Encode(text[1..]));
      assert [text[0]] + text[1..] == text;
      assert (EncodeChar(text[0]) + Encode(text[1..]))[|EncodeChar(text[0])|..] == Encode(text[1..]);
    }
  }

  lemma {:induction false} EncodeInvertsDecode(bytes: seq<Byte>)
    requires DecodeStrict(bytes).Some?
    ensures Encode(DecodeStrict(bytes).value) == bytes
  {
    if bytes != [] {
      var n := DecodeFirst(bytes).value.1;
      EncodedFirst(bytes);
      EncodeInvertsDecode(bytes[n..]);
      assert bytes == bytes[..n] + bytes[n..];
    }
  }

  /** The mark is one character, and no other character's bytes begin as it does. */
  lemma OnlyTheMark(c: char, rest: seq<Byte>)
    ensures BOM <= EncodeChar(c) + rest <==> c == '\U{FEFF}'
  {
    var bytes := EncodeChar(c) + rest;
    assert forall i | 0 <= i < |EncodeChar(c)| :: bytes[i] == EncodeChar(c)[i];
    if BOM <= bytes {
      assert bytes[0] == BOM[0] && bytes[1] == BOM[1] && bytes[2] == BOM[2];
      var n := c as int;
      assert n / 4096 == 15 && n / 64 % 64 == 59 && n % 64 == 63;
      assert n == 0xFEFF;
    }
  }

  lemma MarkIsDropped(text: string)
    requires text != "" && text[0] == '\U{FEFF}'
    ensures DecodeText(Encode(text)) == Some(text[1..])
  {
    assert EncodeChar('\U{FEFF}') == BOM;
    assert Encode(text) == BOM + Encode(text[1..]);
    assert Encode(text)[3..] == Encode(text[1..]);
    DecodeInvertsEncode(text[1..]);
  }

  /** Characters of each length, among them examples of section 7 of RFC 3629. */
  lemma ExamplesOfTheStandard()
    ensures EncodeChar('A') == [0x41] && EncodeChar('\U{7F}') == [0x7F]
    ensures EncodeChar('\U{80}') == [0xC2, 0x80] && EncodeChar('\U{391}') == [0xCE, 0x91]
    ensures EncodeChar('\U{7FF}') == [0xDF, 0xBF] && EncodeChar('\U{800}') == [0xE0, 0xA0, 0x80]
    ensures EncodeChar('\U{2262}') == [0xE2, 0x89, 0xA2] && EncodeChar('\U{D55C}') == [0xED, 0x95, 0x9C]
    ensures EncodeChar('\U{FFFF}') == [0xEF, 0xBF, 0xBF] && EncodeChar('\U{10000}') == [0xF0, 0x90, 0x80, 0x80]
    ensures EncodeChar('\U{233B4}') == [0xF0, 0xA3, 0x8E, 0xB4]
    ensures EncodeChar('\U{10FFFF}') == [0xF4, 0x8F, 0xBF, 0xBF]
  {
  }

  function At(bytes: seq<Byte>, i: nat): int
    requires i < |bytes|
  {
    bytes[i]
  }

  /** The lead byte tells the length, all others carry six bits, and the bits are the character's number. */
  lemma BytesCarryTheNumber(c: char)
    ensures var n, bytes := c as int, EncodeChar(c);
      && |bytes| == (if n < 0x80 then 1 else if n < 0x800 then 2 else if n < 0x10000 then 3 else 4)
      && (forall i | 1 <= i < |bytes| :: 0x80 <= At(bytes, i) < 0xC0)
      && (|bytes| == 1 ==> At(bytes, 0) == n)
      && (|bytes| == 2 ==>
            0xC0 <= At(bytes, 0) < 0xE0 && (At(bytes, 0) - 0xC0) * 64 + At(bytes, 1) - 0x80 == n)
      && (|bytes| == 3 ==>
            0xE0 <= At(bytes, 0) < 0xF0
            && ((At(bytes, 0) - 0xE0) * 64 + At(bytes, 1) - 0x80) * 64 + At(bytes, 2) - 0x80 == n)
      && (|bytes| == 4 ==>
            0xF0 <= At(bytes, 0) < 0xF8
            && (((At(bytes, 0) - 0xF0) * 64 + At(bytes, 1) - 0x80) * 64 + At(bytes, 2) - 0x80) * 64
               + At(bytes, 3) - 0x80 == n)
  {
    var n := c as int;
    assert n / 4096 == n / 64 / 64 && n / 262144 == n / 4096 / 64;
  }
}
