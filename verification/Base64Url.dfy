/** Base64url without padding (section 5 of RFC 4648) as the platform's buffers encode it, and
    their decoder, which drops what does not fill a byte. */
module Base64Url {

  type Byte = n: int | 0 <= n < 256
  type Sextet = n: int | 0 <= n < 64

  // ----- three bytes, four sextets -----

  function Split1(a: Byte): Sextet { a / 4 }
  function Split2(a: Byte, b: Byte): Sextet { a % 4 * 16 + b / 16 }
  function Split3(b: Byte, c: Byte): Sextet { b % 16 * 4 + c / 64 }
  function Split4(c: Byte): Sextet { c % 64 }

  function Join1(w: Sextet, x: Sextet): Byte { w * 4 + x / 16 }
  function Join2(x: Sextet, y: Sextet): Byte { x % 16 * 16 + y / 4 }
  function Join3(y: Sextet, z: Sextet): Byte { y % 4 * 64 + z }

  /** Three bytes and their four sextets are one number in two notations. */
  lemma SextetsReadAsTheBytes(a: Byte, b: Byte, c: Byte)
    ensures ((Split1(a) * 64 + Split2(a, b)) * 64 + Split3(b, c)) * 64 + Split4(c) == (a * 256 + b) * 256 + c
  {
  }

  lemma JoinsInvertSplits(a: Byte, b: Byte, c: Byte)
    ensures Join1(Split1(a), Split2(a, b)) == a
    ensures Join2(Split2(a, b), Split3(b, c)) == b
    ensures Join3(Split3(b, c), Split4(c)) == c
  {
  }

  lemma SplitsInvertJoins(w: Sextet, x: Sextet, y: Sextet, z: Sextet)
    ensures Split1(Join1(w, x)) == w
    ensures Split2(Join1(w, x), Join2(x, y)) == x
    ensures Split3(Join2(x, y), Join3(y, z)) == y
    ensures Split4(Join3(y, z)) == z
  {
  }

  lemma SplitsOfShortGroups(w: Sextet, x: Sextet, y: Sextet)
    ensures Split2(Join1(w, x), 0) == x <==> x % 16 == 0
    ensures Split3(Join2(x, y), 0) == y <==> y % 4 == 0
  {
  }

  function ToSextets(bytes: seq<Byte>): seq<Sextet> {
    if bytes == [] then []
    else if |bytes| == 1 then [Split1(bytes[0]), Split2(bytes[0], 0)]
    else if |bytes| == 2 then [Split1(bytes[0]), Split2(bytes[0], bytes[1]), Split3(bytes[1], 0)]
    else
      var four := [Split1(bytes[0]), Split2(bytes[0], bytes[1]), Split3(bytes[1], bytes[2]), Split4(bytes[2])];
      four + ToSextets(bytes[3..])
  }

  function ToBytes(s: seq<Sextet>): seq<Byte> {
    if |s| < 2 then []
    else if |s| == 2 then [Join1(s[0], s[1])]
    else if |s| == 3 then [Join1(s[0], s[1]), Join2(s[1], s[2])]
    else [Join1(s[0], s[1]), Join2(s[1], s[2]), Join3(s[2], s[3])] + ToBytes(s[4..])
  }

  lemma {:induction false} BytesComeBack(bytes: seq<Byte>)
    ensures ToBytes(ToSextets(bytes)) == bytes
    ensures |ToSextets(bytes)| == (4 * |bytes| + 2) / 3
  {
    hide Split1; hide Split2; hide Split3; hide Split4;
    hide Join1; hide Join2; hide Join3;
    if |bytes| >= 3 {
      JoinsInvertSplits(bytes[0], bytes[1], bytes[2]);
      BytesComeBack(bytes[3..]);
      assert ToSextets(bytes)[4..] == ToSextets(bytes[3..]);
      assert bytes == [bytes[0], bytes[1], bytes[2]] + bytes[3..];
    } else if |bytes| == 2 {
      JoinsInvertSplits(bytes[0], bytes[1], 0);
    } else if |bytes| == 1 {
      JoinsInvertSplits(bytes[0], 0, 0);
    }
  }

  /** No lone sextet at the end, and no bits set that no byte takes. */
  predicate NoStrayBits(s: seq<Sextet>) {
    && |s| % 4 != 1
    && (|s| % 4 == 2 ==> s[|s| - 1] % 16 == 0)
    && (|s| % 4 == 3 ==> s[|s| - 1] % 4 == 0)
  }

  lemma NoStrayBitsInTail(s: seq<Sextet>)
    requires |s| >= 4
    ensures NoStrayBits(s) <==> NoStrayBits(s[4..])
  {
    assert s[4..] != [] ==> s[4..][|s[4..]| - 1] == s[|s| - 1];
  }

  lemma {:induction false} SextetsComeBackExactly(s: seq<Sextet>)
    ensures ToSextets(ToBytes(s)) == s <==> NoStrayBits(s)
  {
    hide Split1; hide Split2; hide Split3; hide Split4;
    hide Join1; hide Join2; hide Join3;
    if |s| >= 4 {
      hide NoStrayBits;
      SplitsInvertJoins(s[0], s[1], s[2], s[3]);
      SextetsComeBackExactly(s[4..]);
      NoStrayBitsInTail(s);
      assert ToBytes(s)[3..] == ToBytes(s[4..]);
      var back := ToSextets(ToBytes(s));
      assert back == [s[0], s[1], s[2], s[3]] + ToSextets(ToBytes(s[4..]));
      assert s == [s[0], s[1], s[2], s[3]] + s[4..];
      assert back == s ==> back[4..] == s[4..];
    } else if |s| == 3 {
      SplitsInvertJoins(s[0], s[1], s[2], 0);
      SplitsOfShortGroups(s[0], s[1], s[2]);
      assert ToSextets(ToBytes(s))[2] == s[2] <==> s[2] % 4 == 0;
    } else if |s| == 2 {
      SplitsInvertJoins(s[0], s[1], 0, 0);
      SplitsOfShortGroups(s[0], s[1], 0);
      assert ToSextets(ToBytes(s))[1] == s[1] <==> s[1] % 16 == 0;
    }
  }

  // ----- the alphabet -----

  predicate InAlphabet(c: char) {
    'A' <= c <= 'Z' || 'a' <= c <= 'z' || '0' <= c <= '9' || c == '-' || c == '_'
  }

  predicate IsBase64(s: string) {
    forall i | 0 <= i < |s| :: InAlphabet(s[i])
  }

  function Symbol(n: Sextet): (c: char)
    ensures InAlphabet(c) && SextetOf(c) == n
  {
    if n < 26 then ('A' as int + n) as char
    else if n < 52 then ('a' as int + n - 26) as char
    else if n < 62 then ('0' as int + n - 52) as char
    else if n == 62 then '-'
    else '_'
  }

  function SextetOf(c: char): Sextet
    requires InAlphabet(c)
  {
    if 'A' <= c <= 'Z' then c as int - 'A' as int
    else if 'a' <= c <= 'z' then c as int - 'a' as int + 26
    else if '0' <= c <= '9' then c as int - '0' as int + 52
    else if c == '-' then 62
    else 63
  }

  const UPPER: string := "ABCDEFGHIJKLMNOPQRSTUVWXYZ"
  const LOWER: string := "abcdefghijklmnopqrstuvwxyz"
  const DIGITS: string := "0123456789"
  const ALPHABET: string := UPPER + LOWER + DIGITS + "-_"

  lemma Letters(n: nat)
    requires n < 26
    ensures |UPPER| == |LOWER| == 26
    ensures UPPER[n] == ('A' as int + n) as char && LOWER[n] == ('a' as int + n) as char
  {
    assert n == 0 || n == 1 || n == 2 || n == 3 || n == 4 || n == 5 || n == 6 || n == 7 || n == 8 || n == 9
      || n == 10 || n == 11 || n == 12 || n == 13 || n == 14 || n == 15 || n == 16 || n == 17 || n == 18
      || n == 19 || n == 20 || n == 21 || n == 22 || n == 23 || n == 24 || n == 25;
  }

  /** The alphabet of the standard for URLs, in its order. */
  lemma SymbolsAreTheAlphabet(n: Sextet)
    ensures |ALPHABET| == 64 && Symbol(n) == ALPHABET[n]
  {
    Letters(if n < 26 then n else if n < 52 then n - 26 else 0);
    hide UPPER;
    hide LOWER;
    if 52 <= n < 62 {
      var d := n - 52;
      assert d == 0 || d == 1 || d == 2 || d == 3 || d == 4 || d == 5 || d == 6 || d == 7 || d == 8 || d == 9;
      assert DIGITS[d] == ('0' as int + d) as char;
    }
  }

  lemma SymbolOfSextet(c: char)
    requires InAlphabet(c)
    ensures Symbol(SextetOf(c)) == c
  {
  }

  function Written(s: seq<Sextet>): (t: string)
    ensures |t| == |s| && IsBase64(t) && Read(t) == s
  {
    seq(|s|, i requires 0 <= i < |s| => Symbol(s[i]))
  }

  function Read(t: string): (s: seq<Sextet>)
    requires IsBase64(t)
    ensures |s| == |t| && forall i | 0 <= i < |t| :: s[i] == SextetOf(t[i])
  {
    seq(|t|, i requires 0 <= i < |t| => SextetOf(t[i]))
  }

  lemma WrittenInvertsRead(t: string)
    requires IsBase64(t)
    ensures Written(Read(t)) == t
  {
    forall i | 0 <= i < |t| ensures Symbol(SextetOf(t[i])) == t[i] {
      SymbolOfSextet(t[i]);
    }
  }

  // ----- the codec -----

  function Encode(bytes: seq<Byte>): string {
    Written(ToSextets(bytes))
  }

  function Decode(t: string): seq<Byte>
    requires IsBase64(t)
  {
    ToBytes(Read(t))
  }

  /** Nothing is lost: what was encoded is decoded. */
  lemma DecodeInvertsEncode(bytes: seq<Byte>)
    ensures IsBase64(Encode(bytes)) && Decode(Encode(bytes)) == bytes
    ensures |Encode(bytes)| == (4 * |bytes| + 2) / 3
  {
    BytesComeBack(bytes);
  }

  /** The texts the encoder produces. */
  predicate Canonical(t: string)
    requires IsBase64(t)
  {
    NoStrayBits(Read(t))
  }

  /** The decoder takes more texts than the encoder produces; encoding again tells them apart. */
  lemma EncodeInvertsDecodeExactly(t: string)
    requires IsBase64(t)
    ensures Encode(Decode(t)) == t <==> Canonical(t)
  {
    SextetsComeBackExactly(Read(t));
    WrittenInvertsRead(t);
    if Encode(Decode(t)) == t {
      assert Read(Encode(Decode(t))) == ToSextets(ToBytes(Read(t)));
    }
  }

  /** Bytes in threes take four symbols each; what is left is filled with zero bits, which take one symbol more than
      there are bytes left. */
  lemma GroupsAreEncoded(a: Byte, b: Byte, c: Byte, rest: seq<Byte>)
    ensures Encode([a, b, c] + rest) ==
      [ALPHABET[Split1(a)], ALPHABET[Split2(a, b)], ALPHABET[Split3(b, c)], ALPHABET[Split4(c)]] + Encode(rest)
    ensures Encode([a, b]) == Encode([a, b, 0])[..3] && Encode([a]) == Encode([a, 0, 0])[..2] && Encode([]) == ""
  {
    var bytes := [a, b, c] + rest;
    assert bytes[3..] == rest;
    SymbolsAreTheAlphabet(Split1(a));
    SymbolsAreTheAlphabet(Split2(a, b));
    SymbolsAreTheAlphabet(Split3(b, c));
    SymbolsAreTheAlphabet(Split4(c));
    assert ToSextets([a, b, 0]) == [Split1(a), Split2(a, b), Split3(b, 0), Split4(0)] + ToSextets([a, b, 0][3..]);
    assert ToSextets([a, 0, 0]) == [Split1(a), Split2(a, 0), Split3(0, 0), Split4(0)] + ToSextets([a, 0, 0][3..]);
  }
}
