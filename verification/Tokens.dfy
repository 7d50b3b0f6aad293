/** Refresh tokens: a session id, a dot and a secret of 32 bytes in base64url. */
module Tokens {
  import opened Queries
  import Base64Url

  const SECRET_LENGTH: nat := 43
  const SECRET_BYTES: nat := 32

  datatype Parts = Parts(session: string, secret: string)

  function FormatRefreshToken(session: string, secret: string): string {
    session + "." + secret
  }

  function IndexOfDot(s: string): (i: Option<nat>)
    ensures i.Some? ==> i.value < |s| && s[i.value] == '.' && forall j | 0 <= j < i.value :: s[j] != '.'
    ensures i.None? ==> '.' !in s
  {
    if s == "" then None
    else if s[0] == '.' then Some(0)
    else
      var rest := IndexOfDot(s[1..]);
      if rest.None? then None else Some(rest.value + 1)
  }

  predicate IsHex(c: char) {
    '0' <= c <= '9' || 'a' <= c <= 'f' || 'A' <= c <= 'F'
  }

  /** Versions 1 to 8 in the standard layout, and the two special ids of zeros and of effs. */
  predicate IsUuid(s: string) {
    && |s| == 36
    && (forall i | 0 <= i < 36 :: if i in {8, 13, 18, 23} then s[i] == '-' else IsHex(s[i]))
    && (|| ('1' <= s[14] <= '8' && s[19] in "89abAB")
        || (forall i | 0 <= i < 36 && i !in {8, 13, 18, 23} :: s[i] == '0')
        || (forall i | 0 <= i < 36 && i !in {8, 13, 18, 23} :: s[i] in "fF"))
  }

  predicate IsSecret(s: string) {
    |s| == SECRET_LENGTH && Base64Url.IsBase64(s) && Base64Url.Encode(Base64Url.Decode(s)) == s
  }

  function ParseRefreshToken(token: string): Option<Parts> {
    var separator := IndexOfDot(token);
    if separator.None? || separator.value < 1 || separator.value == |token| - 1 then None
    else
      var session, secret := token[..separator.value], token[separator.value + 1..];
      if !IsUuid(session) || !IsSecret(secret) then None else Some(Parts(session, secret))
  }

  /** What a letter of a layout stands for: h any hexadecimal digit, v a version, r a variant, f an f in either case,
      and any other itself. */
  predicate Fits(c: char, letter: char) {
    match letter
    case 'h' => c in "0123456789abcdefABCDEF"
    case 'v' => c in "12345678"
    case 'r' => c in "89abAB"
    case 'f' => c in "fF"
    case _ => c == letter
  }

  predicate FitsLayout(s: string, layout: string) {
    |s| == |layout| && forall i | 0 <= i < |s| :: Fits(s[i], layout[i])
  }

  const STANDARD: string := "hhhhhhhh-hhhh-vhhh-rhhh-hhhhhhhhhhhh"
  const NIL: string := "00000000-0000-0000-0000-000000000000"
  const MAXIMUM: string := "ffffffff-ffff-ffff-ffff-ffffffffffff"

  lemma HexByLetter(c: char)
    ensures IsHex(c) <==> Fits(c, 'h')
    ensures '1' <= c <= '8' <==> Fits(c, 'v')
  {
  }

  /** Where the three layouts have what. */
  lemma Layouts()
    ensures |STANDARD| == |NIL| == |MAXIMUM| == 36
    ensures forall i | 0 <= i < 36 && i !in {8, 13, 18, 23, 14, 19} :: STANDARD[i] == 'h'
    ensures (forall i | i in {8, 13, 18, 23} :: STANDARD[i] == '-') && STANDARD[14] == 'v' && STANDARD[19] == 'r'
    ensures forall i | 0 <= i < 36 :: NIL[i] == if i in {8, 13, 18, 23} then '-' else '0'
    ensures forall i | 0 <= i < 36 :: MAXIMUM[i] == if i in {8, 13, 18, 23} then '-' else 'f'
  {
  }

  lemma FitsStandard(s: string)
    requires |s| == 36
    ensures FitsLayout(s, STANDARD) <==>
      && (forall i | 0 <= i < 36 :: if i in {8, 13, 18, 23} then s[i] == '-' else IsHex(s[i]))
      && '1' <= s[14] <= '8' && s[19] in "89abAB"
  {
    Layouts();
    hide STANDARD;
    forall i | 0 <= i < 36 ensures IsHex(s[i]) <==> Fits(s[i], 'h') {
      HexByLetter(s[i]);
    }
    HexByLetter(s[14]);
    assert Fits(s[19], 'r') ==> IsHex(s[19]);
    assert Fits(s[14], 'v') ==> IsHex(s[14]);
    if FitsLayout(s, STANDARD) {
      assert Fits(s[14], STANDARD[14]) && Fits(s[19], STANDARD[19]);
    }
  }

  lemma FitsSpecial(s: string)
    requires |s| == 36
    ensures FitsLayout(s, NIL) <==>
      forall i | 0 <= i < 36 :: if i in {8, 13, 18, 23} then s[i] == '-' else s[i] == '0'
    ensures FitsLayout(s, MAXIMUM) <==>
      forall i | 0 <= i < 36 :: if i in {8, 13, 18, 23} then s[i] == '-' else s[i] in "fF"
  {
    Layouts();
    hide NIL;
    hide MAXIMUM;
  }

  /** The ids that are accepted are those of the standard layout, versions 1 to 8, and the two special ones. */
  lemma UuidsFitALayout(s: string)
    ensures IsUuid(s) <==> FitsLayout(s, STANDARD) || FitsLayout(s, NIL) || FitsLayout(s, MAXIMUM)
  {
    Layouts();
    if |s| == 36 {
      FitsStandard(s);
      FitsSpecial(s);
    }
    hide FitsLayout;
  }

  lemma FirstDot(s: string, i: nat)
    requires i < |s| && s[i] == '.' && forall j | 0 <= j < i :: s[j] != '.'
    ensures IndexOfDot(s) == Some(i)
  {
    var found := IndexOfDot(s);
    assert s[i] in s;
  }

  lemma UuidHasNoDot(s: string)
    requires IsUuid(s)
    ensures |s| == 36 && forall j | 0 <= j < 36 :: s[j] != '.'
  {
  }

  lemma SecretLength(s: string)
    requires IsSecret(s)
    ensures |s| == SECRET_LENGTH
  {
  }

  /** A token is what formatting its parts gives, and parsing accepts exactly the well-formed ones. */
  lemma ParsingInvertsFormatting(token: string, session: string, secret: string)
    ensures ParseRefreshToken(token) == Some(Parts(session, secret))
            <==> token == FormatRefreshToken(session, secret) && IsUuid(session) && IsSecret(secret)
  {
    hide IsUuid;
    hide IsSecret;
    if ParseRefreshToken(token) == Some(Parts(session, secret)) {
      var i := IndexOfDot(token).value;
      assert token == token[..i] + [token[i]] + token[i + 1..];
    }
    if token == FormatRefreshToken(session, secret) && IsUuid(session) && IsSecret(secret) {
      UuidHasNoDot(session);
      SecretLength(secret);
      forall j | 0 <= j < 36 ensures token[j] != '.' {
        assert token[j] == session[j];
      }
      FirstDot(token, 36);
      assert token[..36] == session && token[37..] == secret;
    }
  }

  /** The secrets that are accepted are exactly the encodings of 32 bytes. */
  lemma SecretsAreThirtyTwoBytesExactly(secret: string)
    ensures IsSecret(secret) <==> exists bytes :: |bytes| == 32 && secret == Base64Url.Encode(bytes)
  {
    if IsSecret(secret) {
      var bytes := Base64Url.Decode(secret);
      Base64Url.DecodeInvertsEncode(bytes);
      assert |secret| == (4 * |bytes| + 2) / 3;
      assert |bytes| == SECRET_BYTES && secret == Base64Url.Encode(bytes);
    }
    forall bytes: seq<Base64Url.Byte> | |bytes| == SECRET_BYTES && secret == Base64Url.Encode(bytes)
      ensures IsSecret(secret)
    {
      Base64Url.DecodeInvertsEncode(bytes);
    }
  }
}
