/** Cursors as clients see them: text in UTF-8 in base64url. */
module Cursors {
  import opened Queries
  import opened Decimals
  import Base64Url
  import Utf8

  const MAXIMUM_SAFE_INTEGER: nat := 9007199254740991

  datatype Error = InvalidCursor

  function EncodeText(text: string): string {
    Base64Url.Encode(Utf8.Encode(text))
  }

  /** Refuses what is not base64url or not as the encoder writes it, then reads strict UTF-8. */
  function DecodeBase64url(cursor: string): Result<string, Error> {
    if !Base64Url.IsBase64(cursor) then Failure(InvalidCursor)
    else
      var decoded := Base64Url.Decode(cursor);
      if Base64Url.Encode(decoded) != cursor then Failure(InvalidCursor)
      else
        var text := Utf8.DecodeText(decoded);
        if text.None? then Failure(InvalidCursor) else Success(text.value)
  }

  function EncodePageCursor(page: nat): string {
    EncodeText(Decimal(page))
  }

  predicate IsPageNumber(text: string) {
    text != "" && AllDigits(text) && text[0] != '0' && ValueOf(text) <= MAXIMUM_SAFE_INTEGER
  }

  function DecodePageCursor(cursor: Option<string>): Result<nat, Error> {
    if cursor.None? then Success(1)
    else
      var text := DecodeBase64url(cursor.value);
      if text.Success? && IsPageNumber(text.value) then Success(ValueOf(text.value)) else Failure(InvalidCursor)
  }

  // ----- text -----

  predicate StartsWithMark(text: string) {
    text != "" && text[0] == '\U{FEFF}'
  }

  lemma MarkIsTheBytes(text: string)
    ensures StartsWithMark(text) <==> Utf8.BOM <= Utf8.Encode(text)
  {
    if text != "" {
      var bytes := Utf8.EncodeChar(text[0]);
      assert Utf8.Encode(text) == bytes + Utf8.Encode(text[1..]);
      Utf8.OnlyTheMark(text[0], Utf8.Encode(text[1..]));
    }
  }

  /** A text comes back from its cursor exactly if it does not start with a byte order mark. */
  lemma TextComesBackExactly(text: string)
    ensures DecodeBase64url(EncodeText(text)) == Success(text) <==> !StartsWithMark(text)
  {
    var bytes := Utf8.Encode(text);
    Base64Url.DecodeInvertsEncode(bytes);
    MarkIsTheBytes(text);
    Utf8.DecodeInvertsEncode(text);
    if StartsWithMark(text) {
      Utf8.MarkIsDropped(text);
    }
  }

  // ----- page cursors -----

  lemma {:induction false} DigitsAreBare(text: string)
    requires AllDigits(text)
    ensures !StartsWithMark(text)
  {
  }

  /** The pages a cursor can carry are 1 to 2^53 - 1, and it carries them faithfully. */
  lemma PageComesBackExactly(page: nat)
    ensures DecodePageCursor(Some(EncodePageCursor(page))) == Success(page)
       <==> 1 <= page <= 9_007_199_254_740_991
    ensures !(1 <= page <= 9_007_199_254_740_991)
      ==> DecodePageCursor(Some(EncodePageCursor(page))) == Failure(InvalidCursor)
  {
    ValueOfDecimal(page);
    DigitsAreBare(Decimal(page));
    TextComesBackExactly(Decimal(page));
  }

  /** Without a cursor the listing starts at the first page, and whatever is accepted is a page. */
  lemma PagesStartAtOne(cursor: Option<string>)
    ensures cursor == None ==> DecodePageCursor(cursor) == Success(1)
    ensures DecodePageCursor(cursor).Success? ==> 1 <= DecodePageCursor(cursor).value <= 9_007_199_254_740_991
  {
    if cursor.Some? && DecodePageCursor(cursor).Success? {
      var text := DecodeBase64url(cursor.value).value;
      DecimalOfValue(text);
    }
  }

  /** The bytes of a cursor start with a byte order mark. */
  predicate Marked(cursor: string) {
    Base64Url.IsBase64(cursor) && Utf8.BOM <= Base64Url.Decode(cursor)
  }

  /** Of the cursors that are accepted, exactly those without a byte order mark are the ones the
      server hands out; the marked ones are second spellings of the same pages. */
  lemma AcceptedCursorIsCanonicalExactly(cursor: string)
    requires DecodePageCursor(Some(cursor)).Success?
    ensures EncodePageCursor(DecodePageCursor(Some(cursor)).value) == cursor <==> !Marked(cursor)
  {
    var bytes := Base64Url.Decode(cursor);
    var text := DecodeBase64url(cursor).value;
    DecimalOfValue(text);
    if Marked(cursor) {
      MarkIsTheBytes(text);
      DigitsAreBare(text);
      Base64Url.DecodeInvertsEncode(Utf8.Encode(text));
    } else {
      Utf8.EncodeInvertsDecode(bytes);
    }
  }

  /** Every page has a second cursor: put a mark in front of its digits. */
  lemma MarkedCursorIsAccepted(page: nat) returns (cursor: string)
    requires 1 <= page <= MAXIMUM_SAFE_INTEGER
    ensures DecodePageCursor(Some(cursor)) == Success(page) && cursor != EncodePageCursor(page)
  {
    var digits := Utf8.Encode(Decimal(page));
    var bytes := Utf8.BOM + digits;
    cursor := Base64Url.Encode(bytes);
    Base64Url.DecodeInvertsEncode(bytes);
    assert Utf8.BOM <= bytes && bytes[3..] == digits;
    Utf8.DecodeInvertsEncode(Decimal(page));
    ValueOfDecimal(page);
    AcceptedCursorIsCanonicalExactly(cursor);
  }
}
