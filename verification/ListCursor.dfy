/**
 Opaque list cursors: `v1.<base64url of the key>.<base64url of its MAC>`. The keyed MAC is a
 parameter: nothing here depends on what it computes, only on it being a function of the key bytes.
 */
module ListCursor {
  import opened Wrappers
  import Utf8
  import Base64Url
  import Text

  type Hmac = seq<Utf8.Byte> -> seq<Utf8.Byte>

  datatype CursorError = Malformed

  const PREFIX := "v1"

  function CursorMac(hmac: Hmac, raw: string): string {
    Base64Url.Encode(hmac(Utf8.Encode(raw)))
  }

  function EncodeListCursor(hmac: Hmac, raw: string): string {
    PREFIX + "." + Base64Url.Encode(Utf8.Encode(raw)) + "." + CursorMac(hmac, raw)
  }

  function DecodeListCursor(hmac: Hmac, cursor: Option<string>): Result<Option<string>, CursorError> {
    if cursor.None? then Ok(None)
    else
      var token := Text.Trim(cursor.value);
      if token == [] then Ok(None)
      else
        var parts := Text.Split(token, '.');
        if |parts| != 3 || parts[0] != PREFIX then Err(Malformed)
        else
          match Base64Url.Decode(parts[1])
          case None => Err(Malformed)
          case Some(bytes) =>
            match Utf8.Decode(bytes)
            case None => Err(Malformed)
            case Some(raw) => if CursorMac(hmac, raw) != parts[2] then Err(Malformed) else Ok(Some(raw))
  }

  lemma Base64HasNoDots(bytes: seq<Utf8.Byte>)
    ensures '.' !in Base64Url.Encode(bytes)
    ensures forall c | c in Base64Url.Encode(bytes) :: !Text.IsWhitespace(c)
  {
    Base64Url.EncodedSymbols(bytes);
  }

  /** The three parts of an issued token are the parts the decoder finds again. */
  lemma SplitOfToken(hmac: Hmac, raw: string)
    ensures
      Text.Split(EncodeListCursor(hmac, raw), '.')
      == [PREFIX, Base64Url.Encode(Utf8.Encode(raw)), CursorMac(hmac, raw)]
    ensures Text.Trim(EncodeListCursor(hmac, raw)) == EncodeListCursor(hmac, raw)
  {
    var data, mac := Base64Url.Encode(Utf8.Encode(raw)), CursorMac(hmac, raw);
    Base64HasNoDots(Utf8.Encode(raw));
    Base64HasNoDots(hmac(Utf8.Encode(raw)));
    Text.SplitOfThree(PREFIX, data, mac, '.');
    TokenIsTight(data, mac);
  }

  lemma TokenIsTight(data: string, mac: string)
    requires forall c | c in mac :: !Text.IsWhitespace(c)
    ensures Text.Trim(PREFIX + "." + data + "." + mac) == PREFIX + "." + data + "." + mac
  {
    var token := PREFIX + "." + data + "." + mac;
    assert token[0] == 'v';
    assert token[|token| - 1] == if mac == [] then '.' else mac[|mac| - 1];
    Text.TrimOfTight(token);
  }

  lemma TokenOfSplit(token: string)
    requires |Text.Split(token, '.')| == 3
    ensures var parts := Text.Split(token, '.'); token == parts[0] + "." + parts[1] + "." + parts[2]
  {
    Text.JoinOfSplit(token, '.');
    var parts := Text.Split(token, '.');
    assert parts[1..] == [parts[1], parts[2]] && parts[1..][1..] == [parts[2]];
    assert Text.Join(parts[1..], '.') == parts[1] + ['.'] + Text.Join([parts[2]], '.');
    assert Text.Join([parts[2]], '.') == parts[2];
  }

  /** The decoder accepts exactly the tokens the server issues: a text decodes to a key if and
      only if, white space around it aside, it is the encoding of that key. */
  lemma DecodesExactlyIssuedTokens(hmac: Hmac, text: string, raw: string)
    ensures DecodeListCursor(hmac, Some(text)) == Ok(Some(raw)) <==> Text.Trim(text) == EncodeListCursor(hmac, raw)
  {
    var token := Text.Trim(text);
    var parts := Text.Split(token, '.');
    if token == EncodeListCursor(hmac, raw) {
      SplitOfToken(hmac, raw);
      Base64Url.DecodeIffEncoded(parts[1], Utf8.Encode(raw));
      Utf8.DecodeOfEncode(raw);
    }
    if DecodeListCursor(hmac, Some(text)) == Ok(Some(raw)) {
      var bytes := Base64Url.Decode(parts[1]).value;
      Base64Url.DecodeIffEncoded(parts[1], bytes);
      Utf8.EncodeOfDecode(bytes);
      TokenOfSplit(token);
    }
  }

  /** Decoding an issued token returns the key it was issued for, for every key. */
  lemma RoundTrip(hmac: Hmac, raw: string)
    ensures DecodeListCursor(hmac, Some(EncodeListCursor(hmac, raw))) == Ok(Some(raw))
  {
    SplitOfToken(hmac, raw);
    DecodesExactlyIssuedTokens(hmac, EncodeListCursor(hmac, raw), raw);
  }

  /** Different keys are issued different tokens, whatever the MAC does. */
  lemma TokensAreInjective(hmac: Hmac, a: string, b: string)
    requires EncodeListCursor(hmac, a) == EncodeListCursor(hmac, b)
    ensures a == b
  {
    RoundTrip(hmac, a);
    RoundTrip(hmac, b);
  }

  // ----- Page sizes and page metadata -----

  const DEFAULT_PAGE_SIZE := 20
  const MAX_PAGE_SIZE := 200

  function ValidatedPageSize(pageSize: Option<int>): (r: Option<nat>)
    ensures r.Some? <==> pageSize.None? || 1 <= pageSize.value <= 200
    ensures r.Some? ==> 1 <= r.value <= 200
    ensures r.Some? ==> r.value == if pageSize.Some? then pageSize.value else 20
  {
    var size := if pageSize.Some? then pageSize.value else DEFAULT_PAGE_SIZE;
    if 1 <= size <= MAX_PAGE_SIZE then Some(size) else None
  }

  datatype PageInfo = PageInfo(pageSize: nat, hasMore: bool, nextCursor: Option<string>)

  function CursorPageInfo(hmac: Hmac, pageSize: nat, hasMore: bool, nextKey: Option<string>): PageInfo {
    PageInfo(pageSize, hasMore,
             if hasMore && nextKey.Some? then Some(EncodeListCursor(hmac, nextKey.value)) else None)
  }
}
