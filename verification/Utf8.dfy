/** UTF-8, as `str::as_bytes` writes it and the strict `String::from_utf8` reads it. */
module Utf8 {
  import opened Wrappers

  type Byte = x: int | 0 <= x < 256

  predicate Continuation(b: Byte) {
    0x80 <= b < 0xC0
  }

  predicate Scalar(n: int) {
    0 <= n < 0xD800 || 0xE000 <= n < 0x11_0000
  }

  /** The six payload bits of a continuation byte. */
  function Bits(b: Byte): (n: int)
  {
    b - 0x80
  }

  function EncodeChar(c: char): seq<Byte> {
    var n := c as int;
    if n < 0x80 then [n]
    else if n < 0x800 then [0xC0 + n / 64, 0x80 + n % 64]
    else if n < 0x1_0000 then [0xE0 + n / 64 / 64, 0x80 + n / 64 % 64, 0x80 + n % 64]
    else [0xF0 + n / 64 / 64 / 64, 0x80 + n / 64 / 64 % 64, 0x80 + n / 64 % 64, 0x80 + n % 64]
  }

  /** The first scalar value and the number of bytes it takes. Overlong forms, surrogates and
      values past U+10FFFF are rejected. */
  function DecodeChar(bytes: seq<Byte>): (r: Option<(char, nat)>)
    requires bytes != []
    ensures r.Some? ==> 1 <= r.value.1 <= |bytes|
  {
    var lead: int := bytes[0];
    if lead < 0x80 then Some((lead as char, 1))
    else if 0xC0 <= lead < 0xE0 && |bytes| >= 2 && Continuation(bytes[1]) then
      var n := (lead - 0xC0) * 64 + Bits(bytes[1]);
      if 0x80 <= n then Some((n as char, 2)) else None
    else if 0xE0 <= lead < 0xF0 && |bytes| >= 3 && Continuation(bytes[1]) && Continuation(bytes[2]) then
      var n := ((lead - 0xE0) * 64 + Bits(bytes[1])) * 64 + Bits(bytes[2]);
      if 0x800 <= n && Scalar(n) then Some((n as char, 3)) else None
    else if 0xF0 <= lead < 0xF8 && |bytes| >= 4 && Continuation(bytes[1]) && Continuation(bytes[2]) && Continuation(bytes[3]) then
      var n := (((lead - 0xF0) * 64 + Bits(bytes[1])) * 64 + Bits(bytes[2])) * 64 + Bits(bytes[3]);
      if 0x1_0000 <= n && Scalar(n) then Some((n as char, 4)) else None
    else None
  }

  function Encode(s: string): seq<Byte> {
    if s == [] then [] else EncodeChar(s[0]) + Encode(s[1..])
  }

  function Decode(bytes: seq<Byte>): Option<string>
    decreases |bytes|
  {
    if bytes == [] then Some([])
    else
      match DecodeChar(bytes)
      case None => None
      case Some((c, n)) =>
        match Decode(bytes[n..])
        case None => None
        case Some(rest) => Some([c] + rest)
  }

  lemma DecodeOfEncodedChar(c: char, rest: seq<Byte>)
    ensures DecodeChar(EncodeChar(c) + rest) == Some((c, |EncodeChar(c)|))
  {
    var code, bytes := EncodeChar(c), EncodeChar(c) + rest;
    var n := c as int;
    var q := n / 64;
    var r := q / 64;
    assert n == q * 64 + n % 64 && q == r * 64 + q % 64 && r == r / 64 * 64 + r % 64;
    assert bytes[..|code|] == code;
  }

  lemma SixBits(high: nat, low: nat)
    requires low < 64
    ensures (high * 64 + low) / 64 == high && (high * 64 + low) % 64 == low
  {
  }

  lemma CharOfTwo(a: Byte, b: Byte)
    requires DecodeChar([a, b]).Some? && a >= 0x80
    ensures EncodeChar(DecodeChar([a, b]).value.0) == [a, b]
  {
    SixBits(a - 0xC0, Bits(b));
  }

  lemma CharOfThree(a: Byte, b: Byte, c: Byte)
    requires DecodeChar([a, b, c]).Some? && a >= 0xE0
    ensures EncodeChar(DecodeChar([a, b, c]).value.0) == [a, b, c]
  {
    SixBits(a - 0xE0, Bits(b));
    SixBits((a - 0xE0) * 64 + Bits(b), Bits(c));
  }

  lemma CharOfFour(a: Byte, b: Byte, c: Byte, d: Byte)
    requires DecodeChar([a, b, c, d]).Some? && a >= 0xF0
    ensures EncodeChar(DecodeChar([a, b, c, d]).value.0) == [a, b, c, d]
  {
    var high := (a - 0xF0) * 64 + Bits(b);
    SixBits(a - 0xF0, Bits(b));
    SixBits(high, Bits(c));
    SixBits(high * 64 + Bits(c), Bits(d));
  }

  lemma EncodeOfDecodedChar(bytes: seq<Byte>)
    requires bytes != [] && DecodeChar(bytes).Some?
    ensures var (c, n) := DecodeChar(bytes).value; bytes[..n] == EncodeChar(c)
  {
    var n := DecodeChar(bytes).value.1;
    if n == 1 {
      assert bytes[..1] == [bytes[0]];
    } else if n == 2 {
      CharOfTwo(bytes[0], bytes[1]);
      assert bytes[..2] == [bytes[0], bytes[1]];
    } else if n == 3 {
      CharOfThree(bytes[0], bytes[1], bytes[2]);
      assert bytes[..3] == [bytes[0], bytes[1], bytes[2]];
    } else {
      CharOfFour(bytes[0], bytes[1], bytes[2], bytes[3]);
      assert bytes[..4] == [bytes[0], bytes[1], bytes[2], bytes[3]];
    }
  }

  lemma {:induction false} DecodeOfEncode(s: string)
    ensures Decode(Encode(s)) == Some(s)
  {
    if s != [] {
      DecodeOfEncodedChar(s[0], Encode(s[1..]));
      assert Encode(s)[|EncodeChar(s[0])|..] == Encode(s[1..]);
      DecodeOfEncode(s[1..]);
      assert s == [s[0]] + s[1..];
    }
  }

  lemma EncodeOfCons(c: char, rest: string)
    ensures Encode([c] + rest) == EncodeChar(c) + Encode(rest)
  {
    assert ([c] + rest)[1..] == rest;
  }

  /** The first character, its bytes, and the decoded rest. */
  lemma DecodedParts(bytes: seq<Byte>) returns (c: char, n: nat, rest: string)
    requires bytes != [] && Decode(bytes).Some?
    ensures 1 <= n <= |bytes| && bytes[..n] == EncodeChar(c)
    ensures Decode(bytes[n..]) == Some(rest) && Decode(bytes).value == [c] + rest
  {
    EncodeOfDecodedChar(bytes);
    c, n := DecodeChar(bytes).value.0, DecodeChar(bytes).value.1;
    rest := Decode(bytes[n..]).value;
  }

  lemma {:induction false} EncodeOfDecode(bytes: seq<Byte>)
    requires Decode(bytes).Some?
    ensures Encode(Decode(bytes).value) == bytes
    decreases |bytes|
  {
    if bytes != [] {
      var c, n, rest := DecodedParts(bytes);
      EncodeOfDecode(bytes[n..]);
      EncodeOfCons(c, rest);
      assert bytes == bytes[..n] + bytes[n..];
    }
  }

  predicate Ascii(s: string) {
    forall i | 0 <= i < |s| :: s[i] as int < 0x80
  }

  /** A text has an ASCII byte where it has an ASCII character, and as long as it has no other the two
      run side by side. */
  lemma {:induction false} AsciiBytes(s: string)
    ensures |Encode(s)| >= |s|
    ensures Ascii(s) ==> |Encode(s)| == |s| && forall i | 0 <= i < |s| :: Encode(s)[i] == s[i] as int
    ensures (forall i | 0 <= i < |Encode(s)| :: Encode(s)[i] < 0x80) ==> Ascii(s)
  {
    if s != [] {
      var first, rest := EncodeChar(s[0]), Encode(s[1..]);
      AsciiBytes(s[1..]);
      assert Encode(s) == first + rest;
      assert forall i | 0 <= i < |rest| :: Encode(s)[|first| + i] == rest[i];
      assert Encode(s)[0] == first[0];
    }
  }
}
