/** base64url without padding (sections 3.5 and 5 of RFC 4648): canonical decoding only. */
module Base64Url {
  import opened Wrappers
  import opened Utf8

  type Sextet = x: int | 0 <= x < 64

  function Symbol(n: Sextet): char {
    if n < 26 then ('A' as int + n) as char
    else if n < 52 then ('a' as int + n - 26) as char
    else if n < 62 then ('0' as int + n - 52) as char
    else if n == 62 then '-' else '_'
  }

  function Value(c: char): Option<Sextet> {
    if 'A' <= c <= 'Z' then Some(c as int - 'A' as int)
    else if 'a' <= c <= 'z' then Some(c as int - 'a' as int + 26)
    else if '0' <= c <= '9' then Some(c as int - '0' as int + 52)
    else if c == '-' then Some(62)
    else if c == '_' then Some(63)
    else None
  }

  /** Three bytes are four sextets; one or two trailing bytes are two or three, zero-filled. */
  function Sextets(bytes: seq<Byte>): seq<Sextet> {
    if |bytes| == 0 then []
    else if |bytes| == 1 then [bytes[0] / 4, bytes[0] % 4 * 16]
    else if |bytes| == 2 then [bytes[0] / 4, bytes[0] % 4 * 16 + bytes[1] / 16, bytes[1] % 16 * 4]
    else
      [bytes[0] / 4, bytes[0] % 4 * 16 + bytes[1] / 16, bytes[1] % 16 * 4 + bytes[2] / 64, bytes[2] % 64]
      + Sextets(bytes[3..])
  }

  function First(a: int, b: int): int { a * 4 + b / 16 }
  function Second(b: int, c: int): int { b % 16 * 16 + c / 4 }
  function Third(c: int, d: int): int { c % 4 * 64 + d }

  /** Rejects a dangling sextet and nonzero trailing bits. */
  function Bytes(s: seq<Sextet>): Option<seq<Byte>> {
    if |s| == 0 then Some([])
    else if |s| == 1 then None
    else if |s| == 2 then (if s[1] % 16 == 0 then Some([First(s[0], s[1])]) else None)
    else if |s| == 3 then (if s[2] % 4 == 0 then Some([First(s[0], s[1]), Second(s[1], s[2])]) else None)
    else
      match Bytes(s[4..])
      case None => None
      case Some(rest) => Some([First(s[0], s[1]), Second(s[1], s[2]), Third(s[2], s[3])] + rest)
  }

  function Symbols(s: seq<Sextet>): string {
    seq(|s|, i requires 0 <= i < |s| => Symbol(s[i]))
  }

  function Values(s: string): Option<seq<Sextet>> {
    if s == [] then Some([])
    else if Value(s[0]).None? || Values(s[1..]).None? then None
    else Some([Value(s[0]).value] + Values(s[1..]).value)
  }

  function Encode(bytes: seq<Byte>): string {
    Symbols(Sextets(bytes))
  }

  /** Only the canonical text decodes: no foreign symbol, no padding, no dangling or nonzero bits. */
  function Decode(s: string): Option<seq<Byte>> {
    match Values(s)
    case None => None
    case Some(sextets) => Bytes(sextets)
  }

  lemma GroupOfBytes(x: Byte, y: Byte, z: Byte)
    ensures First(x / 4, x % 4 * 16 + y / 16) == x
    ensures Second(x % 4 * 16 + y / 16, y % 16 * 4 + z / 64) == y
    ensures Third(y % 16 * 4 + z / 64, z % 64) == z
  {
    var b: int, c: int := x % 4 * 16 + y / 16, y % 16 * 4 + z / 64;
    assert b / 16 == x % 4 && b % 16 == y / 16;
    assert c / 4 == y % 16 && c % 4 == z / 64;
  }

  lemma GroupOfSextets(a: Sextet, b: Sextet, c: Sextet, d: Sextet)
    ensures
      var x, y, z := First(a, b), Second(b, c), Third(c, d);
      && 0 <= x < 256 && 0 <= y < 256 && 0 <= z < 256
      && x / 4 == a && x % 4 * 16 + y / 16 == b && y % 16 * 4 + z / 64 == c && z % 64 == d
  {
    var x, y, z := First(a, b), Second(b, c), Third(c, d);
    assert x / 4 == a && x % 4 == b / 16;
    assert y / 16 == b % 16 && y % 16 == c / 4;
    assert z / 64 == c % 4 && z % 64 == d;
  }

  lemma OneByte(x: Byte)
    ensures Bytes(Sextets([x])) == Some([x])
  {
    GroupOfBytes(x, 0, 0);
  }

  lemma TwoBytes(x: Byte, y: Byte)
    ensures Bytes(Sextets([x, y])) == Some([x, y])
  {
    GroupOfBytes(x, y, 0);
  }

  lemma BytesOfGroup(a: Sextet, b: Sextet, c: Sextet, d: Sextet, rest: seq<Sextet>)
    requires Bytes(rest).Some?
    ensures Bytes([a, b, c, d] + rest) == Some([First(a, b), Second(b, c), Third(c, d)] + Bytes(rest).value)
  {
    assert ([a, b, c, d] + rest)[4..] == rest;
  }

  lemma SextetsOfGroup(x: Byte, y: Byte, z: Byte, rest: seq<Byte>)
    ensures Sextets([x, y, z] + rest) == [x / 4, x % 4 * 16 + y / 16, y % 16 * 4 + z / 64, z % 64] + Sextets(rest)
  {
    assert ([x, y, z] + rest)[3..] == rest;
  }

  lemma ThreeBytes(x: Byte, y: Byte, z: Byte, rest: seq<Byte>)
    requires Bytes(Sextets(rest)) == Some(rest)
    ensures Bytes(Sextets([x, y, z] + rest)) == Some([x, y, z] + rest)
  {
    SextetsOfGroup(x, y, z, rest);
    GroupOfBytes(x, y, z);
    BytesOfGroup(x / 4, x % 4 * 16 + y / 16, y % 16 * 4 + z / 64, z % 64, Sextets(rest));
  }

  lemma {:induction false} BytesOfSextets(bytes: seq<Byte>)
    ensures Bytes(Sextets(bytes)) == Some(bytes)
  {
    if |bytes| == 1 {
      OneByte(bytes[0]);
      assert bytes == [bytes[0]];
    } else if |bytes| == 2 {
      TwoBytes(bytes[0], bytes[1]);
      assert bytes == [bytes[0], bytes[1]];
    } else if |bytes| >= 3 {
      BytesOfSextets(bytes[3..]);
      ThreeBytes(bytes[0], bytes[1], bytes[2], bytes[3..]);
      assert bytes == [bytes[0], bytes[1], bytes[2]] + bytes[3..];
    }
  }

  lemma {:induction false} SextetsOfBytes(s: seq<Sextet>)
    requires Bytes(s).Some?
    ensures Sextets(Bytes(s).value) == s
  {
    if |s| == 2 {
      GroupOfSextets(s[0], s[1], 0, 0);
      assert s == [s[0], s[1]];
    } else if |s| == 3 {
      GroupOfSextets(s[0], s[1], s[2], 0);
      assert s == [s[0], s[1], s[2]];
    } else if |s| >= 4 {
      GroupOfSextets(s[0], s[1], s[2], s[3]);
      SextetsOfBytes(s[4..]);
      assert Bytes(s).value[3..] == Bytes(s[4..]).value;
      assert s == [s[0], s[1], s[2], s[3]] + s[4..];
    }
  }

  lemma {:induction false} ValuesOfSymbols(s: seq<Sextet>)
    ensures Values(Symbols(s)) == Some(s)
  {
    if s != [] {
      assert Symbols(s)[1..] == Symbols(s[1..]);
      ValuesOfSymbols(s[1..]);
      assert s == [s[0]] + s[1..];
    }
  }

  lemma SymbolOfValue(c: char)
    requires Value(c).Some?
    ensures Symbol(Value(c).value) == c
  {
  }

  lemma {:induction false} SymbolsOfValues(s: string)
    requires Values(s).Some?
    ensures |Values(s).value| == |s| && forall i | 0 <= i < |s| :: Symbol(Values(s).value[i]) == s[i]
    ensures Symbols(Values(s).value) == s
  {
    if s != [] {
      SymbolOfValue(s[0]);
      SymbolsOfValues(s[1..]);
    }
  }

  /** Decoding inverts encoding, and the only text that decodes to `bytes` is their encoding. */
  lemma DecodeIffEncoded(s: string, bytes: seq<Byte>)
    ensures Decode(s) == Some(bytes) <==> s == Encode(bytes)
  {
    BytesOfSextets(bytes);
    ValuesOfSymbols(Sextets(bytes));
    if Decode(s) == Some(bytes) {
      SymbolsOfValues(s);
      SextetsOfBytes(Values(s).value);
    }
  }

  lemma EncodedSymbols(bytes: seq<Byte>)
    ensures forall c | c in Encode(bytes) :: Value(c).Some?
  {
  }
}
