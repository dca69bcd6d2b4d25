/**
 64-bit ids on the wire: printed as decimal strings, read back from strings or numbers, one at a
 time, optional, or in lists.
 */
module SerdeInt64 {

  import opened Wrappers

  const U64_LIMIT: nat := 0x1_0000_0000_0000_0000

  /** What a JSON reader hands to the visitor. A number too large for 64 bits arrives as a float. */
  datatype Json =
    | Null
    | Text(text: string)
    | Integer(value: int)
    | Float
    | List(items: seq<Json>)
    | Other

  datatype ReadError = NegativeNumber | NotAnUnsignedInteger | WrongType

  // ----- Decimal text -----

  predicate IsDigit(c: char) {
    '0' <= c <= '9'
  }

  function DigitValue(c: char): (d: nat)
    requires IsDigit(c)
    ensures d <= 9
  {
    c as nat - '0' as nat
  }

  function DigitChar(d: nat): (c: char)
    requires d <= 9
    ensures IsDigit(c) && DigitValue(c) == d
  {
    (d + '0' as nat) as char
  }

  predicate AllDigits(s: string) {
    forall i | 0 <= i < |s| :: IsDigit(s[i])
  }

  function Printed(n: nat): string {
    if n < 10 then [DigitChar(n)] else Printed(n / 10) + [DigitChar(n % 10)]
  }

  /** The number a digit string denotes, of any length and with any leading zeros. */
  function ValueOf(s: string): nat
    requires AllDigits(s)
  {
    if s == [] then 0 else ValueOf(s[..|s| - 1]) * 10 + DigitValue(s[|s| - 1])
  }

  lemma {:induction false} PrintedDenotesItself(n: nat)
    ensures Printed(n) != [] && AllDigits(Printed(n)) && ValueOf(Printed(n)) == n
  {
    if n >= 10 {
      PrintedDenotesItself(n / 10);
      var s := Printed(n);
      assert s[..|s| - 1] == Printed(n / 10);
    } else {
      var s := Printed(n);
      assert s[..|s| - 1] == [];
    }
  }

  // ----- The library's checked parser -----

  function Accumulate(acc: nat, s: string): Option<nat>
    decreases |s|
  {
    if s == [] then Some(acc)
    else if !IsDigit(s[0]) then None
    else if acc * 10 + DigitValue(s[0]) >= U64_LIMIT then None
    else Accumulate(acc * 10 + DigitValue(s[0]), s[1..])
  }

  function Unsigned(s: string): string {
    if s != [] && s[0] == '+' then s[1..] else s
  }

  function ParseU64(s: string): Option<nat> {
    if Unsigned(s) == [] then None else Accumulate(0, Unsigned(s))
  }

  /** The 64-bit number a text denotes, if it denotes one. */
  function Denoted(whole: string): Option<nat> {
    if AllDigits(whole) && ValueOf(whole) < U64_LIMIT then Some(ValueOf(whole)) else None
  }

  lemma OneMoreDigit(done: string, c: char)
    requires AllDigits(done) && IsDigit(c)
    ensures AllDigits(done + [c]) && ValueOf(done + [c]) == ValueOf(done) * 10 + DigitValue(c)
  {
    assert (done + [c])[..|done|] == done;
  }

  lemma NoDigitDenotesNothing(done: string, rest: string)
    requires rest != [] && !IsDigit(rest[0])
    ensures Denoted(done + rest) == None
  {
    assert (done + rest)[|done|] == rest[0];
  }

  lemma PastTheLimit(done: string, rest: string)
    requires AllDigits(done) && ValueOf(done) >= U64_LIMIT
    ensures Denoted(done + rest) == None
  {
    if AllDigits(done + rest) {
      ValueGrows(done, rest);
    }
  }

  /** `done` is what has been read: the rest is accepted exactly when the whole is small enough. */
  lemma {:induction false} AccumulateReads(done: string, rest: string)
    requires AllDigits(done) && ValueOf(done) < U64_LIMIT
    ensures Accumulate(ValueOf(done), rest) == Denoted(done + rest)
    decreases |rest|
  {
    if rest == [] {
      assert done + rest == done;
    } else if !IsDigit(rest[0]) {
      NoDigitDenotesNothing(done, rest);
    } else {
      OneMoreDigit(done, rest[0]);
      assert done + rest == done + [rest[0]] + rest[1..];
      if ValueOf(done + [rest[0]]) < U64_LIMIT {
        AccumulateReads(done + [rest[0]], rest[1..]);
      } else {
        PastTheLimit(done + [rest[0]], rest[1..]);
      }
    }
  }

  lemma {:induction false} ValueGrows(a: string, b: string)
    requires AllDigits(a + b) && AllDigits(a)
    ensures ValueOf(a) <= ValueOf(a + b)
  {
    if b == [] {
      assert a + b == a;
    } else {
      assert (a + b)[..|a + b| - 1] == a + b[..|b| - 1];
      ValueGrows(a, b[..|b| - 1]);
    }
  }

  /** A string is accepted exactly when, after at most one leading plus, it is a non-empty digit
      string whose value is below 2^64; that value is the result. */
  lemma ParseAcceptsExactly(s: string)
    ensures
      var digits := Unsigned(s);
      ParseU64(s) ==
        if digits != [] && AllDigits(digits) && ValueOf(digits) < U64_LIMIT then Some(ValueOf(digits)) else None
  {
    assert [] + Unsigned(s) == Unsigned(s);
    AccumulateReads([], Unsigned(s));
  }

  lemma {:induction false} LeadingZerosDoNotMatter(zeros: string, digits: string)
    requires AllDigits(digits) && forall i | 0 <= i < |zeros| :: zeros[i] == '0'
    ensures AllDigits(zeros + digits) && ValueOf(zeros + digits) == ValueOf(digits)
    decreases |zeros| + |digits|
  {
    if digits != [] {
      var init := digits[..|digits| - 1];
      assert (zeros + digits)[..|zeros + digits| - 1] == zeros + init;
      LeadingZerosDoNotMatter(zeros, init);
    } else if zeros != [] {
      assert zeros + digits == zeros;
      var init := zeros[..|zeros| - 1];
      assert init + [] == init;
      LeadingZerosDoNotMatter(init, []);
    } else {
      assert zeros + digits == [];
    }
  }

  // ----- One value -----

  function Write(value: nat): Json {
    Text(Printed(value))
  }

  function Read(json: Json): Result<nat, ReadError> {
    match json
    case Integer(value) =>
      if value < 0 then Err(NegativeNumber)
      else if value < U64_LIMIT then Ok(value)
      else Err(WrongType)
    case Text(text) =>
      var parsed := ParseU64(text);
      if parsed.Some? then Ok(parsed.value) else Err(NotAnUnsignedInteger)
    case _ => Err(WrongType)
  }

  /** What is read and what is not: a number from 0 below 2^64, or a string of digits, after at most one
      plus sign, that denotes one. A negative number, any other string and any other value are errors. */
  lemma ReadAcceptsExactly(json: Json)
    ensures
      match json
      case Integer(value) =>
        if value < 0 then Read(json) == Err(NegativeNumber)
        else if value < 0x1_0000_0000_0000_0000 then Read(json) == Ok(value)
        else Read(json) == Err(WrongType)
      case Text(text) =>
        var digits := if text != [] && text[0] == '+' then text[1..] else text;
        if digits != [] && AllDigits(digits) && ValueOf(digits) < 0x1_0000_0000_0000_0000
        then Read(json) == Ok(ValueOf(digits))
        else Read(json) == Err(NotAnUnsignedInteger)
      case Null => Read(json) == Err(WrongType)
      case Float => Read(json) == Err(WrongType)
      case List(_) => Read(json) == Err(WrongType)
      case Other => Read(json) == Err(WrongType)
  {
    if json.Text? {
      ParseAcceptsExactly(json.text);
    }
  }

  lemma ReadOfDigits(text: string, value: nat)
    requires value < U64_LIMIT && Unsigned(text) != [] && AllDigits(Unsigned(text)) && ValueOf(Unsigned(text)) == value
    ensures Read(Text(text)) == Ok(value)
  {
    ParseAcceptsExactly(text);
  }

  lemma UnsignedDigits(digits: string)
    requires digits != [] && AllDigits(digits)
    ensures Unsigned(digits) == digits && Unsigned(['+'] + digits) == digits
  {
    assert IsDigit(digits[0]);
  }

  /** Every 64-bit value comes back, as a string or as a number, and a plus sign or leading zeros
      in front of the string do not change it. */
  lemma ReadOfWrite(value: nat, zeros: string)
    requires value < U64_LIMIT && forall i | 0 <= i < |zeros| :: zeros[i] == '0'
    ensures Read(Write(value)) == Ok(value) && Read(Integer(value)) == Ok(value)
    ensures Read(Text(zeros + Printed(value))) == Ok(value)
    ensures Read(Text(['+'] + (zeros + Printed(value)))) == Ok(value)
  {
    var printed := Printed(value);
    PrintedDenotesItself(value);
    LeadingZerosDoNotMatter(zeros, printed);
    UnsignedDigits(printed);
    UnsignedDigits(zeros + printed);
    ReadOfDigits(printed, value);
    ReadOfDigits(zeros + printed, value);
    ReadOfDigits(['+'] + (zeros + printed), value);
  }

  /** Whatever is read is a 64-bit value, and writing it gives the one canonical text for it. */
  lemma ReadIsCanonical(a: Json, b: Json)
    requires Read(a).Ok? && Read(b).Ok?
    ensures Read(a).value < U64_LIMIT && Read(Write(Read(a).value)) == Read(a)
    ensures Write(Read(a).value) == Write(Read(b).value) <==> Read(a) == Read(b)
  {
    if a.Text? {
      ParseAcceptsExactly(a.text);
    }
    if b.Text? {
      ParseAcceptsExactly(b.text);
    }
    ReadOfWrite(Read(a).value, "");
    ReadOfWrite(Read(b).value, "");
  }

  // ----- Lists -----

  function WriteAll(values: seq<nat>): (texts: seq<Json>)
    ensures |texts| == |values| && forall i | 0 <= i < |values| :: texts[i] == Write(values[i])
  {
    seq(|values|, i requires 0 <= i < |values| => Write(values[i]))
  }

  /** A list is read when every element is; otherwise the first bad element decides. */
  ghost predicate IsReadOf(items: seq<Json>, r: Result<seq<nat>, ReadError>) {
    match r
    case Ok(values) =>
      |values| == |items| && forall i | 0 <= i < |items| :: Read(items[i]) == Ok(values[i])
    case Err(error) =>
      exists k | 0 <= k < |items| :: Read(items[k]) == Err(error) && forall i | 0 <= i < k :: Read(items[i]).Ok?
  }

  method SerializeSeq(values: seq<nat>) returns (texts: seq<Json>)
    ensures texts == WriteAll(values)
  {
    texts := [];
    for i := 0 to |values|
      invariant |texts| == i && forall k | 0 <= k < i :: texts[k] == Write(values[k])
    {
      texts := texts + [Write(values[i])];
    }
  }

  method VisitSeq(items: seq<Json>) returns (r: Result<seq<nat>, ReadError>)
    ensures IsReadOf(items, r)
  {
    var values: seq<nat> := [];
    var next := 0;
    while next < |items|
      invariant next <= |items| && |values| == next
      invariant forall i | 0 <= i < next :: Read(items[i]) == Ok(values[i])
    {
      var value := Read(items[next]);
      if value.Err? {
        return Err(value.error);
      }
      values := values + [value.value];
      next := next + 1;
    }
    return Ok(values);
  }

  /** Reading a list has one outcome, and a written list of 64-bit values has that list as its. */
  lemma ListRoundTrip(values: seq<nat>, r: Result<seq<nat>, ReadError>)
    requires forall i | 0 <= i < |values| :: values[i] < U64_LIMIT
    requires IsReadOf(WriteAll(values), r)
    ensures r == Ok(values)
  {
    forall i | 0 <= i < |values|
      ensures Read(WriteAll(values)[i]) == Ok(values[i])
    {
      ReadOfWrite(values[i], "");
    }
    ReadHasOneOutcome(WriteAll(values), r, Ok(values));
  }

  lemma ReadHasOneOutcome(items: seq<Json>, r: Result<seq<nat>, ReadError>, s: Result<seq<nat>, ReadError>)
    requires IsReadOf(items, r) && IsReadOf(items, s)
    ensures r == s
  {
    if r.Ok? && s.Ok? {
      forall i | 0 <= i < |items|
        ensures r.value[i] == s.value[i]
      {
        assert Read(items[i]) == Ok(r.value[i]) == Ok(s.value[i]);
      }
      assert r.value == s.value;
    } else if r.Err? && s.Err? {
      var k :| 0 <= k < |items| && Read(items[k]) == Err(r.error) && forall i | 0 <= i < k :: Read(items[i]).Ok?;
      var l :| 0 <= l < |items| && Read(items[l]) == Err(s.error) && forall i | 0 <= i < l :: Read(items[i]).Ok?;
      assert k == l;
    }
  }
}
