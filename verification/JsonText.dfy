/**
 Compact JSON text, as the serializer writes it: one line per value, and no two values alike.
 */
module JsonText {

  import opened Wrappers

  // ----- Values and their compact JSON text -----

  predicate InNumber(c: char) {
    '0' <= c <= '9' || c == '-' || c == '+' || c == '.' || c == 'e' || c == 'E'
  }

  /** A number is its serialized text: not empty, and of number characters only. */
  type NumberText = s: string | s != [] && forall i :: 0 <= i < |s| ==> InNumber(s[i]) witness "0"

  datatype Json =
    | Null
    | Bool(value: bool)
    | Number(digits: NumberText)
    | Str(text: string)
    | Arr(items: seq<Json>)
    | Obj(fields: seq<Member>)

  datatype Member = Member(name: string, value: Json)

  function HexDigit(n: nat): char
    requires n < 16
  {
    if n < 10 then '0' + n as char else 'a' + (n - 10) as char
  }

  /** Quotes, backslashes and control characters are escaped; everything else is written raw. */
  function Escaped(c: char): string {
    if c == '"' then ['\\', '"']
    else if c == '\\' then ['\\', '\\']
    else if c == 8 as char then ['\\', 'b']
    else if c == 12 as char then ['\\', 'f']
    else if c == '\n' then ['\\', 'n']
    else if c == '\r' then ['\\', 'r']
    else if c == '\t' then ['\\', 't']
    else if c as int < 0x20 then ['\\', 'u', '0', '0', HexDigit(c as int / 16), HexDigit(c as int % 16)]
    else [c]
  }

  function EscapedText(s: string): string {
    if s == [] then [] else Escaped(s[0]) + EscapedText(s[1..])
  }

  function Quoted(s: string): string {
    ['"'] + EscapedText(s) + ['"']
  }

  function Print(json: Json): string {
    match json
    case Null => "null"
    case Bool(value) => if value then "true" else "false"
    case Number(digits) => digits
    case Str(text) => Quoted(text)
    case Arr(items) => ['['] + PrintItems(items) + [']']
    case Obj(fields) => ['{'] + PrintFields(fields) + ['}']
  }

  function PrintItems(items: seq<Json>): string {
    if items == [] then []
    else if |items| == 1 then Print(items[0])
    else Print(items[0]) + [','] + PrintItems(items[1..])
  }

  function PrintFields(fields: seq<Member>): string {
    if fields == [] then []
    else
      var first := Quoted(fields[0].name) + [':'] + Print(fields[0].value);
      if |fields| == 1 then first else first + [','] + PrintFields(fields[1..])
  }

  // ----- One line -----

  predicate OneLine(s: string) {
    forall i | 0 <= i < |s| :: s[i] != '\n'
  }

  lemma {:induction false} EscapedIsOneLine(s: string)
    ensures OneLine(Quoted(s))
  {
    if s != [] {
      EscapedIsOneLine(s[1..]);
      var rest := Quoted(s[1..]);
      assert EscapedText(s[1..]) == rest[1..|rest| - 1];
      assert OneLine(Escaped(s[0]));
    }
  }

  lemma {:induction false} PrintIsOneLine(json: Json)
    ensures OneLine(Print(json))
  {
    match json
    case Str(text) => EscapedIsOneLine(text);
    case Arr(items) => ItemsAreOneLine(items);
    case Obj(fields) => FieldsAreOneLine(fields);
    case _ =>
  }

  lemma {:induction false} ItemsAreOneLine(items: seq<Json>)
    ensures OneLine(PrintItems(items))
  {
    if items != [] {
      PrintIsOneLine(items[0]);
      ItemsAreOneLine(items[1..]);
    }
  }

  lemma {:induction false} FieldsAreOneLine(fields: seq<Member>)
    ensures OneLine(PrintFields(fields))
  {
    if fields != [] {
      EscapedIsOneLine(fields[0].name);
      PrintIsOneLine(fields[0].value);
      FieldsAreOneLine(fields[1..]);
    }
  }

  // ----- No two values have the same text -----

  /** What can follow a value inside a document. */
  predicate Delimited(s: string) {
    s == [] || s[0] == ',' || s[0] == ']' || s[0] == '}'
  }

  lemma Cancel(p: string, s: string, t: string)
    requires p + s == p + t
    ensures s == t
  {
    assert s == (p + s)[|p|..] && t == (p + t)[|p|..];
  }

  lemma Regroup(a: string, b: string, c: string, d: string)
    ensures a + b + c + d == a + (b + (c + d))
  {
  }

  lemma EscapeIsUnique(c: char, d: char)
    requires Escaped(c) <= Escaped(d) || Escaped(d) <= Escaped(c)
    ensures c == d
  {
    var e, f := Escaped(c), Escaped(d);
    assert e[0] == f[0];
    if e[0] == '\\' {
      assert e[1] == f[1];
      if e[1] == 'u' {
        assert e[4] == f[4] && e[5] == f[5];
      }
    }
  }

  function HexValue(c: char): Option<nat> {
    if '0' <= c <= '9' then Some(c as nat - '0' as nat)
    else if 'a' <= c <= 'f' then Some(c as nat - 'a' as nat + 10)
    else if 'A' <= c <= 'F' then Some(c as nat - 'A' as nat + 10)
    else None
  }

  /** The character an escape stands for, and its length: section 7 of RFC 8259, for the characters below
      U+0100 that \u can stand for. */
  function Unescaped(s: string): Option<(char, nat)>
    requires s != []
    ensures Unescaped(s).Some? ==> 1 <= Unescaped(s).value.1 <= |s|
  {
    if s[0] != '\\' then Some((s[0], 1))
    else if |s| < 2 then None
    else
      match s[1]
      case '"' => Some(('"', 2))
      case '\\' => Some(('\\', 2))
      case '/' => Some(('/', 2))
      case 'b' => Some((0x08 as char, 2))
      case 'f' => Some((0x0C as char, 2))
      case 'n' => Some((0x0A as char, 2))
      case 'r' => Some((0x0D as char, 2))
      case 't' => Some((0x09 as char, 2))
      case 'u' =>
        if |s| >= 6 && s[2] == '0' && s[3] == '0' && HexValue(s[4]).Some? && HexValue(s[5]).Some?
        then Some(((HexValue(s[4]).value * 16 + HexValue(s[5]).value) as char, 6)) else None
      case _ => None
  }

  function UnescapedText(s: string): Option<string> {
    if s == [] then Some([])
    else
      match Unescaped(s)
      case None => None
      case Some((c, n)) =>
        match UnescapedText(s[n..])
        case None => None
        case Some(rest) => Some([c] + rest)
  }

  lemma UnescapedOfEscaped(c: char, rest: string)
    ensures Unescaped(Escaped(c) + rest) == Some((c, |Escaped(c)|))
  {
    var e := Escaped(c);
    assert (e + rest)[..|e|] == e;
    if c as int < 0x20 {
      var high, low := c as int / 16, c as int % 16;
      assert HexValue(HexDigit(high)) == Some(high) && HexValue(HexDigit(low)) == Some(low);
      assert high * 16 + low == c as int;
    }
  }

  /** Undoing the escapes gives every text back. */
  lemma {:induction false} UnescapeOfEscape(s: string)
    ensures UnescapedText(EscapedText(s)) == Some(s)
  {
    if s != [] {
      var e, rest := Escaped(s[0]), EscapedText(s[1..]);
      UnescapedOfEscaped(s[0], rest);
      UnescapeOfEscape(s[1..]);
      assert EscapedText(s) == e + rest && (e + rest)[|e|..] == rest;
      assert [s[0]] + s[1..] == s;
    }
  }

  lemma EscapedDecodes(c: char, s: string, d: char, t: string)
    requires Escaped(c) + s == Escaped(d) + t
    ensures c == d && s == t
  {
    var e, f, whole := Escaped(c), Escaped(d), Escaped(c) + s;
    assert e == whole[..|e|] && f == whole[..|f|];
    EscapeIsUnique(c, d);
    Cancel(e, s, t);
  }

  /** The text after the opening quote: the string is over at the first quote that is not escaped. */
  lemma {:induction false} QuotedDecodes(x: string, s: string, y: string, t: string)
    requires EscapedText(x) + (['"'] + s) == EscapedText(y) + (['"'] + t)
    ensures x == y && s == t
  {
    EscapedStart(x, s);
    EscapedStart(y, t);
    if x == [] {
      assert EscapedText(x) + (['"'] + s) == ['"'] + s && EscapedText(y) + (['"'] + t) == ['"'] + t;
      Cancel(['"'], s, t);
    } else {
      var u, v := EscapedText(x[1..]) + (['"'] + s), EscapedText(y[1..]) + (['"'] + t);
      EscapedNext(x, ['"'] + s);
      EscapedNext(y, ['"'] + t);
      EscapedDecodes(x[0], u, y[0], v);
      QuotedDecodes(x[1..], s, y[1..], t);
      assert x == [x[0]] + x[1..] && y == [y[0]] + y[1..];
    }
  }

  lemma EscapedNext(x: string, rest: string)
    requires x != []
    ensures EscapedText(x) + rest == Escaped(x[0]) + (EscapedText(x[1..]) + rest)
  {
  }

  lemma EscapedStart(x: string, s: string)
    ensures (EscapedText(x) + (['"'] + s))[0] == '"' <==> x == []
  {
    if x != [] {
      assert EscapedText(x)[0] == Escaped(x[0])[0];
    }
  }

  lemma NumberRunsOn(a: NumberText, s: string, b: NumberText, t: string)
    requires a + s == b + t && |a| < |b|
    ensures s != [] && InNumber(s[0])
  {
    assert (a + s)[|a|] == (b + t)[|a|];
  }

  lemma NumberDecodes(a: NumberText, s: string, b: NumberText, t: string)
    requires a + s == b + t && Delimited(s) && Delimited(t)
    ensures a == b && s == t
  {
    if |a| < |b| {
      NumberRunsOn(a, s, b, t);
    } else if |b| < |a| {
      NumberRunsOn(b, t, a, s);
    }
    assert a == (a + s)[..|a|] && b == (b + t)[..|b|];
    Cancel(a, s, t);
  }

  /** The first character tells what kind of value follows. */
  lemma FirstCharacter(json: Json)
    ensures Print(json) != []
    ensures
      var c := Print(json)[0];
      match json
      case Null => c == 'n'
      case Bool(value) => c == if value then 't' else 'f'
      case Number(_) => InNumber(c)
      case Str(_) => c == '"'
      case Arr(_) => c == '['
      case Obj(_) => c == '{'
  {
  }

  lemma SameKind(a: Json, s: string, b: Json, t: string)
    requires Print(a) + s == Print(b) + t
    ensures match a
      case Null => b.Null?
      case Bool(value) => b == Bool(value)
      case Number(_) => b.Number?
      case Str(_) => b.Str?
      case Arr(_) => b.Arr?
      case Obj(_) => b.Obj?
  {
    FirstCharacter(a);
    FirstCharacter(b);
    assert (Print(a) + s)[0] == Print(a)[0] && (Print(b) + t)[0] == Print(b)[0];
  }

  /** A value followed by what may follow a value is read in one way. */
  lemma {:induction false} PrintDecodes(a: Json, s: string, b: Json, t: string)
    requires Print(a) + s == Print(b) + t && Delimited(s) && Delimited(t)
    ensures a == b && s == t
    decreases a
  {
    SameKind(a, s, b, t);
    match a
    case Null => Cancel(Print(a), s, t);
    case Bool(_) => Cancel(Print(a), s, t);
    case Number(digits) => NumberDecodes(digits, s, b.digits, t);
    case Str(text) => TextDecodes(text, s, b.text, t);
    case Arr(items) =>
      Opened('[', PrintItems(items), ']', s, PrintItems(b.items), t);
      ItemsDecode(items, s, b.items, t);
    case Obj(fields) =>
      Opened('{', PrintFields(fields), '}', s, PrintFields(b.fields), t);
      FieldsDecode(fields, s, b.fields, t);
  }

  lemma TextDecodes(x: string, s: string, y: string, t: string)
    requires Quoted(x) + s == Quoted(y) + t
    ensures x == y && s == t
  {
    Opened('"', EscapedText(x), '"', s, EscapedText(y), t);
    QuotedDecodes(x, s, y, t);
  }

  lemma Opened(open: char, x: string, close: char, s: string, y: string, t: string)
    requires [open] + x + [close] + s == [open] + y + [close] + t
    ensures x + ([close] + s) == y + ([close] + t)
  {
    Regroup([open], x, [close], s);
    Regroup([open], y, [close], t);
    Cancel([open], x + ([close] + s), y + ([close] + t));
  }

  /** What follows the first item of a non-empty array. */
  function AfterItem(items: seq<Json>, s: string): string
    requires items != []
  {
    if |items| == 1 then [']'] + s else [','] + (PrintItems(items[1..]) + ([']'] + s))
  }

  lemma ItemThenRest(items: seq<Json>, s: string)
    requires items != []
    ensures PrintItems(items) + ([']'] + s) == Print(items[0]) + AfterItem(items, s)
  {
    if |items| > 1 {
      Regroup(Print(items[0]), [','], PrintItems(items[1..]), [']'] + s);
    }
  }

  lemma {:induction false} ItemsDecode(x: seq<Json>, s: string, y: seq<Json>, t: string)
    requires PrintItems(x) + ([']'] + s) == PrintItems(y) + ([']'] + t)
    ensures x == y && s == t
    decreases x
  {
    NoItems(x, s, y, t);
    if x != [] {
      ItemThenRest(x, s);
      ItemThenRest(y, t);
      PrintDecodes(x[0], AfterItem(x, s), y[0], AfterItem(y, t));
      MoreItems(x, s, y, t);
      if |x| > 1 {
        ItemsDecode(x[1..], s, y[1..], t);
      }
      SameHeadAndTail(x, y);
    }
  }

  lemma SameHeadAndTail<T>(x: seq<T>, y: seq<T>)
    requires x != [] && y != [] && x[0] == y[0] && x[1..] == y[1..]
    ensures x == y
  {
    assert x == [x[0]] + x[1..] && y == [y[0]] + y[1..];
  }

  lemma NoItems(x: seq<Json>, s: string, y: seq<Json>, t: string)
    requires PrintItems(x) + ([']'] + s) == PrintItems(y) + ([']'] + t)
    ensures x == [] <==> y == []
    ensures x == [] ==> s == t
  {
    ItemsStart(x, s);
    ItemsStart(y, t);
    if x == [] {
      assert PrintItems(x) + ([']'] + s) == [']'] + s && PrintItems(y) + ([']'] + t) == [']'] + t;
      Cancel([']'], s, t);
    }
  }

  lemma MoreItems(x: seq<Json>, s: string, y: seq<Json>, t: string)
    requires x != [] && y != [] && AfterItem(x, s) == AfterItem(y, t)
    ensures |x| == 1 <==> |y| == 1
    ensures |x| == 1 ==> s == t && x[1..] == y[1..]
    ensures |x| > 1 ==> PrintItems(x[1..]) + ([']'] + s) == PrintItems(y[1..]) + ([']'] + t)
  {
    assert AfterItem(x, s)[0] == AfterItem(y, t)[0];
    if |x| == 1 {
      Cancel([']'], s, t);
    } else {
      Cancel([','], PrintItems(x[1..]) + ([']'] + s), PrintItems(y[1..]) + ([']'] + t));
    }
  }

  lemma ItemsStart(x: seq<Json>, s: string)
    ensures (PrintItems(x) + ([']'] + s))[0] == ']' <==> x == []
  {
    if x != [] {
      FirstCharacter(x[0]);
      ItemThenRest(x, s);
    }
  }

  function AfterName(fields: seq<Member>, s: string): string
    requires fields != []
  {
    [':'] + (Print(fields[0].value) + AfterField(fields, s))
  }

  /** What follows the first field of a non-empty object. */
  function AfterField(fields: seq<Member>, s: string): string
    requires fields != []
  {
    if |fields| == 1 then ['}'] + s else [','] + (PrintFields(fields[1..]) + (['}'] + s))
  }

  lemma FieldThenRest(fields: seq<Member>, s: string)
    requires fields != []
    ensures PrintFields(fields) + (['}'] + s) == ['"'] + (EscapedText(fields[0].name) + (['"'] + AfterName(fields, s)))
  {
    var name, value := Quoted(fields[0].name), Print(fields[0].value);
    var first := name + [':'] + value;
    if |fields| > 1 {
      Regroup(first, [','], PrintFields(fields[1..]), ['}'] + s);
    }
    assert PrintFields(fields) + (['}'] + s) == first + AfterField(fields, s);
    Regroup(name, [':'], value, AfterField(fields, s));
    Regroup(['"'], EscapedText(fields[0].name), ['"'], AfterName(fields, s));
  }

  lemma {:induction false} FieldsDecode(x: seq<Member>, s: string, y: seq<Member>, t: string)
    requires PrintFields(x) + (['}'] + s) == PrintFields(y) + (['}'] + t)
    ensures x == y && s == t
    decreases x
  {
    NoFields(x, s, y, t);
    if x != [] {
      NameDecodes(x, s, y, t);
      PrintDecodes(x[0].value, AfterField(x, s), y[0].value, AfterField(y, t));
      MoreFields(x, s, y, t);
      if |x| > 1 {
        FieldsDecode(x[1..], s, y[1..], t);
      }
      SameHeadAndTail(x, y);
    }
  }

  lemma NoFields(x: seq<Member>, s: string, y: seq<Member>, t: string)
    requires PrintFields(x) + (['}'] + s) == PrintFields(y) + (['}'] + t)
    ensures x == [] <==> y == []
    ensures x == [] ==> s == t
  {
    FieldsStart(x, s);
    FieldsStart(y, t);
    if x == [] {
      assert PrintFields(x) + (['}'] + s) == ['}'] + s && PrintFields(y) + (['}'] + t) == ['}'] + t;
      Cancel(['}'], s, t);
    }
  }

  lemma NameDecodes(x: seq<Member>, s: string, y: seq<Member>, t: string)
    requires x != [] && y != [] && PrintFields(x) + (['}'] + s) == PrintFields(y) + (['}'] + t)
    ensures x[0].name == y[0].name && Print(x[0].value) + AfterField(x, s) == Print(y[0].value) + AfterField(y, t)
  {
    FieldThenRest(x, s);
    FieldThenRest(y, t);
    Cancel(['"'], EscapedText(x[0].name) + (['"'] + AfterName(x, s)), EscapedText(y[0].name) + (['"'] + AfterName(y, t)));
    QuotedDecodes(x[0].name, AfterName(x, s), y[0].name, AfterName(y, t));
    Cancel([':'], Print(x[0].value) + AfterField(x, s), Print(y[0].value) + AfterField(y, t));
  }

  lemma MoreFields(x: seq<Member>, s: string, y: seq<Member>, t: string)
    requires x != [] && y != [] && AfterField(x, s) == AfterField(y, t)
    ensures |x| == 1 <==> |y| == 1
    ensures |x| == 1 ==> s == t && x[1..] == y[1..]
    ensures |x| > 1 ==> PrintFields(x[1..]) + (['}'] + s) == PrintFields(y[1..]) + (['}'] + t)
  {
    assert AfterField(x, s)[0] == AfterField(y, t)[0];
    if |x| == 1 {
      Cancel(['}'], s, t);
    } else {
      Cancel([','], PrintFields(x[1..]) + (['}'] + s), PrintFields(y[1..]) + (['}'] + t));
    }
  }

  lemma FieldsStart(x: seq<Member>, s: string)
    ensures (PrintFields(x) + (['}'] + s))[0] == '}' <==> x == []
  {
    if x != [] {
      FieldThenRest(x, s);
    }
  }

  /** Different values have different texts. */
  lemma PrintIsInjective(a: Json, b: Json)
    requires Print(a) == Print(b)
    ensures a == b
  {
    assert Print(a) + [] == Print(b) + [];
    PrintDecodes(a, [], b, []);
  }
}
