/**
 The size-guarded export: the payload is serialized once, through a writer that refuses the first
 write that would cross the limit.
 */
module ExportGuard {

  import opened Wrappers
  import opened Utf8
  import opened JsonText
  import Text

  datatype Payload = Payload(records: seq<Json>, events: seq<Json>)

  datatype ExportError = PayloadTooLarge | UnsupportedFormat

  function JsonBytes(json: Json): seq<Byte> {
    Encode(Print(json))
  }

  // ----- The simple form: encode everything, then compare with the limit -----

  const NEWLINE: Byte := 10

  function Line(value: Json): seq<Byte> {
    JsonBytes(value) + [NEWLINE]
  }

  function ConcatTo(chunks: seq<seq<Byte>>, n: nat): seq<Byte>
    requires n <= |chunks|
  {
    if n == 0 then [] else ConcatTo(chunks, n - 1) + chunks[n - 1]
  }

  function Concat(chunks: seq<seq<Byte>>): seq<Byte> {
    ConcatTo(chunks, |chunks|)
  }

  function Lines(values: seq<Json>): (lines: seq<seq<Byte>>)
    ensures |lines| == |values| && forall i | 0 <= i < |values| :: lines[i] == Line(values[i])
  {
    seq(|values|, i requires 0 <= i < |values| => Line(values[i]))
  }

  function Field(fields: seq<Member>, key: string): Option<Json> {
    if fields == [] then None
    else if fields[0].name == key then Some(fields[0].value)
    else Field(fields[1..], key)
  }

  function CanonicalText(record: Json): string {
    if !record.Obj? then ""
    else
      match Field(record.fields, "canonicalText")
      case Some(Str(text)) => text
      case _ => ""
  }

  function Bullet(record: Json): seq<Byte> {
    Encode(['-', ' '] + CanonicalText(record) + ['\n'])
  }

  function Bullets(records: seq<Json>): (bullets: seq<seq<Byte>>)
    ensures |bullets| == |records| && forall i | 0 <= i < |records| :: bullets[i] == Bullet(records[i])
  {
    seq(|records|, i requires 0 <= i < |records| => Bullet(records[i]))
  }

  function HeadingBytes(): seq<Byte> {
    [0x23, 0x20, 0x4D, 0x65, 0x6D, 0x6F, 0x72, 0x79, 0x20, 0x45, 0x78, 0x70, 0x6F, 0x72, 0x74, 0x0A, 0x0A]
  }

  function Document(payload: Payload): Json {
    Obj([Member("records", Arr(payload.records)), Member("events", Arr(payload.events))])
  }

  datatype Format = JsonFormat | JsonlFormat | MarkdownFormat | OtherFormat

  function FormatOf(name: string): Format {
    if name == "json" then JsonFormat
    else if name == "jsonl" then JsonlFormat
    else if name == "markdown" then MarkdownFormat
    else OtherFormat
  }

  function Jsonl(payload: Payload): seq<Byte> {
    Concat(Lines(payload.records)) + Concat(Lines(payload.events))
  }

  function Markdown(payload: Payload): seq<Byte> {
    HeadingBytes() + Concat(Bullets(payload.records))
  }

  function FullEncoding(format: Format, payload: Payload): Option<seq<Byte>> {
    match format
    case JsonFormat => Some(JsonBytes(Document(payload)))
    case JsonlFormat => Some(Jsonl(payload))
    case MarkdownFormat => Some(Markdown(payload))
    case OtherFormat => None
  }

  function Checked(bytes: seq<Byte>, limit: nat): Result<seq<Byte>, ExportError> {
    if |bytes| <= limit then Ok(bytes) else Err(PayloadTooLarge)
  }

  function EncodeThenCheck(format: Format, payload: Payload, limit: nat): Result<seq<Byte>, ExportError> {
    match FullEncoding(format, payload)
    case None => Err(UnsupportedFormat)
    case Some(bytes) => Checked(bytes, limit)
  }

  // ----- The guarded writer -----

  lemma {:induction false} ConcatGrows(chunks: seq<seq<Byte>>, m: nat, n: nat)
    requires m <= n <= |chunks|
    ensures |ConcatTo(chunks, m)| <= |ConcatTo(chunks, n)|
    decreases n
  {
    if m < n {
      ConcatGrows(chunks, m, n - 1);
    }
  }

  /** What writing chunk `n` after the first `n` comes to. */
  lemma ConcatNext(start: seq<Byte>, chunks: seq<seq<Byte>>, n: nat)
    requires n < |chunks|
    ensures start + ConcatTo(chunks, n + 1) == start + ConcatTo(chunks, n) + chunks[n]
    ensures |ConcatTo(chunks, n)| + |chunks[n]| <= |Concat(chunks)|
  {
    ConcatGrows(chunks, n + 1, |chunks|);
  }

  lemma Regroup(a: seq<Byte>, b: seq<Byte>, c: seq<Byte>)
    ensures a + b + c == a + (b + c)
  {
  }

  lemma {:induction false} ConcatFirst(first: seq<Byte>, rest: seq<seq<Byte>>, n: nat)
    requires n <= |rest|
    ensures ConcatTo([first] + rest, n + 1) == first + ConcatTo(rest, n)
    decreases n
  {
    var all := [first] + rest;
    assert ConcatTo(all, n + 1) == ConcatTo(all, n) + all[n];
    if n > 0 {
      ConcatFirst(first, rest, n - 1);
      assert all[n] == rest[n - 1];
      Regroup(first, ConcatTo(rest, n - 1), rest[n - 1]);
    }
  }

  class ExportSizeGuard {
    const maxBytes: nat
    var bytes: seq<Byte>

    ghost predicate Valid()
      reads this
    {
      |bytes| <= maxBytes
    }

    constructor (maxBytes: nat)
      ensures Valid() && this.maxBytes == maxBytes && bytes == []
    {
      this.maxBytes := maxBytes;
      bytes := [];
    }

    /** All of the buffer or none of it. */
    method Write(buffer: seq<Byte>) returns (ok: bool)
      requires Valid()
      modifies this
      ensures Valid()
      ensures ok == (|old(bytes)| + |buffer| <= maxBytes)
      ensures bytes == if ok then old(bytes) + buffer else old(bytes)
    {
      if |bytes| + |buffer| > maxBytes {
        return false;
      }
      bytes := bytes + buffer;
      return true;
    }

    /** A serializer's writes, stopping at the first refusal. */
    method WriteChunks(chunks: seq<seq<Byte>>) returns (ok: bool)
      requires Valid()
      modifies this
      ensures Valid()
      ensures ok == (|old(bytes)| + |Concat(chunks)| <= maxBytes)
      ensures ok ==> bytes == old(bytes) + Concat(chunks)
    {
      for i := 0 to |chunks|
        invariant Valid() && bytes == old(bytes) + ConcatTo(chunks, i)
      {
        ConcatNext(old(bytes), chunks, i);
        var accepted := Write(chunks[i]);
        if !accepted {
          return false;
        }
      }
      return true;
    }
  }

  /** How the serializer cuts the bytes of a value into writes. */
  type Splitter = Json -> seq<seq<Byte>>

  ghost predicate Splits(split: Splitter) {
    forall json {:trigger split(json)} :: Concat(split(json)) == JsonBytes(json)
  }

  method WriteLine(writer: ExportSizeGuard, value: Json, split: Splitter) returns (ok: bool)
    requires writer.Valid() && Splits(split)
    modifies writer
    ensures writer.Valid()
    ensures ok == (|old(writer.bytes)| + |Line(value)| <= writer.maxBytes)
    ensures ok ==> writer.bytes == old(writer.bytes) + Line(value)
  {
    assert Concat(split(value)) == JsonBytes(value);
    ok := writer.WriteChunks(split(value));
    if ok {
      ok := writer.Write([NEWLINE]);
    }
  }

  lemma LinesNext(start: seq<Byte>, values: seq<Json>, i: nat)
    requires i < |values|
    ensures start + ConcatTo(Lines(values), i + 1) == start + ConcatTo(Lines(values), i) + Line(values[i])
    ensures |start + ConcatTo(Lines(values), i)| + |Line(values[i])| <= |start| + |Concat(Lines(values))|
  {
    ConcatNext(start, Lines(values), i);
  }

  method WriteLines(writer: ExportSizeGuard, values: seq<Json>, split: Splitter) returns (ok: bool)
    requires writer.Valid() && Splits(split)
    modifies writer
    ensures writer.Valid()
    ensures ok == (|old(writer.bytes)| + |Concat(Lines(values))| <= writer.maxBytes)
    ensures ok ==> writer.bytes == old(writer.bytes) + Concat(Lines(values))
  {
    ghost var start := writer.bytes;
    for i := 0 to |values|
      invariant writer.Valid() && writer.bytes == start + ConcatTo(Lines(values), i)
    {
      LinesNext(start, values, i);
      var written := WriteLine(writer, values[i], split);
      if !written {
        return false;
      }
    }
    return true;
  }

  method WriteJsonl(writer: ExportSizeGuard, payload: Payload, split: Splitter) returns (r: Result<seq<Byte>, ExportError>)
    requires writer.Valid() && writer.bytes == [] && Splits(split)
    modifies writer
    ensures writer.Valid() && r == Checked(Jsonl(payload), writer.maxBytes)
  {
    var ok := WriteLines(writer, payload.records, split);
    if ok {
      assert writer.bytes == Concat(Lines(payload.records));
      ok := WriteLines(writer, payload.events, split);
    }
    return if ok then Ok(writer.bytes) else Err(PayloadTooLarge);
  }

  method WriteMarkdown(writer: ExportSizeGuard, payload: Payload) returns (r: Result<seq<Byte>, ExportError>)
    requires writer.Valid() && writer.bytes == []
    modifies writer
    ensures writer.Valid() && r == Checked(Markdown(payload), writer.maxBytes)
  {
    var heading := HeadingBytes();
    var ok := writer.Write(heading);
    if ok {
      assert writer.bytes == heading;
      ok := writer.WriteChunks(Bullets(payload.records));
    }
    return if ok then Ok(writer.bytes) else Err(PayloadTooLarge);
  }

  method WriteJson(writer: ExportSizeGuard, json: Json, split: Splitter) returns (r: Result<seq<Byte>, ExportError>)
    requires writer.Valid() && writer.bytes == [] && Splits(split)
    modifies writer
    ensures writer.Valid() && r == Checked(JsonBytes(json), writer.maxBytes)
  {
    assert Concat(split(json)) == JsonBytes(json);
    var ok := writer.WriteChunks(split(json));
    assert ok ==> writer.bytes == JsonBytes(json);
    return if ok then Ok(writer.bytes) else Err(PayloadTooLarge);
  }

  method EncodeAs(format: Format, payload: Payload, maxPayloadBytes: nat, split: Splitter)
    returns (r: Result<seq<Byte>, ExportError>)
    requires Splits(split)
    ensures r == EncodeThenCheck(format, payload, maxPayloadBytes)
  {
    var writer := new ExportSizeGuard(maxPayloadBytes);
    match format {
    case JsonFormat => r := WriteJson(writer, Document(payload), split);
    case JsonlFormat => r := WriteJsonl(writer, payload, split);
    case MarkdownFormat => r := WriteMarkdown(writer, payload);
    case OtherFormat => r := Err(UnsupportedFormat);
    }
  }

  /** One guarded pass gives what encoding in full and then comparing with the limit gives,
      whatever the serializer's writes. */
  method EncodeExportPayload(format: string, payload: Payload, maxPayloadBytes: nat, split: Splitter)
    returns (r: Result<seq<Byte>, ExportError>)
    requires Splits(split)
    ensures r == EncodeThenCheck(FormatOf(format), payload, maxPayloadBytes)
  {
    r := EncodeAs(FormatOf(format), payload, maxPayloadBytes, split);
  }

  // ----- What each format says -----

  lemma FormatNames(name: string)
    ensures FormatOf(name) == JsonFormat <==> name == "json"
    ensures FormatOf(name) == JsonlFormat <==> name == "jsonl"
    ensures FormatOf(name) == MarkdownFormat <==> name == "markdown"
  {
    assert |"json"| == 4 && |"jsonl"| == 5 && |"markdown"| == 8;
  }

  /** The JSON export of a payload is one object with its records and its events, each under its name. */
  lemma JsonExportIs(payload: Payload, limit: nat)
    requires EncodeThenCheck(JsonFormat, payload, limit).Ok?
    ensures
      var document := Obj([Member("records", Arr(payload.records)), Member("events", Arr(payload.events))]);
      Decode(EncodeThenCheck(JsonFormat, payload, limit).value) == Some(Print(document))
  {
    DecodeOfEncode(Print(Document(payload)));
  }

  ghost predicate FirstNamed(fields: seq<Member>, key: string, i: nat) {
    i < |fields| && fields[i].name == key && forall j | 0 <= j < i :: fields[j].name != key
  }

  lemma {:induction false} FieldMeans(fields: seq<Member>, key: string) returns (i: nat)
    ensures
      match Field(fields, key)
      case None => forall j | 0 <= j < |fields| :: fields[j].name != key
      case Some(value) => FirstNamed(fields, key, i) && value == fields[i].value
  {
    i := 0;
    if fields != [] && fields[0].name != key {
      var rest := FieldMeans(fields[1..], key);
      i := rest + 1;
      assert forall j | 1 <= j < |fields| :: fields[j] == fields[1..][j - 1];
    }
  }

  ghost predicate FirstString(fields: seq<Member>, key: string, i: nat) {
    FirstNamed(fields, key, i) && fields[i].value.Str?
  }

  /** The text of a record: the string under "canonicalText", and nothing when there is no such string. */
  ghost predicate HasText(record: Json, text: string) {
    if record.Obj? && exists i: nat :: FirstString(record.fields, "canonicalText", i)
    then exists i: nat :: FirstString(record.fields, "canonicalText", i) && record.fields[i].value.text == text
    else text == []
  }

  lemma CanonicalTextIs(record: Json)
    ensures HasText(record, CanonicalText(record))
  {
    if record.Obj? {
      var i := FieldMeans(record.fields, "canonicalText");
      var value := Field(record.fields, "canonicalText");
      if value.Some? && value.value.Str? {
        assert FirstString(record.fields, "canonicalText", i);
      }
    }
  }

  /** The heading, and under it one bullet for each text. */
  ghost function MarkdownText(heading: string, texts: seq<string>): string {
    if texts == [] then heading
    else MarkdownText(heading, texts[..|texts| - 1]) + "- " + texts[|texts| - 1] + "\n"
  }

  lemma {:induction false} EncodeOfSum(a: string, b: string)
    ensures Encode(a + b) == Encode(a) + Encode(b)
  {
    if a == [] {
      assert a + b == b;
    } else {
      assert (a + b)[1..] == a[1..] + b;
      EncodeOfSum(a[1..], b);
      Regroup(EncodeChar(a[0]), Encode(a[1..]), Encode(b));
    }
  }

  lemma BulletsNext(records: seq<Json>)
    requires records != []
    ensures
      var init := records[..|records| - 1];
      Concat(Bullets(records)) == Concat(Bullets(init)) + Bullet(records[|records| - 1])
  {
    var init := records[..|records| - 1];
    ConcatOfPart(Bullets(init), [Bullet(records[|records| - 1])], |init|);
    assert Bullets(records) == Bullets(init) + [Bullet(records[|records| - 1])];
  }

  lemma {:induction false} MarkdownIs(heading: string, records: seq<Json>, texts: seq<string>)
    requires |texts| == |records| && forall i | 0 <= i < |records| :: texts[i] == CanonicalText(records[i])
    ensures Encode(heading) + Concat(Bullets(records)) == Encode(MarkdownText(heading, texts))
    decreases |records|
  {
    if records == [] {
      assert Encode(heading) + [] == Encode(heading);
    } else {
      var last := |records| - 1;
      MarkdownIs(heading, records[..last], texts[..last]);
      BulletsNext(records);
      BulletIs(records[last]);
      Regroup(Encode(heading), Concat(Bullets(records[..last])), Bullet(records[last]));
      BulletAfter(MarkdownText(heading, texts[..last]), texts[last]);
    }
  }

  lemma BulletIs(record: Json)
    ensures Bullet(record) == Encode("- " + CanonicalText(record) + "\n")
  {
  }

  lemma BulletAfter(before: string, text: string)
    ensures Encode(before + "- " + text + "\n") == Encode(before) + Encode("- " + text + "\n")
  {
    EncodeOfSum(before, "- " + text + "\n");
    assert before + "- " + text + "\n" == before + ("- " + text + "\n");
  }

  /** The bytes of a text, character by character. */
  ghost predicate Spells(bytes: seq<Byte>, text: string) {
    |bytes| == |text| && Ascii(text) && forall i | 0 <= i < |text| :: bytes[i] == text[i] as int
  }

  lemma SpelledBytes(bytes: seq<Byte>, text: string)
    requires Spells(bytes, text)
    ensures bytes == Encode(text)
  {
    AsciiBytes(text);
  }

  lemma HeadingIs(heading: string)
    requires heading == "# Memory Export\n\n"
    ensures Spells(HeadingBytes(), heading)
  {
  }

  ghost predicate AreTexts(records: seq<Json>, texts: seq<string>) {
    |texts| == |records| && forall i | 0 <= i < |texts| :: HasText(records[i], texts[i])
  }

  lemma TextsOf(records: seq<Json>) returns (texts: seq<string>)
    ensures AreTexts(records, texts) && forall i | 0 <= i < |records| :: texts[i] == CanonicalText(records[i])
  {
    texts := seq(|records|, i requires 0 <= i < |records| => CanonicalText(records[i]));
    forall i | 0 <= i < |texts|
      ensures HasText(records[i], texts[i])
    {
      CanonicalTextIs(records[i]);
    }
  }

  lemma MarkdownReads(heading: string, payload: Payload) returns (texts: seq<string>)
    requires Spells(HeadingBytes(), heading)
    ensures AreTexts(payload.records, texts) && Decode(Markdown(payload)) == Some(MarkdownText(heading, texts))
  {
    texts := TextsOf(payload.records);
    SpelledBytes(HeadingBytes(), heading);
    MarkdownIs(heading, payload.records, texts);
    DecodeOfEncode(MarkdownText(heading, texts));
  }

  /** The Markdown export is the heading and a bullet per record, in order, with the record's text; events
      are not in it. */
  lemma MarkdownExportIs(payload: Payload, limit: nat) returns (texts: seq<string>)
    requires EncodeThenCheck(MarkdownFormat, payload, limit).Ok?
    ensures AreTexts(payload.records, texts)
    ensures Decode(EncodeThenCheck(MarkdownFormat, payload, limit).value) == Some(MarkdownText("# Memory Export\n\n", texts))
  {
    HeadingIs("# Memory Export\n\n");
    texts := MarkdownReads("# Memory Export\n\n", payload);
  }

  // ----- Line-delimited output can be read back line by line -----

  lemma {:induction false} OneLineInBytes(s: string)
    requires OneLine(s)
    ensures NEWLINE !in Encode(s)
  {
    if s != [] {
      OneLineInBytes(s[1..]);
      assert NEWLINE !in EncodeChar(s[0]);
    }
  }

  lemma LinesFirst(values: seq<Json>)
    requires values != []
    ensures Concat(Lines(values)) == JsonBytes(values[0]) + [NEWLINE] + Concat(Lines(values[1..]))
  {
    LinesOfSum([values[0]], values[1..]);
    assert values == [values[0]] + values[1..];
    assert Lines([values[0]]) == [Line(values[0])];
    ConcatFirst(Line(values[0]), Lines(values[1..]), |values| - 1);
  }

  lemma LineHasNoNewline(json: Json)
    ensures NEWLINE !in JsonBytes(json)
  {
    PrintIsOneLine(json);
    OneLineInBytes(Print(json));
  }

  ghost predicate ArePieces(pieces: seq<seq<Byte>>, values: seq<Json>) {
    && |pieces| == |values| + 1 && pieces[|values|] == []
    && forall i | 0 <= i < |values| :: pieces[i] == JsonBytes(values[i])
  }

  lemma OneMorePiece(pieces: seq<seq<Byte>>, values: seq<Json>)
    requires values != [] && ArePieces(pieces, values[1..])
    ensures ArePieces([JsonBytes(values[0])] + pieces, values)
  {
  }

  lemma {:induction false} SplitOfLines(values: seq<Json>)
    ensures ArePieces(Text.Split(Concat(Lines(values)), NEWLINE), values)
  {
    if values != [] {
      LineHasNoNewline(values[0]);
      LinesFirst(values);
      Text.SplitHead(JsonBytes(values[0]), NEWLINE, Concat(Lines(values[1..])));
      SplitOfLines(values[1..]);
      OneMorePiece(Text.Split(Concat(Lines(values[1..])), NEWLINE), values);
    }
  }

  lemma {:induction false} ConcatOfSum(a: seq<seq<Byte>>, b: seq<seq<Byte>>, n: nat)
    requires n <= |b|
    ensures ConcatTo(a + b, |a| + n) == Concat(a) + ConcatTo(b, n)
    decreases n
  {
    if n == 0 {
      ConcatOfPart(a, b, |a|);
    } else {
      ConcatOfSum(a, b, n - 1);
      assert (a + b)[|a| + n - 1] == b[n - 1];
      Regroup(Concat(a), ConcatTo(b, n - 1), b[n - 1]);
    }
  }

  lemma ConcatOfBoth(a: seq<seq<Byte>>, b: seq<seq<Byte>>)
    ensures Concat(a + b) == Concat(a) + Concat(b)
  {
    ConcatOfSum(a, b, |b|);
  }

  lemma {:induction false} ConcatOfPart(a: seq<seq<Byte>>, b: seq<seq<Byte>>, n: nat)
    requires n <= |a|
    ensures ConcatTo(a + b, n) == ConcatTo(a, n)
    decreases n
  {
    if n > 0 {
      ConcatOfPart(a, b, n - 1);
    }
  }

  lemma LinesOfSum(a: seq<Json>, b: seq<Json>)
    ensures Lines(a + b) == Lines(a) + Lines(b)
  {
    var all, lines := a + b, Lines(a) + Lines(b);
    forall i | 0 <= i < |all|
      ensures Lines(all)[i] == lines[i]
    {
      assert all[i] == if i < |a| then a[i] else b[i - |a|];
    }
  }

  lemma JsonlIsLines(payload: Payload)
    ensures Jsonl(payload) == Concat(Lines(payload.records + payload.events))
  {
    LinesOfSum(payload.records, payload.events);
    ConcatOfBoth(Lines(payload.records), Lines(payload.events));
  }

  lemma JsonlPieces(payload: Payload)
    ensures ArePieces(Text.Split(Jsonl(payload), NEWLINE), payload.records + payload.events)
  {
    JsonlIsLines(payload);
    SplitOfLines(payload.records + payload.events);
  }

  /** Splitting a line-delimited export at newlines gives the text of every record, then of every
      event, in order, and one empty piece after the last newline; each piece decodes to the text of
      its value. */
  lemma JsonlSplitsIntoValues(payload: Payload, limit: nat)
    requires EncodeThenCheck(JsonlFormat, payload, limit).Ok?
    ensures
      var values, pieces := payload.records + payload.events, Text.Split(EncodeThenCheck(JsonlFormat, payload, limit).value, NEWLINE);
      && |pieces| == |values| + 1 && pieces[|values|] == []
      && forall i | 0 <= i < |values| :: Decode(pieces[i]) == Some(Print(values[i]))
  {
    var values := payload.records + payload.events;
    JsonlPieces(payload);
    forall i | 0 <= i < |values|
      ensures Decode(JsonBytes(values[i])) == Some(Print(values[i]))
    {
      DecodeOfEncode(Print(values[i]));
    }
  }

  lemma SameBytesSameValue(a: Json, b: Json)
    requires JsonBytes(a) == JsonBytes(b)
    ensures a == b
  {
    DecodeOfEncode(Print(a));
    DecodeOfEncode(Print(b));
    PrintIsInjective(a, b);
  }

  /** A line-delimited export determines the values it was made from: two payloads with the same export
      hold the same records and events, in the same order. */
  lemma JsonlDeterminesValues(p: Payload, q: Payload)
    requires Jsonl(p) == Jsonl(q)
    ensures p.records + p.events == q.records + q.events
  {
    var a, b := p.records + p.events, q.records + q.events;
    JsonlPieces(p);
    JsonlPieces(q);
    forall i | 0 <= i < |a|
      ensures a[i] == b[i]
    {
      SameBytesSameValue(a[i], b[i]);
    }
  }

  /** A JSON export determines its payload, records and events apart. */
  lemma JsonDeterminesPayload(p: Payload, q: Payload)
    requires JsonBytes(Document(p)) == JsonBytes(Document(q))
    ensures p == q
  {
    SameBytesSameValue(Document(p), Document(q));
    assert Document(p).fields[0].value == Arr(p.records) && Document(p).fields[1].value == Arr(p.events);
    assert Document(q).fields[0].value == Arr(q.records) && Document(q).fields[1].value == Arr(q.events);
  }
}
