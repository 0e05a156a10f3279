/** HTTP/1.1 request messages as RFC 9112 writes them, and their recovery from a byte stream. */
module Rfc9112 {
  import opened ByteStrings
  import opened Headers
  import opened HttpParser

  /** A field line with its optional white space (section 5). */
  datatype Field = Field(name: string, before: string, value: string, after: string)

  datatype Message = Message(verb: string, target: string, version: string, fields: seq<Field>, body: string)

  /** Optional white space (RFC 9110, section 5.6.3): spaces and tabs. */
  predicate OptionalSpace(s: string) { forall i :: 0 <= i < |s| ==> s[i] == ' ' || s[i] == '\t' }

  /** A value without white space at its ends. */
  predicate Bare(s: string) { s != "" ==> !White(s[0]) && !White(s[|s| - 1]) }

  predicate WellFormedField(f: Field) {
    && f.name != "" && IsToken(f.name)
    && OptionalSpace(f.before) && OptionalSpace(f.after)
    && Bare(f.value) && Line(f.value)
  }

  /** The values of all fields of one name, names compared without regard to case. */
  function FieldValues(fields: seq<Field>, name: string): seq<string> {
    if fields == [] then []
    else
      (if Lower(fields[0].name) == Lower(name) then [fields[0].value] else [])
      + FieldValues(fields[1..], name)
  }

  /** The framing of sections 6.2 and 6.3: Content-Length states the length of the body, and a
      message without it has none.  (The first of several decides.) */
  predicate Framed(m: Message) {
    var lengths := FieldValues(m.fields, "Content-Length");
    if lengths == [] then m.body == "" else lengths[0] == Decimal(|m.body|)
  }

  predicate WellFormedHead(m: Message) {
    && Line(m.verb) && ' ' !in m.verb
    && Line(m.target) && ' ' !in m.target
    && Line(m.version)
    && forall i :: 0 <= i < |m.fields| ==> WellFormedField(m.fields[i])
  }

  predicate WellFormed(m: Message) {
    WellFormedHead(m) && Framed(m) && |Render(m)| <= MAX_INT
  }

  function RenderField(f: Field): string {
    f.name + ":" + f.before + f.value + f.after
  }

  function RenderFields(fields: seq<Field>): (r: seq<string>)
    ensures |r| == |fields|
    ensures forall i :: 0 <= i < |fields| ==> r[i] == RenderField(fields[i])
  {
    seq(|fields|, i requires 0 <= i < |fields| => RenderField(fields[i]))
  }

  function RenderRequestLine(verb: string, target: string, version: string): string {
    verb + " " + target + " " + version
  }

  function HeadLines(m: Message): (r: seq<string>)
    ensures |r| == |m.fields| + 1
  {
    [RenderRequestLine(m.verb, m.target, m.version)] + RenderFields(m.fields)
  }

  /** The head with the blank line that ends it. */
  function RenderHead(m: Message): string { Join(HeadLines(m), CRLF) + BLANK_LINE }

  function Render(m: Message): string { RenderHead(m) + m.body }

  function AddFields(h: Header, fields: seq<Field>): Header
    decreases |fields|
  {
    if fields == [] then h else AddFields(Add(h, fields[0].name, fields[0].value), fields[1..])
  }

  /** The request the tracker is to recover from a message. */
  function RequestOf(m: Message): Request {
    Request(m.verb, m.target, AddFields(map[], m.fields), m.body, "")
  }

  lemma AddValues(h: Header, name: string, value: string, other: string)
    requires IsToken(name) && IsToken(other)
    ensures ValuesOf(Add(h, name, value), CanonicalKey(other)) ==
            ValuesOf(h, CanonicalKey(other)) + if Lower(name) == Lower(other) then [value] else []
  {
    hide CanonicalKey, Lower;
    KeysFoldCase(name, other);
  }

  /** What the recovered header holds: under each name, the values of that name in order. */
  lemma {:induction false} AddFieldsValues(h: Header, fields: seq<Field>, name: string)
    requires IsToken(name) && forall i :: 0 <= i < |fields| ==> IsToken(fields[i].name)
    ensures ValuesOf(AddFields(h, fields), CanonicalKey(name)) ==
            ValuesOf(h, CanonicalKey(name)) + FieldValues(fields, name)
    decreases |fields|
  {
    hide ValuesOf, Add, CanonicalKey, Lower, IsToken;
    if fields != [] {
      var f := fields[0];
      AddValues(h, f.name, f.value, name);
      AddFieldsValues(Add(h, f.name, f.value), fields[1..], name);
      var here := if Lower(f.name) == Lower(name) then [f.value] else [];
      var before := ValuesOf(h, CanonicalKey(name));
      assert before + here + FieldValues(fields[1..], name) == before + (here + FieldValues(fields[1..], name));
    }
  }

  lemma TokenReads(name: string)
    requires IsToken(name)
    ensures ':' !in name && '\r' !in name && Trimmed(name)
  {
    forall i | 0 <= i < |name|
      ensures name[i] != ':' && name[i] != '\r' && !IsSpace(name[i])
    {
      assert IsTokenChar(name[i]);
    }
  }

  lemma TrimmedStays(s: string)
    requires Trimmed(s)
    ensures TrimSpace(s) == s
  {
    hide TrimSpace;
    TrimSpaceStrips("", s, "");
    assert "" + s + "" == s;
  }

  lemma WhiteIsSpace(s: string)
    ensures Bare(s) <==> Trimmed(s)
    ensures (forall i :: 0 <= i < |s| ==> White(s[i])) ==> Blank(s)
    ensures OptionalSpace(s) ==> Blank(s) && Line(s)
  {
  }

  /** Any line with a colon is a field: name and value are what stands before and behind the first
      colon, without any of the six bytes of white space around them.  The parser also takes white
      space before the colon, which section 5.1 forbids. */
  lemma ColonLine(h: Header, a: string, name: string, b: string, c: string, value: string, d: string)
    requires forall i :: 0 <= i < |a| ==> White(a[i])
    requires forall i :: 0 <= i < |b| ==> White(b[i])
    requires forall i :: 0 <= i < |c| ==> White(c[i])
    requires forall i :: 0 <= i < |d| ==> White(d[i])
    requires Bare(name) && Bare(value) && ':' !in name
    ensures AddLine(h, a + name + b + ":" + (c + value + d)) == Add(h, name, value)
  {
    hide TrimSpace, Blank, Trimmed, Add, Bare;
    WhiteIsSpace(a);
    WhiteIsSpace(b);
    WhiteIsSpace(c);
    WhiteIsSpace(d);
    WhiteIsSpace(name);
    WhiteIsSpace(value);
    TrimSpaceStrips(a, name, b);
    TrimSpaceStrips(c, value, d);
    var front, back := a + name + b, c + value + d;
    assert ':' !in front by { NoColon(a); NoColon(b); }
    IndexSingle(front, back, ':');
    var line := front + ":" + back;
    assert line == front + [':'] + back;
    assert line[..|front|] == front && line[|front| + 1..] == back;
  }

  lemma NoColon(s: string)
    requires forall i :: 0 <= i < |s| ==> White(s[i])
    ensures ':' !in s
  {
    assert !White(':');
  }

  /** A line without a colon is no field. */
  lemma LineWithoutColon(h: Header, line: string)
    requires ':' !in line
    ensures AddLine(h, line) == h
  {
    IndexNone(line, ':');
  }

  lemma FieldLine(h: Header, f: Field)
    requires WellFormedField(f)
    ensures Line(RenderField(f)) && RenderField(f) != ""
    ensures AddLine(h, RenderField(f)) == Add(h, f.name, f.value)
  {
    hide IsToken, TrimSpace, Blank, Trimmed, Add, Bare, OptionalSpace;
    TokenReads(f.name);
    TrimmedStays(f.name);
    WhiteIsSpace(f.before);
    WhiteIsSpace(f.after);
    WhiteIsSpace(f.value);
    TrimSpaceStrips(f.before, f.value, f.after);
    var rest := f.before + f.value + f.after;
    assert RenderField(f) == f.name + [':'] + rest;
    IndexSingle(f.name, rest, ':');
    assert RenderField(f)[|f.name| + 1..] == rest;
    assert RenderField(f)[..|f.name|] == f.name;
  }

  lemma {:induction false} AddRenderedFields(h: Header, fields: seq<Field>)
    requires forall i :: 0 <= i < |fields| ==> WellFormedField(fields[i])
    ensures AddLines(h, RenderFields(fields)) == AddFields(h, fields)
    decreases |fields|
  {
    hide Add, AddLine, RenderField, WellFormedField;
    if fields != [] {
      var lines := RenderFields(fields);
      FieldLine(h, fields[0]);
      assert lines[1..] == RenderFields(fields[1..]);
      AddRenderedFields(Add(h, fields[0].name, fields[0].value), fields[1..]);
    }
  }

  lemma RequestLineRoundTrip(verb: string, target: string, version: string)
    requires ' ' !in verb && ' ' !in target
    ensures RequestLine(RenderRequestLine(verb, target, version)) == Some((verb, target))
    ensures RenderRequestLine(verb, target, version) != ""
  {
    var line := RenderRequestLine(verb, target, version);
    var rest := target + [' '] + version;
    assert line == verb + [' '] + rest;
    IndexSingle(verb, rest, ' ');
    IndexSingle(target, version, ' ');
    assert line[|verb| + 1..] == rest;
    assert line[..|verb|] == verb;
    assert rest[..|target|] == target;
  }

  lemma RequestLineIsLine(verb: string, target: string, version: string)
    requires Line(verb) && Line(target) && Line(version)
    ensures Line(RenderRequestLine(verb, target, version)) && RenderRequestLine(verb, target, version) != ""
  {
  }

  lemma HeadLinesAreLines(m: Message)
    requires WellFormedHead(m)
    ensures Lines(HeadLines(m)) && forall i :: 0 <= i < |HeadLines(m)| ==> HeadLines(m)[i] != ""
  {
    hide RenderField, WellFormedField, RenderRequestLine, Line, Add, AddLine;
    var lines := HeadLines(m);
    RequestLineIsLine(m.verb, m.target, m.version);
    forall i | 0 <= i < |lines|
      ensures Line(lines[i]) && lines[i] != ""
    {
      if i > 0 { FieldLine(map[], m.fields[i - 1]); }
    }
  }

  lemma HeadRoundTrip(m: Message)
    requires WellFormedHead(m)
    ensures ParseHead(Join(HeadLines(m), CRLF)) == Some(Head((m.verb, m.target), AddFields(map[], m.fields)))
  {
    hide Join, Split, RequestLine, RenderRequestLine, AddLines, AddFields, Lines, WellFormedField;
    var lines := HeadLines(m);
    RequestLineRoundTrip(m.verb, m.target, m.version);
    HeadLinesAreLines(m);
    SplitOfJoin(lines);
    assert lines[1..] == RenderFields(m.fields);
    AddRenderedFields(map[], m.fields);
  }

  /** The length the parser takes from the fields: that of the first Content-Length, or none. */
  function Announced(fields: seq<Field>): int {
    var lengths := FieldValues(fields, "Content-Length");
    if lengths == [] then 0 else LengthIn(lengths[0])
  }

  lemma AnnouncedIsRead(fields: seq<Field>)
    requires forall i :: 0 <= i < |fields| ==> IsToken(fields[i].name)
    ensures ContentLength(AddFields(map[], fields)) == Announced(fields)
  {
    hide AddFields, FieldValues, CanonicalKey, LengthIn, IsToken;
    LengthNameIsToken();
    AddFieldsValues(map[], fields, "Content-Length");
    assert [] + FieldValues(fields, "Content-Length") == FieldValues(fields, "Content-Length");
    NoLengthInNothing();
  }

  lemma LengthNameIsToken()
    ensures IsToken("Content-Length")
  {
  }

  lemma NoLengthInNothing()
    ensures LengthIn("") == 0
  {
    TrimmedStays("");
  }

  lemma FramedAnnounces(m: Message)
    requires Framed(m) && |m.body| <= MAX_INT
    ensures Announced(m.fields) == |m.body|
  {
    hide FieldValues, Decimal, TrimSpace, Trimmed;
    AtoiOfDecimal(|m.body|);
    DecimalTrimmed(|m.body|);
    TrimmedStays(Decimal(|m.body|));
  }

  /** What becomes of a well-formed head, whatever follows it: the first Content-Length alone decides
      how much of what follows is taken as the body, and whether the parser waits or panics. */
  lemma HeadDecides(m: Message, tail: string)
    requires WellFormedHead(m)
    ensures var v := Announced(m.fields);
            var n := |RenderHead(m)| + v;
            ParseOne(RenderHead(m) + tail) ==
            if v < 0 || n > MAX_INT then Fault
            else if |tail| < v then Incomplete
            else Complete(Request(m.verb, m.target, AddFields(map[], m.fields), tail[..v], ""), n)
  {
    hide ParseHead, ContentLength, HeadLines, Join, AddFields, Announced;
    var head := Join(HeadLines(m), CRLF);
    HeadRoundTrip(m);
    AnnouncedIsRead(m.fields);
    HeadLinesAreLines(m);
    FirstBlankLine(HeadLines(m), tail);
    var d := RenderHead(m) + tail;
    assert d[..|head|] == head;
    var v := Announced(m.fields);
    if 0 <= v <= |tail| {
      assert d[|head| + 4..|head| + 4 + v] == tail[..v];
    }
  }

  /** A message with a well-formed head is recovered exactly if its first Content-Length announces the
      length of its body; without one, exactly if it has no body.  No other field, Transfer-Encoding
      among them, has any influence. */
  lemma RecoveredIff(m: Message, rest: string)
    requires WellFormedHead(m)
    ensures ParseOne(Render(m) + rest) == Complete(RequestOf(m), |Render(m)|) <==>
            Announced(m.fields) == |m.body| && |Render(m)| <= MAX_INT
  {
    hide ParseOne, RenderHead, AddFields, Announced;
    HeadDecides(m, m.body + rest);
    assert Render(m) + rest == RenderHead(m) + (m.body + rest);
    assert (m.body + rest)[..|m.body|] == m.body;
  }

  /** A rendered message is recovered exactly, whatever follows it on the connection. */
  lemma RoundTrip(m: Message, rest: string)
    requires WellFormed(m)
    ensures ParseOne(Render(m) + rest) == Complete(RequestOf(m), |Render(m)|)
  {
    hide ParseOne, RenderHead, RequestOf, Announced, Framed;
    FramedAnnounces(m);
    RecoveredIff(m, rest);
  }

  /** Parsing goes on right behind a recovered message, whatever stands there. */
  lemma BehindMessage(m: Message, rest: string)
    requires WellFormed(m)
    ensures var b := ParseAll(rest);
            ParseAll(Render(m) + rest) == Batch([RequestOf(m)] + b.reqs, |Render(m)| + b.consumed, b.stop)
  {
    hide ParseOne, Render, RequestOf, WellFormed;
    RoundTrip(m, rest);
    assert (Render(m) + rest)[|Render(m)|..] == rest;
  }

  // ---------------------------------------------------------------- pipelined messages

  function RenderAll(ms: seq<Message>): string {
    if ms == [] then "" else Render(ms[0]) + RenderAll(ms[1..])
  }

  function RequestsOf(ms: seq<Message>): (r: seq<Request>)
    ensures |r| == |ms|
    ensures forall i :: 0 <= i < |ms| ==> r[i] == RequestOf(ms[i])
  {
    seq(|ms|, i requires 0 <= i < |ms| => RequestOf(ms[i]))
  }

  predicate AllWellFormed(ms: seq<Message>) { forall i :: 0 <= i < |ms| ==> WellFormed(ms[i]) }

  /** Messages sent back to back are recovered in order and once each, and nothing more is taken. */
  lemma {:induction false} PipelineRoundTrip(ms: seq<Message>, rest: string)
    requires AllWellFormed(ms) && !ParseOne(rest).Complete?
    ensures ParseAll(RenderAll(ms) + rest) == Batch(RequestsOf(ms), |RenderAll(ms)|, ParseOne(rest))
    decreases |ms|
  {
    hide ParseOne, Render, RequestOf, WellFormed;
    if ms == [] {
      assert RenderAll(ms) + rest == rest;
    } else {
      var tail := RenderAll(ms[1..]) + rest;
      BehindMessage(ms[0], tail);
      assert RenderAll(ms) + rest == Render(ms[0]) + tail;
      PipelineRoundTrip(ms[1..], rest);
      assert RequestsOf(ms) == [RequestOf(ms[0])] + RequestsOf(ms[1..]);
    }
  }

  lemma NothingIncomplete()
    ensures ParseOne("") == Incomplete
  {
    IndexReads("", BLANK_LINE);
  }

  // ---------------------------------------------------------------- a message written out

  const TABBED := Message("POST", "/a", "HTTP/1.1", [Field("Content-Length", "\t", "5", "")], "hello")
  const TABBED_TEXT := "POST /a HTTP/1.1" + "\r\n" + "Content-Length:\t5" + "\r\n\r\n" + "hello"

  lemma TabbedLines()
    ensures RenderRequestLine("POST", "/a", "HTTP/1.1") == "POST /a HTTP/1.1"
    ensures RenderField(TABBED.fields[0]) == "Content-Length:\t5"
    ensures Line("POST") && Line("/a") && Line("HTTP/1.1") && Line("5")
  {
  }

  lemma TabbedFramed()
    ensures WellFormedHead(TABBED) && Framed(TABBED)
  {
    hide RenderField, Lower;
    TabbedLines();
    LengthNameIsToken();
    assert TABBED.fields[1..] == [];
    assert FieldValues(TABBED.fields, "Content-Length") == ["5"];
    assert Decimal(5) == "5";
  }

  lemma TabbedText()
    ensures Render(TABBED) == TABBED_TEXT
  {
    hide Join, RenderRequestLine, RenderField;
    TabbedLines();
    var line, field := "POST /a HTTP/1.1", "Content-Length:\t5";
    assert HeadLines(TABBED) == [line] + [field];
    JoinCons(line, [field], CRLF);
    JoinOne(field, CRLF);
  }

  /** With a tab before the value: the body is read, and what follows the message is not touched. */
  lemma TabbedIsRead(rest: string)
    ensures ParseOne(TABBED_TEXT + rest).Complete?
    ensures ParseOne(TABBED_TEXT + rest).req.body == "hello" && ParseOne(TABBED_TEXT + rest).n == |TABBED_TEXT|
  {
    hide ParseOne, Render, AddFields, WellFormedHead, Framed;
    TabbedFramed();
    TabbedText();
    RoundTrip(TABBED, rest);
  }
}
