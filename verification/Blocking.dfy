/** Messages that stop a connection or the whole process: chunked bodies (RFC 9112, section 7.1) and
    lengths that are out of range. */
module Blocking {
  import opened ByteStrings
  import opened Headers
  import opened HttpParser
  import opened Rfc9112
  import opened Wire
  import opened Loader
  import opened Tracker
  import opened Runs
  import opened Delivery

  // ---------------------------------------------------------------- the chunked coding

  predicate IsHexDigit(c: char) { IsDigit(c) || 'a' <= c <= 'f' || 'A' <= c <= 'F' }

  predicate HexDigits(s: string) { forall i :: 0 <= i < |s| ==> IsHexDigit(s[i]) }

  function HexDigit(c: char): (d: nat)
    requires IsHexDigit(c)
    ensures d < 16 && ("0123456789abcdef"[d] == c || "0123456789ABCDEF"[d] == c)
  {
    if IsDigit(c) then c as int - '0' as int else LowerChar(c) as int - 'a' as int + 10
  }

  /** The number a string of hexadecimal digits denotes. */
  function HexValue(s: string): nat
    requires HexDigits(s)
  {
    if s == "" then 0 else 16 * HexValue(s[..|s| - 1]) + HexDigit(s[|s| - 1])
  }

  /** A chunk: its size in hexadecimal, the extensions behind the size, and the data. */
  datatype Chunk = Chunk(size: string, ext: string, data: string)

  /** A chunked body: the chunks, the last chunk's zeros and extensions, and the trailer section. */
  datatype ChunkedBody = ChunkedBody(chunks: seq<Chunk>, zeros: string, ext: string, trailers: seq<Field>)

  predicate WellFormedChunk(c: Chunk) {
    c.size != "" && HexDigits(c.size) && Line(c.ext) && 0 < |c.data| == HexValue(c.size)
  }

  predicate WellFormedChunked(b: ChunkedBody) {
    && (forall i :: 0 <= i < |b.chunks| ==> WellFormedChunk(b.chunks[i]))
    && b.zeros != "" && (forall i :: 0 <= i < |b.zeros| ==> b.zeros[i] == '0') && Line(b.ext)
    && (forall i :: 0 <= i < |b.trailers| ==> WellFormedField(b.trailers[i]))
  }

  function RenderChunks(chunks: seq<Chunk>): string {
    if chunks == [] then ""
    else chunks[0].size + chunks[0].ext + CRLF + chunks[0].data + CRLF + RenderChunks(chunks[1..])
  }

  function RenderTrailers(trailers: seq<Field>): string {
    if trailers == [] then ""
    else RenderTrailers(trailers[..|trailers| - 1]) + RenderField(trailers[|trailers| - 1]) + CRLF
  }

  function RenderChunked(b: ChunkedBody): string {
    RenderChunks(b.chunks) + b.zeros + b.ext + CRLF + RenderTrailers(b.trailers) + CRLF
  }

  /** The first line of a chunked body. */
  function SizeLine(b: ChunkedBody): string {
    if b.chunks == [] then b.zeros + b.ext else b.chunks[0].size + b.chunks[0].ext
  }

  /** Hexadecimal digits count by sixteens. */
  lemma HexReads()
    ensures HexDigits("1fA0") && HexValue("1fA0") == 8096
  {
    assert "1fA0"[..3] == "1fA" && "1fA"[..2] == "1f" && "1f"[..1] == "1" && "1"[..0] == "";
    assert HexValue("1") == 1 && HexValue("1f") == 31 && HexValue("1fA") == 506;
  }

  lemma HexIsLine(s: string)
    requires HexDigits(s)
    ensures Line(s)
  {
    forall i | 0 <= i < |s|
      ensures s[i] != '\r'
    {
      assert IsHexDigit(s[i]);
    }
  }

  lemma StartsWithSize(b: ChunkedBody) returns (tail: string)
    requires WellFormedChunked(b)
    ensures RenderChunked(b) == SizeLine(b) + CRLF + tail && Line(SizeLine(b))
  {
    hide WellFormedField, RenderTrailers;
    if b.chunks == [] {
      tail := RenderTrailers(b.trailers) + CRLF;
      assert RenderChunks(b.chunks) + b.zeros == b.zeros;
    } else {
      var c := b.chunks[0];
      assert WellFormedChunk(c);
      HexIsLine(c.size);
      tail := c.data + CRLF + RenderChunks(b.chunks[1..]) + b.zeros + b.ext + CRLF + RenderTrailers(b.trailers) + CRLF;
    }
  }

  /** A chunked body ends with an empty line. */
  lemma EndsWithBlankLine(b: ChunkedBody) returns (front: string)
    ensures RenderChunked(b) == front + BLANK_LINE
  {
    hide RenderChunks, RenderField;
    front := RenderChunks(b.chunks) + b.zeros + b.ext;
    if b.trailers != [] {
      var n := |b.trailers| - 1;
      front := front + CRLF + RenderTrailers(b.trailers[..n]) + RenderField(b.trailers[n]);
    }
    assert BLANK_LINE == CRLF + CRLF;
  }

  // ---------------------------------------------------------------- the parser in front of it

  lemma NotInsideLine(line: string, tail: string, i: nat)
    requires Line(line) && OccursAt(line + CRLF + tail, BLANK_LINE, i)
    ensures |line| == i || |line| + 2 <= i
  {
    var d := line + CRLF + tail;
    assert d == line + (CRLF + tail);
    OccurrenceReads(d, BLANK_LINE, i);
    assert d[i + 0] == '\r' && d[|line| + 1] == '\n';
    assert i >= |line| by {
      if i < |line| { LineHasNone(line, CRLF + tail, i); }
    }
  }

  lemma LineHasNone(line: string, tail: string, i: nat)
    requires i < |line| && Line(line)
    ensures (line + tail)[i] != '\r'
  {
    assert (line + tail)[i] == line[i] && line[i] in line;
  }

  lemma FirstLineSplit(line: string, tail: string, i: nat)
    requires Line(line) && OccursAt(line + CRLF + tail, BLANK_LINE, i)
    ensures Split((line + CRLF + tail)[..i], CRLF)[0] == line
  {
    hide Split, Line;
    var d := line + CRLF + tail;
    NotInsideLine(line, tail, i);
    if i == |line| {
      assert d[..i] == line;
      SplitLastLine(line);
    } else {
      var rest := d[|line| + 2..i];
      assert d[..i] == line + CRLF + rest;
      SplitFirstLine(line, rest);
    }
  }

  /** Once there is a blank line, the first line alone decides whether the front is malformed. */
  lemma FirstLineDecides(line: string, tail: string, i: nat)
    requires Line(line) && OccursAt(line + CRLF + tail, BLANK_LINE, i)
    ensures ParseOne(line + CRLF + tail).Malformed? <==> ' ' !in line
  {
    hide ParseOne, Split, Line, OccursAt, Index, AddLines, ContentLength;
    var d := line + CRLF + tail;
    IndexReads(d, BLANK_LINE);
    assert Index(d, BLANK_LINE) >= 0;
    OutcomesWhen(d);
    FirstLineSplit(line, tail, Index(d, BLANK_LINE));
  }

  /** A chunked body in front of the parser is taken for a request.  It is rejected exactly if its
      size line has no space, which only an extension can bring in. */
  lemma ChunkedRejectedIff(b: ChunkedBody, rest: string)
    requires WellFormedChunked(b)
    ensures ParseOne(RenderChunked(b) + rest).Malformed? <==> ' ' !in SizeLine(b)
  {
    hide ParseOne, RenderChunked, SizeLine, WellFormedChunked;
    var tail := StartsWithSize(b);
    var front := EndsWithBlankLine(b);
    var d := RenderChunked(b) + rest;
    assert d == SizeLine(b) + CRLF + (tail + rest);
    assert d[|front|..|front| + 4] == BLANK_LINE;
    FirstLineDecides(SizeLine(b), tail + rest, |front|);
  }

  /** The last transfer coding of a message is `chunked` (section 6.1). */
  predicate ChunkedLast(fields: seq<Field>) {
    var codings := FieldValues(fields, "Transfer-Encoding");
    && codings != []
    && var last := Lower(codings[|codings| - 1]);
       |last| >= 7 && last[|last| - 7..] == "chunked"
  }

  /** The head of a message with a chunked body: such a message has no Content-Length (section 6.2). */
  predicate ChunkedHead(m: Message) {
    && WellFormedHead(m) && |Render(m)| <= MAX_INT
    && ChunkedLast(m.fields) && FieldValues(m.fields, "Content-Length") == []
    && m.body == ""
  }

  /** Of a message with a chunked body the head becomes a request with an empty body; and the parser
      stops for good in front of the body exactly if the size line has no space. */
  lemma ChunkedParse(m: Message, b: ChunkedBody, rest: string)
    requires ChunkedHead(m) && WellFormedChunked(b)
    ensures ParseOne(Render(m) + RenderChunked(b) + rest) == Complete(RequestOf(m), |Render(m)|)
    ensures RequestOf(m).body == ""
    ensures ParseAll(Render(m) + RenderChunked(b) + rest) == Batch([RequestOf(m)], |Render(m)|, Malformed) <==>
            ' ' !in SizeLine(b)
  {
    hide ParseOne, Render, RenderChunked, AddFields, WellFormedHead, WellFormedChunked, ChunkedLast, SizeLine;
    var tail := RenderChunked(b) + rest;
    var d := Render(m) + RenderChunked(b) + rest;
    assert d == Render(m) + tail;
    RoundTrip(m, tail);
    BehindMessage(m, tail);
    ChunkedRejectedIff(b, rest);
    ParseAllStops(tail);
    assert tail[0..] == tail;
  }

  /** A message with a chunked body blocks its connection: behind it nothing is assembled, whatever
      the client goes on to send, and everything from the body on stays in the buffer. */
  lemma ChunkedBlocks(ops: seq<Op>, key: StreamKey, ms: seq<Message>, b: ChunkedBody, rest: string)
    requires NoReap(ops) && !Run(ops).dead
    requires ms != [] && AllWellFormed(ms[..|ms| - 1]) && ChunkedHead(ms[|ms| - 1])
    requires WellFormedChunked(b) && ' ' !in SizeLine(b)
    requires Received(key, ops) == RenderAll(ms) + RenderChunked(b) + rest
    ensures OutputFor(key, Run(ops).out) == Stamp(RequestsOf(ms), IpStr(key.srcIP))
    ensures BufferOf(Run(ops).table, key) == RenderChunked(b) + rest
    ensures ParseAll(Received(key, ops)).stop.Malformed?
  {
    hide ParseOne, ParseAll, RenderAll, RenderChunked, WellFormedChunked, SizeLine, IpStr, Run, Received, Render,
         ChunkedLast, FieldValues, WellFormedHead, Stamp, RequestsOf, OutputFor;
    var tail := RenderChunked(b) + rest;
    SegmentationIndependence(ops, key);
    ChunkedRejectedIff(b, rest);
    forall i | 0 <= i < |ms|
      ensures WellFormed(ms[i])
    {
      if i < |ms| - 1 { assert ms[..|ms| - 1][i] == ms[i]; }
    }
    PipelineRoundTrip(ms, tail);
    assert Received(key, ops) == RenderAll(ms) + tail;
    assert (RenderAll(ms) + tail)[|RenderAll(ms)|..] == tail;
  }

  const UPLOAD := Message("POST", "/", "HTTP/1.1", [Field("Transfer-Encoding", " ", "chunked", "")], "")
  const HELLO := ChunkedBody([Chunk("5", "", "hello")], "0", "", [])

  /** Such a message, written out. */
  lemma UploadBlocks(rest: string)
    ensures ChunkedHead(UPLOAD) && WellFormedChunked(HELLO)
    ensures Render(UPLOAD) == "POST / HTTP/1.1" + CRLF + "Transfer-Encoding: chunked" + BLANK_LINE
    ensures RenderChunked(HELLO) == "5\r\nhello\r\n0\r\n\r\n"
    ensures ParseAll(Render(UPLOAD) + RenderChunked(HELLO) + rest).stop == Malformed
  {
    hide ParseAll, ParseOne;
    UploadHead();
    HelloBody();
    ChunkedParse(UPLOAD, HELLO, rest);
  }

  lemma OneFieldHead(verb: string, target: string, version: string, f: Field, body: string)
    ensures RenderHead(Message(verb, target, version, [f], body)) ==
            RenderRequestLine(verb, target, version) + CRLF + RenderField(f) + BLANK_LINE
  {
    hide Join, RenderRequestLine, RenderField;
    var m := Message(verb, target, version, [f], body);
    var line := RenderRequestLine(verb, target, version);
    assert HeadLines(m) == [line] + [RenderField(f)];
    JoinCons(line, [RenderField(f)], CRLF);
    JoinOne(RenderField(f), CRLF);
  }

  lemma OneFieldValues(f: Field, name: string)
    ensures FieldValues([f], name) == if Lower(f.name) == Lower(name) then [f.value] else []
  {
    hide Lower;
    assert FieldValues([f][1..], name) == [];
  }

  lemma UploadHead()
    ensures ChunkedHead(UPLOAD)
    ensures Render(UPLOAD) == "POST / HTTP/1.1" + CRLF + "Transfer-Encoding: chunked" + BLANK_LINE
  {
    hide FieldValues, RenderHead, Lower, WellFormedField, RenderRequestLine, RenderField;
    var f := UPLOAD.fields[0];
    OneFieldHead("POST", "/", "HTTP/1.1", f, "");
    UploadLines();
    OneFieldValues(f, "Content-Length");
    OneFieldValues(f, "Transfer-Encoding");
    LowerChunked();
    UploadField();
  }

  lemma UploadLines()
    ensures RenderRequestLine("POST", "/", "HTTP/1.1") == "POST / HTTP/1.1"
    ensures RenderField(UPLOAD.fields[0]) == "Transfer-Encoding: chunked"
    ensures Line("POST") && Line("/") && Line("HTTP/1.1")
  {
  }

  lemma LowerChunked()
    ensures Lower("chunked") == "chunked"
  {
  }

  lemma UploadField()
    ensures WellFormedField(UPLOAD.fields[0])
  {
  }

  lemma HelloBody()
    ensures WellFormedChunked(HELLO) && SizeLine(HELLO) == "5"
    ensures RenderChunked(HELLO) == "5\r\nhello\r\n0\r\n\r\n"
  {
    assert "5"[..0] == "";
    assert HexValue("5") == 5;
    assert HELLO.chunks[1..] == [];
    assert RenderChunks(HELLO.chunks) == "5\r\nhello\r\n";
  }

  // ---------------------------------------------------------------- lengths out of range

  /** A well-formed head that announces a negative length, or one that puts the end of the body beyond
      the largest `int`. */
  predicate Fatal(m: Message) {
    WellFormedHead(m) && (Announced(m.fields) < 0 || |RenderHead(m)| + Announced(m.fields) > MAX_INT)
  }

  /** The parser panics on a well-formed head exactly if it is fatal, whatever follows. */
  lemma FatalIff(m: Message, rest: string)
    requires WellFormedHead(m)
    ensures ParseOne(RenderHead(m) + rest).Fault? <==> Fatal(m)
  {
    hide ParseOne, RenderHead, Announced, WellFormedHead, AddFields;
    HeadDecides(m, rest);
  }

  /** A fatal head behind any well-formed messages, in any segments the filter accepts, ends the
      process. */
  lemma FatalKills(ops: seq<Op>, key: StreamKey, ms: seq<Message>, m: Message, rest: string)
    requires NoReap(ops) && AllWellFormed(ms) && Fatal(m)
    requires Received(key, ops) == RenderAll(ms) + (RenderHead(m) + rest)
    ensures Run(ops).dead
  {
    hide ParseOne, ParseAll, RenderAll, RenderHead, Announced, WellFormedHead, Run, Received, WellFormed, RequestsOf;
    FatalIff(m, rest);
    PipelineRoundTrip(ms, RenderHead(m) + rest);
    DeathIndependence(ops);
  }

  function WithLength(value: string): Message {
    Message("GET", "/", "HTTP/1.1", [Field("Content-Length", " ", value, "")], "")
  }

  lemma WithLengthAnnounces(value: string)
    requires Trimmed(value) && Line(value)
    ensures WellFormedHead(WithLength(value)) && Announced(WithLength(value).fields) == LengthIn(value)
    ensures RenderHead(WithLength(value)) == "GET / HTTP/1.1" + CRLF + ("Content-Length: " + value) + BLANK_LINE
  {
    hide LengthIn, FieldValues, RenderHead, Lower, Trimmed, Bare, Line, IsToken, RenderRequestLine, RenderField;
    WhiteIsSpace(value);
    var f := Field("Content-Length", " ", value, "");
    LengthNameIsToken();
    PlainParts(value);
    OneFieldValues(f, "Content-Length");
    OneFieldHead("GET", "/", "HTTP/1.1", f, "");
  }

  lemma PlainParts(value: string)
    ensures Line("GET") && Line("/") && Line("HTTP/1.1") && Line(" ") && Line("")
    ensures RenderRequestLine("GET", "/", "HTTP/1.1") == "GET / HTTP/1.1"
    ensures RenderField(Field("Content-Length", " ", value, "")) == "Content-Length: " + value
  {
  }

  lemma MinusOne()
    ensures LengthIn("-1") == -1
  {
    hide TrimSpace;
    TrimmedStays("-1");
    assert "-1"[1..] == "1" && "1"[..0] == "";
    assert Value("1") == 1;
  }

  /** Two fatal heads: length -1, and the largest length an `int` holds. */
  lemma FatalHeads()
    ensures Fatal(WithLength("-1")) && Fatal(WithLength(Decimal(MAX_INT)))
  {
    hide WellFormedHead, Announced, LengthIn, Decimal, Trimmed, RenderHead;
    MinusOne();
    MinusTrimmed();
    WithLengthAnnounces("-1");
    DecimalTrimmed(MAX_INT);
    WithLengthAnnounces(Decimal(MAX_INT));
    LengthOfDecimal(MAX_INT);
  }

  lemma MinusTrimmed()
    ensures Trimmed("-1") && Line("-1")
  {
  }

  lemma LengthOfDecimal(n: nat)
    requires n <= MAX_INT
    ensures LengthIn(Decimal(n)) == n
  {
    hide Decimal, TrimSpace, Trimmed;
    AtoiOfDecimal(n);
    DecimalTrimmed(n);
    TrimmedStays(Decimal(n));
  }

  const NEGATIVE := "GET / HTTP/1.1" + CRLF + "Content-Length: -1" + BLANK_LINE

  lemma NegativeText()
    ensures RenderHead(WithLength("-1")) == NEGATIVE
  {
    hide RenderHead, WithLength, WellFormedHead, LengthIn, Announced;
    MinusTrimmed();
    WithLengthAnnounces("-1");
    assert "Content-Length: " + "-1" == "Content-Length: -1";
  }

  lemma AlonePacketKills(ev: PktEvent, m: Message, now: int)
    requires Accepted(ev) && Fatal(m) && PayloadOf(ev) == RenderHead(m)
    ensures Run([Packet(ev, now)]).dead
  {
    hide Run, Fatal, RenderHead, RenderAll, Received, PayloadOf, Accepted, WellFormed, KeyOf;
    ReceivedOne(ev, now);
    RenderNothing();
    assert "" + (RenderHead(m) + "") == RenderHead(m);
    FatalKills([Packet(ev, now)], KeyOf(ev), [], m, "");
  }

  /** One packet that the filter accepts is enough to end the process. */
  lemma OnePacketKills() returns (ev: PktEvent)
    ensures PayloadOf(ev) == NEGATIVE
    ensures Accepted(ev) && Run([Packet(ev, 0)]).dead
  {
    hide Run, Fatal, RenderHead, WithLength, PayloadOf, Accepted;
    ev := NegativePacket();
    NegativeText();
    FatalHeads();
    AlonePacketKills(ev, WithLength("-1"), 0);
  }

  lemma NegativePacket() returns (ev: PktEvent)
    ensures PayloadOf(ev) == NEGATIVE && Accepted(ev)
  {
    hide LooksLikeContinuation, EventOf;
    ev := EventOf(NEGATIVE);
    assert METHODS[0] <= NEGATIVE;
  }

  lemma ReceivedOne(ev: PktEvent, now: int)
    requires Accepted(ev)
    ensures Received(KeyOf(ev), [Packet(ev, now)]) == PayloadOf(ev)
  {
    hide Accepted, PayloadOf, KeyOf;
    var ops := [Packet(ev, now)];
    assert ops[..0] == [];
    assert "" + PayloadOf(ev) == PayloadOf(ev);
  }

  lemma RenderNothing()
    ensures RenderAll([]) == ""
  {
  }
}
