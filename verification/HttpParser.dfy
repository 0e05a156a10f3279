/** Extraction of HTTP/1.x requests from the bytes of one direction of a connection. */
module HttpParser {
  import opened ByteStrings
  import opened Headers

  datatype Request = Request(verb: string, path: string, headers: Header, body: string, srcIP: string)

  /** What the bytes in front of the parser amount to.  `Fault` is a run-time panic: it
      takes the whole agent down. */
  datatype Outcome =
    | Incomplete
    | Malformed
    | Fault
    | Complete(req: Request, n: nat)

  // ---------------------------------------------------------------- one request

  /** A field line without a colon is skipped. */
  function AddLine(h: Header, line: string): Header {
    var i := Index(line, ":");
    if i < 0 then h else Add(h, TrimSpace(line[..i]), TrimSpace(line[i + 1..]))
  }

  function AddLines(h: Header, lines: seq<string>): Header
    decreases |lines|
  {
    if lines == [] then h else AddLines(AddLine(h, lines[0]), lines[1..])
  }

  /** Method and path of a request line, which needs at least one space. */
  function RequestLine(line: string): Option<(string, string)> {
    var i := Index(line, " ");
    if i < 0 then None
    else
      var rest := line[i + 1..];
      var j := Index(rest, " ");
      Some((line[..i], if j < 0 then rest else rest[..j]))
  }

  /** The length a field value announces; anything `Atoi` rejects counts as none. */
  function LengthIn(value: string): (v: int)
    ensures -MAX_INT - 1 <= v <= MAX_INT
  {
    var n := Atoi(TrimSpace(value));
    if n.Some? then n.value else 0
  }

  function ContentLength(h: Header): (v: int)
    ensures -MAX_INT - 1 <= v <= MAX_INT
  {
    LengthIn(Get(h, "Content-Length"))
  }

  /** The body of the request whose head (blank line included) is `start` bytes long. */
  function ParseBody(data: string, start: nat, line: (string, string), h: Header): (o: Outcome)
    requires start <= |data|
  {
    var v := ContentLength(h);
    if v < 0 || start + v > MAX_INT then Fault
    else if |data| < start + v then Incomplete
    else Complete(Request(line.0, line.1, h, data[start..start + v], ""), start + v)
  }

  /** Request line and fields of a head, given without its blank line. */
  datatype Head = Head(line: (string, string), headers: Header)

  function ParseHead(head: string): Option<Head> {
    var lines := Split(head, CRLF);
    var line := RequestLine(lines[0]);
    if line.None? then None else Some(Head(line.value, AddLines(map[], lines[1..])))
  }

  function ParseOne(data: string): (o: Outcome) {
    var end := Index(data, BLANK_LINE);
    if end < 0 then Incomplete
    else
      var head := ParseHead(data[..end]);
      if head.None? then Malformed else ParseBody(data, end + 4, head.value.line, head.value.headers)
  }

  /** A 64-bit sum, reduced to the range of `int`. */
  function Wrap(x: int): int {
    (x + MAX_INT + 1) % (2 * MAX_INT + 2) - MAX_INT - 1
  }

  lemma WrapOfSum(start: nat, v: int)
    requires start <= MAX_INT && -MAX_INT - 1 <= v <= MAX_INT
    ensures start + v <= MAX_INT ==> Wrap(start + v) == start + v
    ensures start + v > MAX_INT ==> Wrap(start + v) < 0
  {
  }

  lemma AddLinesStep(h: Header, lines: seq<string>, i: nat)
    requires i < |lines|
    ensures AddLines(h, lines[i..]) == AddLines(AddLine(h, lines[i]), lines[i + 1..])
  {
    hide AddLine;
    assert lines[i..][0] == lines[i] && lines[i..][1..] == lines[i + 1..];
  }

  lemma AddLinesDone(h: Header)
    ensures AddLines(h, []) == h
  {
  }

  /** The loop over the field lines, those after the request line. */
  method ParseFields(lines: seq<string>) returns (headers: Header)
    requires |lines| >= 1
    ensures headers == AddLines(map[], lines[1..])
  {
    hide AddLines, Add, TrimSpace;
    headers := map[];
    var i := 1;
    while i < |lines|
      invariant 1 <= i <= |lines|
      invariant AddLines(headers, lines[i..]) == AddLines(map[], lines[1..])
    {
      var line := lines[i];
      AddLinesStep(headers, lines, i);
      var idx := Index(line, ":");
      if idx >= 0 {
        headers := Add(headers, TrimSpace(line[..idx]), TrimSpace(line[idx + 1..]));
      }
      i := i + 1;
    }
    assert lines[i..] == [];
    AddLinesDone(headers);
  }

  method AnnouncedLength(headers: Header) returns (contentLength: int)
    ensures contentLength == ContentLength(headers)
  {
    contentLength := 0;
    var cl := Get(headers, "Content-Length");
    if cl != "" {
      var v := Atoi(TrimSpace(cl));
      if v.Some? {
        contentLength := v.value;
      }
    }
  }

  /** The parser as it runs, with a 64-bit addition that may wrap, and a panic in `make` or in the
      slice of the body when the length is out of range. */
  method ParseOneRequest(data: string) returns (o: Outcome)
    requires |data| <= MAX_INT
    ensures o == ParseOne(data)
  {
    hide AddLines, Split, ParseBody;
    var headerEnd := Index(data, BLANK_LINE);
    if headerEnd < 0 {
      return Incomplete;
    }
    var lines := Split(data[..headerEnd], CRLF);
    var space := Index(lines[0], " ");
    if space < 0 {
      return Malformed;
    }
    var path := lines[0][space + 1..];
    var space2 := Index(path, " ");
    if space2 >= 0 {
      path := path[..space2];
    }
    var headers := ParseFields(lines);
    o := TakeBody(data, headerEnd + 4, (lines[0][..space], path), headers);
  }

  method TakeBody(data: string, bodyStart: nat, line: (string, string), headers: Header) returns (o: Outcome)
    requires bodyStart <= |data| <= MAX_INT
    ensures o == ParseBody(data, bodyStart, line, headers)
  {
    var contentLength := AnnouncedLength(headers);
    WrapOfSum(bodyStart, contentLength);
    var totalLen := Wrap(bodyStart + contentLength);
    if |data| < totalLen {
      return Incomplete;
    }
    if contentLength < 0 || totalLen < bodyStart {
      return Fault;
    }
    var body := data[bodyStart..totalLen];
    o := Complete(Request(line.0, line.1, headers, body, ""), totalLen);
  }

  /** A complete request takes at least five bytes and no more than there are. */
  lemma CompleteSize(d: string)
    requires ParseOne(d).Complete?
    ensures 5 <= ParseOne(d).n <= |d|
    ensures ParseOne(d).req.srcIP == ""
  {
    hide ParseHead, ContentLength;
    HeadOfNothing();
    assert d[..0] == "";
  }

  /** An empty head has no request line. */
  lemma HeadOfNothing()
    ensures ParseHead("") == None
  {
    IndexReads("", CRLF);
    IndexReads("", " ");
  }

  /** Prefix stability: everything but `Incomplete` is final. */
  lemma ParseOneStable(d: string, e: string)
    requires !ParseOne(d).Incomplete?
    ensures ParseOne(d + e) == ParseOne(d)
  {
    hide ParseHead, ContentLength;
    IndexExtends(d, e, BLANK_LINE);
    var end := Index(d, BLANK_LINE);
    assert (d + e)[..end] == d[..end];
    if ParseOne(d).Complete? {
      assert (d + e)[end + 4..ParseOne(d).n] == d[end + 4..ParseOne(d).n];
    }
  }

  /** A complete request needs exactly its own bytes: they parse alone to the same request, and no
      shorter prefix parses to anything. */
  lemma ParseOneExact(d: string, m: nat)
    requires ParseOne(d).Complete? && m <= ParseOne(d).n
    ensures ParseOne(d).n <= |d|
    ensures m == ParseOne(d).n ==> ParseOne(d[..m]) == ParseOne(d)
    ensures m < ParseOne(d).n ==> ParseOne(d[..m]) == Incomplete
  {
    hide ParseHead, ContentLength;
    IndexOfPrefix(d, m, BLANK_LINE);
    var end := Index(d, BLANK_LINE);
    if end + 4 <= m {
      assert d[..m][..end] == d[..end];
      assert m == ParseOne(d).n ==> d[..m][end + 4..m] == d[end + 4..m];
    }
  }

  /** The bytes a complete request consumes are its lines, the blank line and its body: nothing is
      lost or invented, and the first line is the method, a space and the path, or goes on behind
      another space. */
  lemma CompleteReconstructs(d: string) returns (lines: seq<string>)
    requires ParseOne(d).Complete?
    ensures |lines| >= 1 && ParseOne(d).n <= |d|
    ensures var o := ParseOne(d);
            && d[..o.n] == Join(lines, CRLF) + BLANK_LINE + o.req.body
            && (lines[0] == o.req.verb + " " + o.req.path || o.req.verb + " " + o.req.path + " " <= lines[0])
            && ' ' !in o.req.verb && ' ' !in o.req.path
            && o.req.headers == AddLines(map[], lines[1..])
            && |o.req.body| == ContentLength(o.req.headers)
  {
    hide AddLines, Split, ContentLength, RequestLine;
    var o := ParseOne(d);
    var end := Index(d, BLANK_LINE);
    IndexReads(d, BLANK_LINE);
    lines := Split(d[..end], CRLF);
    JoinOfSplit(d[..end], CRLF);
    assert d[..o.n] == d[..end] + d[end..end + 4] + d[end + 4..o.n];
    RequestLineReads(lines[0]);
  }

  lemma AtSpace(s: string)
    requires Index(s, " ") >= 0
    ensures var i := Index(s, " "); s == s[..i] + " " + s[i + 1..] && ' ' !in s[..i]
  {
    hide Index;
    IndexReads(s, " ");
    var i := Index(s, " ");
    assert s[i..i + 1] == " ";
    BeforeFirst(s, ' ');
  }

  lemma Regroup(verb: string, path: string, tail: string)
    ensures verb + " " + path + " " <= verb + " " + (path + " " + tail)
  {
    assert verb + " " + (path + " " + tail) == (verb + " " + path + " ") + tail;
  }

  lemma RequestLineReads(line: string)
    requires RequestLine(line).Some?
    ensures var (verb, path) := RequestLine(line).value;
            && (line == verb + " " + path || verb + " " + path + " " <= line)
            && ' ' !in verb && ' ' !in path
  {
    hide Index;
    AtSpace(line);
    var i := Index(line, " ");
    var rest := line[i + 1..];
    var j := Index(rest, " ");
    if j < 0 {
      BeforeFirst(rest, ' ');
      assert RequestLine(line) == Some((line[..i], rest));
    } else {
      AtSpace(rest);
      Regroup(line[..i], rest[..j], rest[j + 1..]);
      assert RequestLine(line) == Some((line[..i], rest[..j]));
    }
  }

  /** Up to its first occurrence, a byte does not occur. */
  lemma BeforeFirst(s: string, c: char)
    ensures Index(s, [c]) >= 0 ==> c !in s[..Index(s, [c])]
    ensures Index(s, [c]) < 0 ==> c !in s
  {
    IndexNone(s, c);
    IndexReads(s, [c]);
    var i := Index(s, [c]);
    if i >= 0 {
      forall k | 0 <= k < i
        ensures s[..i][k] != c
      {
        assert !OccursAt(s, [c], k);
        assert s[k..k + 1] == [s[k]];
      }
    }
  }

  /** Exactly when each outcome arises, for all inputs.  The parser waits while the blank line or part
      of the announced body is missing; it rejects a head whose first line has no space; and it
      panics on a length that is negative, or so large that the end of the body is no `int`. */
  lemma OutcomesWhen(d: string)
    ensures var end := Index(d, BLANK_LINE);
            if end < 0 then ParseOne(d).Incomplete?
            else
              var lines := Split(d[..end], CRLF);
              var v := ContentLength(AddLines(map[], lines[1..]));
              var spaced := ' ' in lines[0];
              var room := 9223372036854775807 - 4 - end;
              && (ParseOne(d).Malformed? <==> !spaced)
              && (ParseOne(d).Fault? <==> spaced && (v < 0 || v > room))
              && (ParseOne(d).Incomplete? <==> spaced && |d| - 4 - end < v <= room)
  {
    hide ContentLength, AddLines;
    var end := Index(d, BLANK_LINE);
    if end >= 0 {
      IndexNone(Split(d[..end], CRLF)[0], ' ');
    }
  }

  lemma {:induction false} AddLinesCanonical(h: Header, lines: seq<string>)
    requires Canonical(h)
    ensures Canonical(AddLines(h, lines))
    decreases |lines|
  {
    if lines != [] {
      var i := Index(lines[0], ":");
      if i >= 0 {
        AddKeepsCanonical(h, TrimSpace(lines[0][..i]), TrimSpace(lines[0][i + 1..]));
      }
      AddLinesCanonical(AddLine(h, lines[0]), lines[1..]);
    }
  }

  // ---------------------------------------------------------------- all requests

  /** The requests at the front of `data`, the bytes they take, and why parsing stopped there. */
  datatype Batch = Batch(reqs: seq<Request>, consumed: nat, stop: Outcome)

  function ParseAll(data: string): (b: Batch)
    ensures b.consumed <= |data|
    decreases |data|
  {
    var o := ParseOne(data);
    if o.Complete? then
      CompleteSize(data);
      var b := ParseAll(data[o.n..]);
      Batch([o.req] + b.reqs, o.n + b.consumed, b.stop)
    else Batch([], 0, o)
  }

  /** Parsing stops at the first place where no complete request starts. */
  lemma {:induction false} ParseAllStops(data: string)
    ensures var b := ParseAll(data);
            b.stop == ParseOne(data[b.consumed..]) && !b.stop.Complete?
    decreases |data|
  {
    hide ParseOne;
    var o := ParseOne(data);
    if o.Complete? {
      CompleteSize(data);
      ParseAllStops(data[o.n..]);
      assert data[o.n..][ParseAll(data[o.n..]).consumed..] == data[ParseAll(data).consumed..];
    } else {
      assert data[0..] == data;
    }
  }

  /** The loop over one snapshot of a stream's buffer. */
  method ParseHTTPRequests(data: string) returns (b: Batch)
    requires |data| <= MAX_INT
    ensures b == ParseAll(data)
  {
    hide ParseOne;
    var results: seq<Request> := [];
    var consumed := 0;
    while true
      invariant consumed <= |data|
      invariant ParseAll(data) ==
                var r := ParseAll(data[consumed..]);
                Batch(results + r.reqs, consumed + r.consumed, r.stop)
      decreases |data| - consumed
    {
      var rest := data[consumed..];
      var o := ParseOneRequest(rest);
      if !o.Complete? {
        return Batch(results, consumed, o);
      }
      CompleteSize(rest);
      assert rest[o.n..] == data[consumed + o.n..];
      assert results + ([o.req] + ParseAll(rest[o.n..]).reqs) == results + [o.req] + ParseAll(rest[o.n..]).reqs;
      results := results + [o.req];
      consumed := consumed + o.n;
    }
  }

  /** Parsing a longer stream is parsing the shorter one and then going on from what it left over.
      This is what makes the cutting of the stream into segments invisible. */
  lemma {:induction false} ParseAllAppend(a: string, b: string)
    ensures var x := ParseAll(a);
            var y := ParseAll(a[x.consumed..] + b);
            ParseAll(a + b) == Batch(x.reqs + y.reqs, x.consumed + y.consumed, y.stop)
    decreases |a|
  {
    hide ParseOne;
    var o := ParseOne(a);
    if o.Complete? {
      CompleteSize(a);
      ParseOneStable(a, b);
      var rest := a[o.n..];
      ParseAllAppend(rest, b);
      assert (a + b)[o.n..] == rest + b;
      var x := ParseAll(rest);
      assert rest[x.consumed..] == a[o.n + x.consumed..];
      var y := ParseAll(rest[x.consumed..] + b);
      assert [o.req] + (x.reqs + y.reqs) == [o.req] + x.reqs + y.reqs;
    } else {
      assert a[0..] == a;
    }
  }

  /** What stops the parser for good stops it on every extension, with the same requests before it. */
  lemma ParseAllSticks(a: string, b: string)
    requires !ParseAll(a).stop.Incomplete?
    ensures ParseAll(a + b) == ParseAll(a)
  {
    hide ParseOne;
    ParseAllAppend(a, b);
    ParseAllStops(a);
    var rest := a[ParseAll(a).consumed..];
    ParseOneStable(rest, b);
  }

  // ---------------------------------------------------------------- tiling

  /** `d[a..b]` parses, alone, to exactly `req`. */
  ghost predicate Tile(d: string, a: nat, b: nat, req: Request) {
    a < b <= |d| && ParseOne(d[a..b]) == Complete(req, b - a)
  }

  /** `cuts` divides `d[..cuts.last]` into slices that each parse, alone, to one of `reqs`. */
  ghost predicate Tiles(d: string, cuts: seq<nat>, reqs: seq<Request>) {
    && |cuts| == |reqs| + 1
    && cuts[0] == 0
    && forall i :: 0 <= i < |reqs| ==> Tile(d, cuts[i], cuts[i + 1], reqs[i])
  }

  /** ... and nothing complete follows the last slice. */
  ghost predicate TilesFully(d: string, cuts: seq<nat>, reqs: seq<Request>) {
    Tiles(d, cuts, reqs) && cuts[|reqs|] <= |d| && !ParseOne(d[cuts[|reqs|]..]).Complete?
  }

  /** The batch parse tiles its input, each tile at least five bytes long. */
  lemma {:induction false} ParseAllTiles(d: string) returns (cuts: seq<nat>)
    ensures TilesFully(d, cuts, ParseAll(d).reqs)
    ensures cuts[|ParseAll(d).reqs|] == ParseAll(d).consumed
    decreases |d|
  {
    hide ParseOne;
    ParseAllStops(d);
    var o := ParseOne(d);
    if o.Complete? {
      CompleteSize(d);
      ParseOneExact(d, o.n);
      var tail := ParseAllTiles(d[o.n..]);
      cuts := [0] + seq(|tail|, i requires 0 <= i < |tail| => tail[i] + o.n);
      TilesPrepend(d, o.n, o.req, tail, ParseAll(d[o.n..]).reqs);
      assert cuts == Shift(o.n, tail);
    } else {
      cuts := [0];
      assert d[0..] == d;
    }
  }

  /** A full tiling of `d[n..]`, seen in `d` behind a first tile of `n` bytes. */
  function Shift(n: nat, tail: seq<nat>): seq<nat> {
    [0] + seq(|tail|, i requires 0 <= i < |tail| => tail[i] + n)
  }

  lemma TilesPrepend(d: string, n: nat, req: Request, tail: seq<nat>, reqs: seq<Request>)
    requires 0 < n <= |d| && Tile(d, 0, n, req)
    requires TilesFully(d[n..], tail, reqs)
    ensures TilesFully(d, Shift(n, tail), [req] + reqs)
  {
    hide ParseOne;
    var cuts := Shift(n, tail);
    forall i | 0 <= i < |reqs| + 1
      ensures Tile(d, cuts[i], cuts[i + 1], ([req] + reqs)[i])
    {
      if i > 0 {
        assert Tile(d[n..], tail[i - 1], tail[i - 1 + 1], reqs[i - 1]);
        assert d[n..][tail[i - 1]..tail[i]] == d[cuts[i]..cuts[i + 1]];
      }
    }
    assert d[cuts[|reqs| + 1]..] == d[n..][tail[|reqs|]..];
  }

  /** There is only one full tiling, so it defines the batch parse. */
  lemma {:induction false} TilingUnique(d: string, cuts: seq<nat>, reqs: seq<Request>)
    requires TilesFully(d, cuts, reqs)
    ensures ParseAll(d).reqs == reqs && ParseAll(d).consumed == cuts[|reqs|]
    decreases |reqs|
  {
    hide ParseOne;
    if reqs == [] {
      assert d[0..] == d;
    } else {
      var n := cuts[1];
      assert Tile(d, cuts[0], cuts[0 + 1], reqs[0]);
      assert d[0..n] == d[..n] && d[..n] + d[n..] == d;
      ParseOneStable(d[..n], d[n..]);
      var tail := TilesTail(d, cuts, reqs);
      TilingUnique(d[n..], tail, reqs[1..]);
      assert reqs == [reqs[0]] + reqs[1..];
    }
  }

  lemma TilesTail(d: string, cuts: seq<nat>, reqs: seq<Request>) returns (tail: seq<nat>)
    requires TilesFully(d, cuts, reqs) && |reqs| > 0
    ensures cuts[1] <= |d| && TilesFully(d[cuts[1]..], tail, reqs[1..])
    ensures tail[|reqs| - 1] + cuts[1] == cuts[|reqs|]
  {
    hide ParseOne;
    var n := cuts[1];
    assert Tile(d, cuts[0], cuts[0 + 1], reqs[0]);
    forall j | 1 <= j < |cuts|
      ensures n <= cuts[j]
    {
      CutsAscend(cuts, reqs, d, 1, j);
    }
    tail := seq(|reqs|, i requires 0 <= i < |reqs| && n <= cuts[i + 1] => cuts[i + 1] - n);
    forall i | 0 <= i < |reqs| - 1
      ensures Tile(d[n..], tail[i], tail[i + 1], reqs[1..][i])
    {
      assert Tile(d, cuts[i + 1], cuts[i + 1 + 1], reqs[i + 1]);
      assert d[n..][tail[i]..tail[i + 1]] == d[cuts[i + 1]..cuts[i + 2]];
    }
    assert d[n..][tail[|reqs| - 1]..] == d[cuts[|reqs|]..];
  }

  lemma {:induction false} CutsAscend(cuts: seq<nat>, reqs: seq<Request>, d: string, i: nat, j: nat)
    requires Tiles(d, cuts, reqs) && i <= j < |cuts|
    ensures cuts[i] <= cuts[j]
    decreases j
  {
    hide ParseOne;
    if i < j {
      CutsAscend(cuts, reqs, d, i, j - 1);
      assert Tile(d, cuts[j - 1], cuts[j - 1 + 1], reqs[j - 1]);
    }
  }
}
