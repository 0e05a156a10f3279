/** Reassembly of TCP segments into requests: the packet filter, the table of streams, and the
    operations that change it. */
module Tracker {
  import opened ByteStrings
  import opened HttpParser
  import opened Wire
  import opened Loader

  // ---------------------------------------------------------------- packet filter

  const METHODS := ["GET ", "POST ", "PUT ", "DELETE ", "PATCH ", "HEAD ", "OPTIONS "]

  predicate LooksLikeHTTP(data: string) {
    exists i :: 0 <= i < |METHODS| && METHODS[i] <= data
  }

  predicate IsText(c: char) {
    ' ' <= c < (0x7f as char) || c == '\r' || c == '\n' || c == '\t'
  }

  function TextBytes(s: string): (n: nat)
    ensures n <= |s|
  {
    if s == "" then 0 else TextBytes(s[..|s| - 1]) + if IsText(s[|s| - 1]) then 1 else 0
  }

  /** At least 80% of the first 64 bytes are text. */
  predicate LooksLikeContinuation(data: string) {
    var check := Min(|data|, 64);
    check > 0 && TextBytes(data[..check]) * 10 >= check * 8
  }

  /** Where, below `n`, a byte is visible ASCII, a space, a tab, a line feed or a return. */
  function TextPlaces(data: string, n: nat): set<int>
    requires n <= |data|
  {
    set i | 0 <= i < n && (0x20 <= data[i] as int < 0x7f || data[i] as int in {9, 10, 13})
  }

  lemma {:induction false} TextBytesAre(data: string, n: nat)
    requires n <= |data|
    ensures TextBytes(data[..n]) == |TextPlaces(data, n)|
  {
    if n > 0 {
      TextBytesAre(data, n - 1);
      assert data[..n][..n - 1] == data[..n - 1];
      var c := data[n - 1];
      assert IsText(c) <==> 0x20 <= c as int < 0x7f || c as int in {9, 10, 13} by { TextByteIs(c); }
      assert TextPlaces(data, n) == TextPlaces(data, n - 1) + if IsText(c) then {n - 1} else {};
    }
  }

  lemma TextByteIs(c: char)
    ensures IsText(c) <==> 0x20 <= c as int < 0x7f || c as int in {9, 10, 13}
  {
    assert '\t' as int == 9 && '\n' as int == 10 && '\r' as int == 13;
    assert c == (c as int) as char;
  }

  /** The filter, on any segment: it starts with one of the seven methods and a space, or eight tenths
      of its first 64 bytes are text. */
  lemma FilterIs(data: string)
    ensures LooksLikeHTTP(data) <==>
            || "GET " <= data || "POST " <= data || "PUT " <= data || "DELETE " <= data
            || "PATCH " <= data || "HEAD " <= data || "OPTIONS " <= data
    ensures var n := if |data| < 64 then |data| else 64;
            LooksLikeContinuation(data) <==> n > 0 && 10 * |TextPlaces(data, n)| >= 8 * n
  {
    hide TextPlaces, IsText;
    TextBytesAre(data, Min(|data|, 64));
    MethodsAre(data);
  }

  lemma MethodsAre(data: string)
    ensures LooksLikeHTTP(data) <==>
            || "GET " <= data || "POST " <= data || "PUT " <= data || "DELETE " <= data
            || "PATCH " <= data || "HEAD " <= data || "OPTIONS " <= data
  {
    assert METHODS[0] == "GET " && METHODS[1] == "POST " && METHODS[2] == "PUT " && METHODS[3] == "DELETE ";
    assert METHODS[4] == "PATCH " && METHODS[5] == "HEAD " && METHODS[6] == "OPTIONS ";
  }

  method CheckContinuation(data: string) returns (ok: bool)
    ensures ok == LooksLikeContinuation(data)
    ensures var n := if |data| < 64 then |data| else 64;
            ok <==> n > 0 && 10 * |TextPlaces(data, n)| >= 8 * n
  {
    FilterIs(data);
    var check := |data|;
    if check == 0 {
      return false;
    }
    if check > 64 {
      check := 64;
    }
    var printable := 0;
    for i := 0 to check
      invariant printable == TextBytes(data[..i])
    {
      assert data[..i + 1][..i] == data[..i];
      if IsText(data[i]) {
        printable := printable + 1;
      }
    }
    ok := printable * 10 >= check * 8;
  }

  method CheckHTTP(data: string) returns (ok: bool)
    ensures ok == LooksLikeHTTP(data)
    ensures ok <==>
            || "GET " <= data || "POST " <= data || "PUT " <= data || "DELETE " <= data
            || "PATCH " <= data || "HEAD " <= data || "OPTIONS " <= data
  {
    MethodsAre(data);
    for i := 0 to |METHODS|
      invariant forall j :: 0 <= j < i ==> !(METHODS[j] <= data)
    {
      if METHODS[i] <= data {
        return true;
      }
    }
    ok := false;
  }

  lemma {:induction false} AllText(s: string)
    requires forall i :: 0 <= i < |s| ==> IsText(s[i])
    ensures TextBytes(s) == |s|
  {
    if s != "" {
      AllText(s[..|s| - 1]);
    }
  }

  /** A segment of nothing but text is never dropped. */
  lemma TextPasses(data: string)
    requires data != "" && forall i :: 0 <= i < |data| ==> IsText(data[i])
    ensures LooksLikeContinuation(data)
  {
    AllText(data[..Min(|data|, 64)]);
  }

  // ---------------------------------------------------------------- the table as a value

  datatype StreamKey = StreamKey(srcIP: U32, dstIP: U32, srcPort: U16, dstPort: U16)

  /** Buffered bytes of a stream and the time of its last segment. */
  datatype Buffered = Buffered(buf: string, lastSeen: int)

  type Table = map<StreamKey, Buffered>

  function KeyOf(ev: PktEvent): StreamKey { StreamKey(ev.srcIP, ev.dstIP, ev.srcPort, ev.dstPort) }

  function PayloadOf(ev: PktEvent): (data: string)
    ensures |data| == ev.payloadLen
  {
    ev.payload[..ev.payloadLen]
  }

  /** An event that carries `data`. */
  function EventOf(data: seq<Byte>): (ev: PktEvent)
    requires |data| <= MAX_PAYLOAD
    ensures PayloadOf(ev) == data
  {
    Event(0, 0, 0, 0, |data|, '\0', data + Zeros(MAX_PAYLOAD - |data|))
  }

  /** A segment that gets into a buffer: not empty and not filtered. */
  predicate Accepted(ev: PktEvent) {
    PayloadOf(ev) != "" && (LooksLikeHTTP(PayloadOf(ev)) || LooksLikeContinuation(PayloadOf(ev)))
  }

  function BufferOf(m: Table, key: StreamKey): string {
    if key in m then m[key].buf else ""
  }

  /** First locked phase of `Feed`. */
  function Append(m: Table, key: StreamKey, data: string, now: int): Table {
    m[key := Buffered(BufferOf(m, key) + data, now)]
  }

  /** Second locked phase of `Feed`, after `b` was parsed from `snapshot`. */
  function Settle(m: Table, key: StreamKey, snapshot: string, b: Batch): Table {
    if b.reqs == [] then m
    else if b.consumed >= |snapshot| then m - {key}
    else if key in m then m[key := m[key].(buf := snapshot[b.consumed..])]
    else m
  }

  /** The second phase dereferences a stream that is not there. */
  predicate NilStream(m: Table, key: StreamKey, snapshot: string, b: Batch) {
    b.reqs != [] && b.consumed < |snapshot| && key !in m
  }

  /** The streams a sweep leaves: those heard from since the cutoff. */
  function Sweep(m: Table, cutoff: int): Table {
    map k | k in m && !(m[k].lastSeen < cutoff) :: m[k]
  }

  function Stamp(reqs: seq<Request>, ip: string): (r: seq<Request>)
    ensures |r| == |reqs|
    ensures forall i :: 0 <= i < |reqs| ==> r[i] == reqs[i].(srcIP := ip)
  {
    seq(|reqs|, i requires 0 <= i < |reqs| => reqs[i].(srcIP := ip))
  }

  /** What one whole `Feed` does: the new table and the requests, or a panic. */
  datatype Fed = Fed(table: Table, reqs: seq<Request>, panic: bool)

  function Assemble(m: Table, key: StreamKey, data: string, now: int, ip: string): Fed {
    var m1 := Append(m, key, data, now);
    var b := ParseAll(m1[key].buf);
    if b.stop.Fault? then Fed(m1, [], true)
    else Fed(Settle(m1, key, m1[key].buf, b), Stamp(b.reqs, ip), false)
  }

  function Feed(m: Table, ev: PktEvent, now: int): Fed {
    if Accepted(ev) then Assemble(m, KeyOf(ev), PayloadOf(ev), now, IpStr(ev.srcIP)) else Fed(m, [], false)
  }

  lemma StreamPresent(m: Table, key: StreamKey, snapshot: string, b: Batch)
    requires key in m
    ensures !NilStream(m, key, snapshot, b)
  {
  }

  // ---------------------------------------------------------------- the table in memory

  class Stream {
    var buf: string
    var lastSeen: int

    constructor ()
      ensures buf == ""
    {
      buf := "";
      lastSeen := 0;
    }
  }

  /** The agent's counters that the tracker bumps. */
  class AgentStats {
    var packetsReceived: int
    var packetsDropped: int
    var streamsReaped: int
    var parseErrors: int
    var reqsAssembled: int

    constructor ()
      ensures packetsReceived == packetsDropped == streamsReaped == parseErrors == reqsAssembled == 0
    {
      packetsReceived, packetsDropped, streamsReaped, parseErrors, reqsAssembled := 0, 0, 0, 0, 0;
    }
  }

  class TCPTracker {
    var streams: map<StreamKey, Stream>
    const stats: AgentStats

    /** No two keys share a stream. */
    ghost predicate Valid()
      reads this
    {
      forall j, k :: j in streams && k in streams && j != k ==> streams[j] != streams[k]
    }

    ghost function Contents(): Table
      reads this, streams.Values
    {
      map k | k in streams :: Buffered(streams[k].buf, streams[k].lastSeen)
    }

    constructor (stats: AgentStats)
      ensures Valid() && Contents() == map[] && this.stats == stats
    {
      streams := map[];
      this.stats := stats;
    }

    /** First locked phase: append the segment, take a snapshot of the buffer. */
    method AppendSegment(key: StreamKey, data: string, now: int) returns (snapshot: string)
      requires Valid()
      modifies this, streams.Values
      ensures Valid() && fresh(streams.Values - old(streams.Values))
      ensures Contents() == Append(old(Contents()), key, data, now)
      ensures snapshot == Contents()[key].buf
    {
      if key !in streams {
        var s := new Stream();
        streams := streams[key := s];
      }
      var s := streams[key];
      assert s in streams.Values;
      s.lastSeen := now;
      s.buf := s.buf + data;
      snapshot := s.buf;
    }

    /** Second locked phase: drop the consumed bytes.  `ok` is false if it finds no stream to trim,
        which panics. */
    method TrimConsumed(key: StreamKey, snapshot: string, b: Batch) returns (ok: bool)
      requires Valid() && b.reqs != []
      modifies this, streams.Values
      ensures Valid() && streams.Values <= old(streams.Values)
      ensures Contents() == Settle(old(Contents()), key, snapshot, b)
      ensures ok == !NilStream(old(Contents()), key, snapshot, b)
    {
      ok := true;
      if b.consumed >= |snapshot| {
        streams := streams - {key};
      } else if key in streams {
        var s := streams[key];
        assert s in streams.Values;
        s.buf := snapshot[b.consumed..];
      } else {
        ok := false;
      }
    }

    /** The work of `Feed` on an accepted segment, with no sweep between its two phases. */
    method FeedSegment(key: StreamKey, data: string, now: int, ip: string)
      returns (reqs: seq<Request>, panic: bool)
      requires Valid()
      requires |BufferOf(Contents(), key)| + |data| <= MAX_INT
      modifies this, streams.Values, stats`parseErrors, stats`reqsAssembled
      ensures Valid() && fresh(streams.Values - old(streams.Values))
      ensures Fed(Contents(), reqs, panic) == Assemble(old(Contents()), key, data, now, ip)
      ensures stats.parseErrors == old(stats.parseErrors) +
                if ParseAll(BufferOf(old(Contents()), key) + data).stop.Malformed? then 1 else 0
      ensures stats.reqsAssembled == old(stats.reqsAssembled) + |reqs|
    {
      hide ParseAll, NilStream;
      reqs, panic := [], false;
      var snapshot := AppendSegment(key, data, now);
      ghost var appended := Contents();
      var b := ParseHTTPRequests(snapshot);
      if b.stop.Fault? {
        panic := true;
        return;
      }
      if b.stop.Malformed? {
        stats.parseErrors := stats.parseErrors + 1;
      }
      if |b.reqs| > 0 {
        reqs := StampAll(b.reqs, ip);
        stats.reqsAssembled := stats.reqsAssembled + |reqs|;
        assert Contents() == appended;
        var ok := TrimConsumed(key, snapshot, b);
        StreamPresent(appended, key, snapshot, b);
        panic := !ok;
      }
    }

    /** One packet. */
    method FeedPacket(ev: PktEvent, now: int) returns (reqs: seq<Request>, panic: bool)
      requires Valid()
      requires Accepted(ev) ==> |BufferOf(Contents(), KeyOf(ev))| + |PayloadOf(ev)| <= MAX_INT
      modifies this, streams.Values, stats
      ensures Valid() && fresh(streams.Values - old(streams.Values))
      ensures Fed(Contents(), reqs, panic) == Feed(old(Contents()), ev, now)
      ensures stats.packetsReceived == old(stats.packetsReceived) + 1
      ensures stats.packetsDropped == old(stats.packetsDropped) +
                if PayloadOf(ev) != "" && !Accepted(ev) then 1 else 0
      ensures stats.parseErrors == old(stats.parseErrors) +
                if Accepted(ev) && ParseAll(BufferOf(old(Contents()), KeyOf(ev)) + PayloadOf(ev)).stop.Malformed?
                then 1 else 0
      ensures stats.reqsAssembled == old(stats.reqsAssembled) + |reqs|
      ensures stats.streamsReaped == old(stats.streamsReaped)
    {
      hide Assemble, ParseAll, LooksLikeHTTP, LooksLikeContinuation, IpStr, PayloadOf, KeyOf, BufferOf, TextPlaces;
      reqs, panic := [], false;
      stats.packetsReceived := stats.packetsReceived + 1;
      assert Contents() == old(Contents());
      if ev.payloadLen == 0 {
        return;
      }
      var data := PayloadOf(ev);
      var http := CheckHTTP(data);
      var continuation := CheckContinuation(data);
      if !http && !continuation {
        stats.packetsDropped := stats.packetsDropped + 1;
        assert Contents() == old(Contents());
        return;
      }
      reqs, panic := FeedSegment(KeyOf(ev), data, now, IpStr(ev.srcIP));
    }

    /** The reaper's sweep under the lock. */
    method Reap(cutoff: int)
      requires Valid()
      modifies this, stats`streamsReaped
      ensures Valid() && streams.Values <= old(streams.Values)
      ensures Contents() == Sweep(old(Contents()), cutoff)
      ensures stats.streamsReaped == old(stats.streamsReaped) + |old(Contents()).Keys - Contents().Keys|
    {
      ghost var table := Contents();
      ghost var gone := DeleteStale(cutoff);
      assert Contents() == table - gone;
      SweepRemoves(table, gone, cutoff);
    }

    method DeleteStale(cutoff: int) returns (ghost gone: set<StreamKey>)
      modifies this, stats`streamsReaped
      ensures streams == old(streams) - gone && gone <= old(streams).Keys
      ensures forall k :: k in old(streams) ==> (k in gone <==> old(streams[k].lastSeen) < cutoff)
      ensures stats.streamsReaped == old(stats.streamsReaped) + |gone|
    {
      gone := {};
      var pending := streams.Keys;
      while pending != {}
        invariant streams == old(streams) - gone
        invariant pending <= old(streams).Keys && gone <= old(streams).Keys && gone !! pending
        invariant forall k :: k in old(streams) && k !in pending ==> (k in gone <==> old(streams[k].lastSeen) < cutoff)
        invariant stats.streamsReaped == old(stats.streamsReaped) + |gone|
        decreases pending
      {
        var k :| k in pending;
        if streams[k].lastSeen < cutoff {
          stats.streamsReaped := stats.streamsReaped + 1;
          streams := streams - {k};
          gone := gone + {k};
        }
        pending := pending - {k};
      }
    }
  }

  lemma SweepRemoves(m: Table, gone: set<StreamKey>, cutoff: int)
    requires gone <= m.Keys && forall k :: k in m.Keys ==> (k in gone <==> m[k].lastSeen < cutoff)
    ensures m - gone == Sweep(m, cutoff) && m.Keys - (m - gone).Keys == gone
  {
  }

  method StampAll(reqs: seq<Request>, ip: string) returns (stamped: seq<Request>)
    ensures stamped == Stamp(reqs, ip)
  {
    stamped := reqs;
    for i := 0 to |reqs|
      invariant |stamped| == |reqs|
      invariant forall j :: 0 <= j < |reqs| ==> stamped[j] == if j < i then reqs[j].(srcIP := ip) else reqs[j]
    {
      stamped := stamped[i := stamped[i].(srcIP := ip)];
    }
  }
}
