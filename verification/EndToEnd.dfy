/** The whole way of a request: frames into the kernel hook, records through the ring and the
    loader, segments through the tracker, requests out. */
module EndToEnd {
  import opened ByteStrings
  import opened HttpParser
  import opened Rfc9112
  import opened Wire
  import opened Loader
  import opened Kernel
  import opened Tracker
  import opened Runs
  import opened Delivery
  import opened Driver

  // ---------------------------------------------------------------- frames into the ring

  /** A frame, the stale contents of the ring slot it would get, and whether copying its payload would
      succeed. */
  datatype Ingress = Ingress(skb: Skb, slot: seq<Byte>, loaded: bool)

  type Frame = f: Ingress | |f.slot| == EVENT_SIZE witness Ingress(Buffer([], 0), Zeros(EVENT_SIZE), true)

  /** A frame the hook has something to record of; of any other it leaves nothing. */
  predicate Recorded(f: Frame, target: U16) { Matches(f.skb, target) && HasPayload(f.skb) }

  function Trace(f: Frame, target: U16): seq<seq<Byte>> {
    if Recorded(f, target) then [Record(f.skb, f.slot, f.loaded)] else []
  }

  /** The records of any frames, in order, if there is room for all. */
  function Records(fs: seq<Frame>, target: U16): seq<seq<Byte>> {
    if fs == [] then [] else Records(fs[..|fs| - 1], target) + Trace(fs[|fs| - 1], target)
  }

  function Matching(fs: seq<Frame>, target: U16): nat {
    if fs == [] then 0 else Matching(fs[..|fs| - 1], target) + One(Matches(fs[|fs| - 1].skb, target))
  }

  lemma RecordsNext(fs: seq<Frame>, i: nat, target: U16)
    requires i < |fs|
    ensures Records(fs[..i + 1], target) == Records(fs[..i], target) + Trace(fs[i], target)
    ensures Matching(fs[..i + 1], target) == Matching(fs[..i], target) + One(Matches(fs[i].skb, target))
  {
    hide Trace, Matches;
    assert fs[..i + 1][..i] == fs[..i];
  }

  /** One frame into the hook. */
  method Receive(hook: Hook, f: Frame)
    modifies hook
    ensures hook.matched == old(hook.matched) + One(Matches(f.skb, hook.target))
    ensures var full := |old(hook.ring)| >= hook.capacity;
            && hook.ring == old(hook.ring) + (if full then [] else Trace(f, hook.target))
            && hook.drops == old(hook.drops) + One(full && Recorded(f, hook.target))
  {
    hide Record;
    var slot := new Byte[EVENT_SIZE](k requires 0 <= k < EVENT_SIZE => f.slot[k]);
    assert slot[..] == f.slot;
    hook.MirrorIngress(f.skb, slot, f.loaded);
  }

  /** The hook on one frame after another, with nobody reading: the ring fills with the records, in
      order, up to its capacity, and every record beyond is counted as a drop. */
  method Capture(hook: Hook, fs: seq<Frame>)
    requires hook.ring == []
    modifies hook
    ensures var records := Records(fs, hook.target);
            && hook.ring == records[..Min(|records|, hook.capacity)]
            && hook.drops == old(hook.drops) + |records| - |hook.ring|
            && hook.matched == old(hook.matched) + Matching(fs, hook.target)
  {
    hide Record, Matches, HasPayload, Records, Matching;
    var i := 0;
    NoRecords(hook.target);
    assert fs[..0] == [];
    while i < |fs|
      invariant 0 <= i <= |fs|
      invariant var records := Records(fs[..i], hook.target);
                && hook.ring == records[..Min(|records|, hook.capacity)]
                && hook.drops == old(hook.drops) + |records| - |hook.ring|
                && hook.matched == old(hook.matched) + Matching(fs[..i], hook.target)
    {
      RecordsNext(fs, i, hook.target);
      Receive(hook, fs[i]);
      i := i + 1;
    }
    assert fs[..i] == fs;
  }

  lemma NoRecords(target: U16)
    ensures Records([], target) == [] && Matching([], target) == 0
  {
  }

  // ---------------------------------------------------------------- what the frames carried

  /** The connection of a frame. */
  function FlowOf(skb: Skb): StreamKey
    requires IsTcp(skb)
  {
    StreamKey(Load32(SourceAddress(skb)), Load32(DestAddress(skb)), SourcePort(skb), DestPort(skb))
  }

  /** The bytes TCP carries in a frame. */
  function Carried(skb: Skb): string
    requires IsTcp(skb)
  {
    if HdrOffset(skb) <= DatagramEnd(skb) <= |skb.bytes| then TcpPayload(skb) else ""
  }

  /** The bytes TCP carried on one connection to the mirrored port. */
  function SentOn(key: StreamKey, fs: seq<Frame>, target: U16): string {
    if fs == [] then ""
    else
      var skb := fs[|fs| - 1].skb;
      SentOn(key, fs[..|fs| - 1], target) + if Matches(skb, target) && FlowOf(skb) == key then Carried(skb) else ""
  }

  /** Both in terms of a frame's parts: the connection is that of the addresses and ports in its headers,
      and TCP carries what the IP header's total length leaves behind the two headers. */
  lemma PartsFlow(p: Parts, ihl: nat, doff: nat, reserved: nat, data: seq<Byte>, padding: seq<Byte>, skb: Skb)
    requires WellFormedParts(p, ihl, doff, reserved) && skb.bytes == Bytes(p) && IsTcp(skb)
    requires p.rest == data + padding
    requires 0x100 * p.ip[2] as int + p.ip[3] as int == 4 * ihl + 4 * doff + |data|
    ensures FlowOf(skb) == StreamKey(Load32(p.ip[12..16]), Load32(p.ip[16..20]),
                                     0x100 * p.tcp[0] as int + p.tcp[1] as int,
                                     0x100 * p.tcp[2] as int + p.tcp[3] as int)
    ensures Carried(skb) == data
  {
    hide IsTcp, SourcePort, DestPort, SourceAddress, DestAddress, Load32, HdrOffset, DatagramEnd;
    PartsHeaders(p, ihl, doff, reserved, skb);
    PartsFields(p, ihl, doff, reserved, skb);
    PartsAt(p);
    assert skb.bytes[HdrOffset(skb)..][..|data|] == TcpPayload(skb);
  }

  predicate PassesFilter(data: string) { LooksLikeHTTP(data) || LooksLikeContinuation(data) }

  /** The bytes of a recorded frame that get into a buffer. */
  function Delivered(f: Frame, target: U16): string
    requires Recorded(f, target)
  {
    if f.loaded && PassesFilter(Captured(f.skb)) then Captured(f.skb) else ""
  }

  /** The captured bytes are those TCP carries, and the filter lets them through. */
  predicate Whole(f: Frame, target: U16)
    requires Recorded(f, target)
  {
    f.loaded && PassesFilter(Captured(f.skb)) && Captured(f.skb) == Carried(f.skb)
  }

  /** TCP carries nothing, and whatever was captured does not get through. */
  predicate Silent(f: Frame, target: U16)
    requires Recorded(f, target)
  {
    Carried(f.skb) == "" && !(f.loaded && PassesFilter(Captured(f.skb)))
  }

  /** What the end-to-end guarantee asks of a frame: nothing, if it goes to another port or ends with
      its headers. */
  predicate Clean(f: Frame, target: U16) {
    Recorded(f, target) ==> Whole(f, target) || Silent(f, target)
  }

  predicate AllClean(fs: seq<Frame>, target: U16) { forall i :: 0 <= i < |fs| ==> Clean(fs[i], target) }

  /** A recorded frame gives the tracker the bytes TCP carries in it exactly if it is clean. */
  lemma FrameArrivesIff(f: Frame, target: U16, ev: PktEvent)
    requires Recorded(f, target) && Decode(Record(f.skb, f.slot, f.loaded)) == Some(ev)
    ensures KeyOf(ev) == FlowOf(f.skb)
    ensures (if Accepted(ev) then PayloadOf(ev) else "") == Carried(f.skb) <==> Clean(f, target)
  {
    hide Decode, Record, Load32, Network16, SourceAddress, DestAddress, SourcePort, DestPort, Flags, Zeros,
         LooksLikeContinuation, LooksLikeHTTP, HdrOffset, DatagramEnd, Captured, Carried;
    CodecInverse(f.skb, f.slot, f.loaded);
    assert Captured(f.skb) != "";
    assert PayloadOf(ev) == if f.loaded then Captured(f.skb) else "";
  }

  /** Without padding, a frame is clean exactly if the copy succeeds and the payload fits into the array
      and passes the filter. */
  lemma CleanUnpadded(f: Frame, target: U16)
    requires Recorded(f, target) && Unpadded(f.skb)
    ensures Clean(f, target) <==>
            f.loaded && |TcpPayload(f.skb)| <= MAX_PAYLOAD && PassesFilter(TcpPayload(f.skb))
  {
    hide LooksLikeContinuation, LooksLikeHTTP, HdrOffset, DatagramEnd;
    CaptureOfUnpadded(f.skb);
  }

  /** With padding, it takes a payload that alone fills the array; or no payload, and padding that does
      not pass the filter. */
  lemma CleanPadded(f: Frame, target: U16)
    requires Recorded(f, target) && HdrOffset(f.skb) <= DatagramEnd(f.skb) < |f.skb.bytes|
    ensures Clean(f, target) <==>
            if TcpPayload(f.skb) == "" then !(f.loaded && PassesFilter(Captured(f.skb)))
            else f.loaded && |TcpPayload(f.skb)| == MAX_PAYLOAD && PassesFilter(TcpPayload(f.skb))
  {
    hide LooksLikeContinuation, LooksLikeHTTP, HdrOffset, DatagramEnd;
    CaptureOfPadded(f.skb);
  }

  /** In particular, an unpadded segment of at most 1500 bytes of text is clean ... */
  lemma TextIsClean(f: Frame, target: U16)
    requires Recorded(f, target) && Unpadded(f.skb) && f.loaded && |TcpPayload(f.skb)| <= MAX_PAYLOAD
    requires forall i :: 0 <= i < |TcpPayload(f.skb)| ==> IsText(TcpPayload(f.skb)[i])
    ensures Clean(f, target)
  {
    hide LooksLikeContinuation, LooksLikeHTTP, IsText;
    TextPasses(TcpPayload(f.skb));
    CleanUnpadded(f, target);
  }

  /** ... and so is a bare ACK that Ethernet has padded with zeros. */
  lemma PaddedAckIsClean(f: Frame, target: U16)
    requires Recorded(f, target) && HdrOffset(f.skb) == DatagramEnd(f.skb)
    requires forall i :: DatagramEnd(f.skb) <= i < |f.skb.bytes| ==> f.skb.bytes[i] == '\0'
    ensures Clean(f, target)
  {
    hide LooksLikeContinuation, LooksLikeHTTP, DatagramEnd;
    ZerosFiltered(Captured(f.skb));
    CleanPadded(f, target);
  }

  lemma {:induction false} NoText(s: string)
    requires forall i :: 0 <= i < |s| ==> s[i] == '\0'
    ensures TextBytes(s) == 0
  {
    if s != "" { NoText(s[..|s| - 1]); }
  }

  lemma RequestStart(data: string)
    requires LooksLikeHTTP(data)
    ensures data != "" && data[0] != '\0'
  {
    var i :| 0 <= i < |METHODS| && METHODS[i] <= data;
    assert data[0] == METHODS[i][0];
  }

  /** A segment of zeros is filtered. */
  lemma ZerosFiltered(data: string)
    requires forall i :: 0 <= i < |data| ==> data[i] == '\0'
    ensures !PassesFilter(data)
  {
    NoText(data[..Min(|data|, 64)]);
    if LooksLikeHTTP(data) { RequestStart(data); }
  }

  lemma RecordDecodes(f: Frame, target: U16, records: seq<seq<Byte>>) returns (ev: PktEvent)
    requires Clean(f, target) && Recorded(f, target)
    ensures DecodeAll(records + Trace(f, target)) == DecodeAll(records) + [ev]
    ensures KeyOf(ev) == FlowOf(f.skb)
    ensures (if Accepted(ev) then PayloadOf(ev) else "") == Carried(f.skb)
  {
    hide Record, FlowOf, Carried, Accepted, KeyOf, PayloadOf, DecodeFull, IsTcp, DestPort, HasPayload, Clean;
    var r := Record(f.skb, f.slot, f.loaded);
    ev := Decode(r).value;
    FrameArrivesIff(f, target, ev);
    assert (records + [r])[..|records + [r]| - 1] == records;
  }

  /** The operations of the tracker on a sequence of events, each at some time. */
  predicate Feeds(ops: seq<Op>, events: seq<PktEvent>) {
    |ops| == |events| && forall i :: 0 <= i < |ops| ==> ops[i].Packet? && ops[i].ev == events[i]
  }

  /** The events of all frames reach the tracker as their connections' byte streams. */
  lemma {:induction false} FramesArrive(fs: seq<Frame>, target: U16, ops: seq<Op>, key: StreamKey)
    requires AllClean(fs, target)
    requires Feeds(ops, DecodeAll(Records(fs, target)))
    ensures NoReap(ops) && Received(key, ops) == SentOn(key, fs, target)
    decreases |fs|
  {
    hide DecodeAll, Records, Received, SentOn, Clean, Recorded, NoReap;
    if fs == [] {
      NothingDecoded();
      NothingArrives(target, key);
    } else {
      var before, f := fs[..|fs| - 1], fs[|fs| - 1];
      assert fs == before + [f];
      RecordsSnoc(before, f, target);
      if Recorded(f, target) {
        var ev := RecordDecodes(f, target, Records(before, target));
        var fewer, op := ops[..|ops| - 1], ops[|ops| - 1];
        assert ops == fewer + [op];
        FramesArrive(before, target, fewer, key);
        SegmentArrives(before, f, target, fewer, op, key);
      } else {
        NothingTraced(f, target);
        assert Records(before, target) + [] == Records(before, target);
        FramesArrive(before, target, ops, key);
        NothingCarried(before, f, target, key);
      }
    }
  }

  lemma NothingArrives(target: U16, key: StreamKey)
    ensures Records([], target) == [] && NoReap([]) && Received(key, []) == SentOn(key, [], target)
  {
  }

  lemma NothingTraced(f: Frame, target: U16)
    requires !Recorded(f, target)
    ensures Trace(f, target) == []
  {
  }

  lemma SegmentArrives(fs: seq<Frame>, f: Frame, target: U16, ops: seq<Op>, op: Op, key: StreamKey)
    requires Recorded(f, target) && op.Packet? && KeyOf(op.ev) == FlowOf(f.skb)
    requires (if Accepted(op.ev) then PayloadOf(op.ev) else "") == Carried(f.skb)
    requires NoReap(ops) && Received(key, ops) == SentOn(key, fs, target)
    ensures NoReap(ops + [op]) && Received(key, ops + [op]) == SentOn(key, fs + [f], target)
  {
    hide Accepted, PayloadOf, FlowOf, Carried, KeyOf, IsTcp, DestPort, HasPayload, Received, SentOn;
    ReceivedSnoc(key, ops, op);
    SentSnoc(key, fs, f, target);
    assert Received(key, ops) + "" == Received(key, ops);
  }

  lemma ReceivedSnoc(key: StreamKey, ops: seq<Op>, op: Op)
    requires op.Packet?
    ensures Received(key, ops + [op]) ==
            Received(key, ops) + if Accepted(op.ev) && KeyOf(op.ev) == key then PayloadOf(op.ev) else ""
  {
    hide Accepted, PayloadOf, KeyOf;
    assert (ops + [op])[..|ops + [op]| - 1] == ops;
  }

  lemma SentSnoc(key: StreamKey, fs: seq<Frame>, f: Frame, target: U16)
    ensures SentOn(key, fs + [f], target) ==
            SentOn(key, fs, target)
            + if Matches(f.skb, target) && FlowOf(f.skb) == key then Carried(f.skb) else ""
  {
    hide FlowOf, Carried, IsTcp, DestPort;
    assert (fs + [f])[..|fs + [f]| - 1] == fs;
  }

  lemma NothingDecoded()
    ensures DecodeAll([]) == []
  {
  }

  lemma NothingCarried(fs: seq<Frame>, f: Frame, target: U16, key: StreamKey)
    requires !Recorded(f, target)
    ensures SentOn(key, fs + [f], target) == SentOn(key, fs, target)
  {
    hide FlowOf, Network16, IsTcp, SentOn;
    SentSnoc(key, fs, f, target);
    assert SentOn(key, fs, target) + "" == SentOn(key, fs, target);
  }

  // ---------------------------------------------------------------- from frames to requests

  /** For any frames in order on any number of connections, however the messages were cut into
      segments: what the tracker hands over for a connection is the parse of all the bytes TCP
      carried on it, with the sender's address as it stood on the wire. */
  lemma FramesToRequests(fs: seq<Frame>, target: U16, ops: seq<Op>, key: StreamKey)
    requires AllClean(fs, target)
    requires Feeds(ops, DecodeAll(Records(fs, target))) && !Run(ops).dead
    ensures var d := SentOn(key, fs, target);
            && OutputFor(key, Run(ops).out) == Stamp(ParseAll(d).reqs, IpStr(key.srcIP))
            && BufferOf(Run(ops).table, key) == Unparsed(d)
    ensures forall i :: 0 <= i < |fs| && Matches(fs[i].skb, target) && FlowOf(fs[i].skb) == key ==>
              IpStr(key.srcIP) == Dotted(SourceAddress(fs[i].skb))
  {
    hide ParseAll, IpStr, Run, DecodeAll, Records, SentOn, Stamp, OutputFor, BufferOf;
    FramesArrive(fs, target, ops, key);
    SegmentationIndependence(ops, key);
    forall i | 0 <= i < |fs| && Matches(fs[i].skb, target) && FlowOf(fs[i].skb) == key
      ensures IpStr(key.srcIP) == Dotted(SourceAddress(fs[i].skb))
    {
      SenderPrinted(fs[i].skb, key);
    }
  }

  lemma SenderPrinted(skb: Skb, key: StreamKey)
    requires IsTcp(skb) && FlowOf(skb) == key
    ensures IpStr(key.srcIP) == Dotted(SourceAddress(skb))
  {
    IpStrWireOrder(SourceAddress(skb));
  }

  /** In particular, messages a client pipelined are handed over exactly. */
  lemma MessagesToRequests(fs: seq<Frame>, target: U16, ops: seq<Op>, key: StreamKey, ms: seq<Message>)
    requires AllClean(fs, target)
    requires Feeds(ops, DecodeAll(Records(fs, target))) && !Run(ops).dead
    requires AllWellFormed(ms) && SentOn(key, fs, target) == RenderAll(ms)
    ensures OutputFor(key, Run(ops).out) == Stamp(RequestsOf(ms), IpStr(key.srcIP))
    ensures key !in Run(ops).table
  {
    hide Run, DecodeAll, Records, SentOn, Clean, RequestsOf, IpStr, RenderAll, Stamp;
    FramesArrive(fs, target, ops, key);
    PipelinedDelivery(ops, key, ms);
  }

  /** The process survives if no connection carries bytes that make the parser panic. */
  lemma FramesSurvive(fs: seq<Frame>, target: U16, ops: seq<Op>)
    requires AllClean(fs, target)
    requires Feeds(ops, DecodeAll(Records(fs, target)))
    ensures Run(ops).dead <==> exists key :: ParseAll(SentOn(key, fs, target)).stop.Fault?
  {
    hide ParseAll, Run, DecodeAll, Records, SentOn, Clean, Received;
    FramesArrive(fs, target, ops, StreamKey(0, 0, 0, 0));
    DeathIndependence(ops);
    if Run(ops).dead {
      var key :| ParseAll(Received(key, ops)).stop.Fault?;
      FramesArrive(fs, target, ops, key);
    } else {
      forall key
        ensures !ParseAll(SentOn(key, fs, target)).stop.Fault?
      {
        FramesArrive(fs, target, ops, key);
        assert !ParseAll(Received(key, ops)).stop.Fault?;
      }
    }
  }

  // ---------------------------------------------------------------- hook and reader in any order

  /** A frame comes in, or the reader takes the oldest record and hands it to the tracker. */
  datatype Turn = Ingest(f: Frame) | Deliver(now: int)

  /** The ring, the drops so far, the records read so far, and what the tracker was made to do. */
  datatype Link = Link(ring: seq<seq<Byte>>, drops: nat, read: seq<seq<Byte>>, log: seq<Op>)

  function Operations(events: seq<PktEvent>, now: int): seq<Op> {
    seq(|events|, i requires 0 <= i < |events| => Packet(events[i], now))
  }

  function Take(l: Link, turn: Turn, target: U16, capacity: nat): Link {
    match turn
    case Ingest(f) =>
      if !Recorded(f, target) then l
      else if |l.ring| < capacity then l.(ring := l.ring + Trace(f, target))
      else l.(drops := l.drops + 1)
    case Deliver(now) =>
      if l.ring == [] then l
      else Link(l.ring[1..], l.drops, l.read + [l.ring[0]], l.log + Operations(DecodeAll(l.ring[..1]), now))
  }

  function LinkOf(turns: seq<Turn>, target: U16, capacity: nat): Link {
    if turns == [] then Link([], 0, [], [])
    else Take(LinkOf(turns[..|turns| - 1], target, capacity), turns[|turns| - 1], target, capacity)
  }

  function FramesIn(turns: seq<Turn>): seq<Frame> {
    if turns == [] then []
    else FramesIn(turns[..|turns| - 1]) + if turns[|turns| - 1].Ingest? then [turns[|turns| - 1].f] else []
  }

  /** As long as nothing is dropped, what was read and what is in the ring are the records of all
      frames, in order, and the tracker has been given the events of those read. */
  lemma {:induction false} RingKeepsOrder(turns: seq<Turn>, target: U16, capacity: nat)
    ensures var l := LinkOf(turns, target, capacity);
            && Feeds(l.log, DecodeAll(l.read))
            && (l.drops == 0 ==> l.read + l.ring == Records(FramesIn(turns), target))
    decreases |turns|
  {
    hide DecodeAll, Records, Take;
    if turns == [] {
      NothingDecoded();
      NoRecords(target);
    } else {
      RingKeepsOrder(turns[..|turns| - 1], target, capacity);
      TakeKeepsOrder(LinkOf(turns[..|turns| - 1], target, capacity), FramesIn(turns[..|turns| - 1]),
                     turns[|turns| - 1], target, capacity);
    }
  }

  lemma TakeKeepsOrder(l: Link, fs: seq<Frame>, turn: Turn, target: U16, capacity: nat)
    requires Feeds(l.log, DecodeAll(l.read))
    requires l.drops == 0 ==> l.read + l.ring == Records(fs, target)
    ensures var l' := Take(l, turn, target, capacity);
            && Feeds(l'.log, DecodeAll(l'.read))
            && (l'.drops == 0 ==> l'.read + l'.ring == Records(fs + if turn.Ingest? then [turn.f] else [], target))
  {
    hide DecodeAll, Records, Record, Matches, HasPayload;
    match turn
    case Ingest(f) =>
      RecordsSnoc(fs, f, target);
      assert l.read + l.ring + Trace(f, target) == l.read + (l.ring + Trace(f, target));
      assert l.read + l.ring + [] == l.read + l.ring;
    case Deliver(now) =>
      assert fs + [] == fs;
      if l.ring != [] {
        DecodeConcat(l.read, l.ring[..1]);
        assert l.ring[..1] == [l.ring[0]];
        assert l.read + [l.ring[0]] + l.ring[1..] == l.read + l.ring;
      }
  }

  lemma RecordsSnoc(fs: seq<Frame>, f: Frame, target: U16)
    ensures Records(fs + [f], target) == Records(fs, target) + Trace(f, target)
  {
    hide Trace;
    assert (fs + [f])[..|fs + [f]| - 1] == fs;
  }

  /** The guarantee for a hook and a reader at work side by side: if nothing was dropped, then once the
      ring is empty everything the clean frames carried has come out, parsed; and a panic means that
      some connection carries bytes that make the parser panic. */
  lemma TurnsToRequests(turns: seq<Turn>, target: U16, capacity: nat)
    requires AllClean(FramesIn(turns), target) && LinkOf(turns, target, capacity).drops == 0
    ensures var s, fs := Run(LinkOf(turns, target, capacity).log), FramesIn(turns);
            s.dead ==> exists key :: ParseAll(SentOn(key, fs, target)).stop.Fault?
    ensures var l, fs := LinkOf(turns, target, capacity), FramesIn(turns);
            l.ring == [] && !Run(l.log).dead ==>
              forall key ::
                && !ParseAll(SentOn(key, fs, target)).stop.Fault?
                && OutputFor(key, Run(l.log).out) == Stamp(ParseAll(SentOn(key, fs, target)).reqs, IpStr(key.srcIP))
                && BufferOf(Run(l.log).table, key) == Unparsed(SentOn(key, fs, target))
  {
    hide ParseAll, Run, DecodeAll, Records, SentOn, Clean, LinkOf, FramesIn, IpStr, OutputFor, BufferOf;
    RingKeepsOrder(turns, target, capacity);
    var l, fs := LinkOf(turns, target, capacity), FramesIn(turns);
    var all := l.log + Operations(DecodeAll(l.ring), 0);
    DecodeConcat(l.read, l.ring);
    assert Feeds(all, DecodeAll(Records(fs, target)));
    FramesSurvive(fs, target, all);
    DeathLasts(l.log, all);
    if l.ring == [] && !Run(l.log).dead {
      NothingDecoded();
      assert all == l.log;
      forall key
        ensures !ParseAll(SentOn(key, fs, target)).stop.Fault?
        ensures OutputFor(key, Run(l.log).out) == Stamp(ParseAll(SentOn(key, fs, target)).reqs, IpStr(key.srcIP))
        ensures BufferOf(Run(l.log).table, key) == Unparsed(SentOn(key, fs, target))
      {
        FramesToRequests(fs, target, l.log, key);
      }
    }
  }

  lemma DecodeSnoc(records: seq<seq<Byte>>, r: seq<Byte>)
    ensures DecodeAll(records + [r]) == DecodeAll(records) + Events(Decode(r))
  {
    hide Decode, Events;
    assert (records + [r])[..|records + [r]| - 1] == records;
  }

  lemma {:induction false} DecodeConcat(a: seq<seq<Byte>>, b: seq<seq<Byte>>)
    ensures DecodeAll(a + b) == DecodeAll(a) + DecodeAll(b)
    decreases |b|
  {
    hide DecodeAll, Decode, Events;
    if b == [] {
      NothingDecoded();
      assert a + b == a && DecodeAll(a) + [] == DecodeAll(a);
    } else {
      var most, r := b[..|b| - 1], b[|b| - 1];
      DecodeConcat(a, most);
      DecodeSnoc(a + most, r);
      DecodeSnoc(most, r);
      assert a + b == a + most + [r] && b == most + [r];
    }
  }

  lemma DeathLasts(a: seq<Op>, b: seq<Op>)
    requires a <= b
    ensures Run(a).dead ==> Run(b).dead
  {
    assert b[..|a|] == a;
    if Run(a).dead { DeadStays(b, |a|); }
  }

  lemma LinkNext(turns: seq<Turn>, i: nat, target: U16, capacity: nat)
    requires i < |turns|
    ensures LinkOf(turns[..i + 1], target, capacity) ==
            Take(LinkOf(turns[..i], target, capacity), turns[i], target, capacity)
  {
    hide Take;
    assert turns[..i + 1][..i] == turns[..i];
  }

  /** Every buffer that comes up on the way can be held in a slice. */
  predicate AllFit(turns: seq<Turn>, target: U16, capacity: nat) { Fits(LinkOf(turns, target, capacity).log) }

  /** Hook, ring, loader and tracker at work, frames and reads in any order, until the process dies or
      all turns are done. */
  method TakeTurns(hook: Hook, t: TCPTracker, turns: seq<Turn>)
    returns (out: seq<Emission>, dead: bool, taken: nat)
    requires hook.ring == [] && t.Valid() && t.Contents() == map[]
    requires AllFit(turns, hook.target, hook.capacity)
    modifies hook, t, t.streams.Values, t.stats
    ensures t.Valid() && taken <= |turns| && (!dead ==> taken == |turns|)
    ensures var l := LinkOf(turns[..taken], hook.target, hook.capacity);
            && hook.ring == l.ring && hook.drops == old(hook.drops) + l.drops
            && State(t.Contents(), out, dead) == Run(l.log)
  {
    hide Run, LinkOf, Fits, Take;
    out, dead, taken := [], false, 0;
    NoTurns(turns, hook.target, hook.capacity);
    RunNothing();
    while taken < |turns| && !dead
      invariant 0 <= taken <= |turns|
      invariant t.Valid() && fresh(t.streams.Values - old(t.streams.Values))
      invariant var l := LinkOf(turns[..taken], hook.target, hook.capacity);
                && hook.ring == l.ring && hook.drops == old(hook.drops) + l.drops
                && State(t.Contents(), out, dead) == Run(l.log)
      decreases |turns| - taken
    {
      LinkNext(turns, taken, hook.target, hook.capacity);
      FitsSoFar(turns, taken, hook.target, hook.capacity);
      out, dead := TakeTurn(hook, t, turns[taken], out, LinkOf(turns[..taken], hook.target, hook.capacity));
      taken := taken + 1;
    }
  }

  /** One turn, at the state `l` of the link. */
  method TakeTurn(hook: Hook, t: TCPTracker, turn: Turn, out: seq<Emission>, ghost l: Link)
    returns (newOut: seq<Emission>, dead: bool)
    requires t.Valid() && State(t.Contents(), out, false) == Run(l.log) && hook.ring == l.ring
    requires Fits(Take(l, turn, hook.target, hook.capacity).log)
    modifies hook, t, t.streams.Values, t.stats
    ensures t.Valid() && fresh(t.streams.Values - old(t.streams.Values))
    ensures var l' := Take(l, turn, hook.target, hook.capacity);
            && hook.ring == l'.ring && hook.drops == old(hook.drops) + l'.drops - l.drops
            && State(t.Contents(), newOut, dead) == Run(l'.log)
  {
    hide Record, Run, Fits, DecodeAll, Recorded, Operations;
    newOut, dead := out, false;
    match turn {
      case Ingest(f) =>
        Receive(hook, f);
      case Deliver(now) =>
        if hook.ring != [] {
          var events := ReadEvents(hook.ring[..1]);
          hook.ring := hook.ring[1..];
          newOut, dead := FeedEvents(t, events, now, out, l.log);
        }
    }
  }

  /** What that amounts to: with clean frames and nothing dropped, the requests handed over, once the
      ring is empty, are for each connection the parse of all the bytes TCP carried on it. */
  method MirrorFrames(hook: Hook, t: TCPTracker, turns: seq<Turn>)
    returns (out: seq<Emission>, dead: bool, taken: nat)
    requires hook.ring == [] && t.Valid() && t.Contents() == map[]
    requires AllFit(turns, hook.target, hook.capacity)
    modifies hook, t, t.streams.Values, t.stats
    ensures t.Valid() && taken <= |turns| && (!dead ==> taken == |turns|)
    ensures var fs := FramesIn(turns[..taken]);
            AllClean(fs, hook.target) && hook.drops == old(hook.drops) ==>
              && (dead ==> exists key :: ParseAll(SentOn(key, fs, hook.target)).stop.Fault?)
              && (!dead && hook.ring == [] ==> forall key ::
                    && !ParseAll(SentOn(key, fs, hook.target)).stop.Fault?
                    && OutputFor(key, out) == Stamp(ParseAll(SentOn(key, fs, hook.target)).reqs, IpStr(key.srcIP))
                    && BufferOf(t.Contents(), key) == Unparsed(SentOn(key, fs, hook.target)))
  {
    hide Run, LinkOf, AllFit, FramesIn, AllClean, SentOn, ParseAll, IpStr, OutputFor, BufferOf;
    out, dead, taken := TakeTurns(hook, t, turns);
    if AllClean(FramesIn(turns[..taken]), hook.target) && hook.drops == old(hook.drops) {
      TurnsToRequests(turns[..taken], hook.target, hook.capacity);
    }
  }

  lemma NoTurns(turns: seq<Turn>, target: U16, capacity: nat)
    ensures LinkOf(turns[..0], target, capacity) == Link([], 0, [], [])
  {
  }

  /** The callback on some events, one after the other, on top of the run `before`. */
  method FeedEvents(t: TCPTracker, events: seq<PktEvent>, now: int, out: seq<Emission>, ghost before: seq<Op>)
    returns (newOut: seq<Emission>, dead: bool)
    requires t.Valid() && State(t.Contents(), out, false) == Run(before)
    requires Fits(before + Operations(events, now))
    modifies t, t.streams.Values, t.stats
    ensures t.Valid() && fresh(t.streams.Values - old(t.streams.Values))
    ensures State(t.Contents(), newOut, dead) == Run(before + Operations(events, now))
  {
    hide Run, Step, Effect, BufferOf;
    newOut, dead := out, false;
    ghost var ops := before + Operations(events, now);
    assert ops[..|before|] == before;
    var i := 0;
    while i < |events| && !dead
      invariant 0 <= i <= |events|
      invariant t.Valid() && fresh(t.streams.Values - old(t.streams.Values))
      invariant State(t.Contents(), newOut, dead) == Run(ops[..|before| + i])
      decreases |events| - i
    {
      RunNext(ops, |before| + i);
      newOut, dead := Apply(t, Packet(events[i], now), newOut);
      i := i + 1;
    }
    if dead { DeadStays(ops, |before| + i); }
    assert ops[..|ops|] == ops;
  }

  lemma {:induction false} LogGrows(turns: seq<Turn>, i: nat, target: U16, capacity: nat)
    requires i <= |turns|
    ensures LinkOf(turns[..i], target, capacity).log <= LinkOf(turns, target, capacity).log
    decreases |turns| - i
  {
    hide DecodeAll, Recorded;
    if i < |turns| {
      LinkNext(turns, i, target, capacity);
      LogGrows(turns, i + 1, target, capacity);
    } else {
      assert turns[..i] == turns;
    }
  }

  lemma FitsSoFar(turns: seq<Turn>, i: nat, target: U16, capacity: nat)
    requires i < |turns| && AllFit(turns, target, capacity)
    ensures Fits(LinkOf(turns[..i + 1], target, capacity).log)
  {
    hide FitsNext, LinkOf, Run;
    LogGrows(turns, i + 1, target, capacity);
    var part, all := LinkOf(turns[..i + 1], target, capacity).log, LinkOf(turns, target, capacity).log;
    forall k | 0 <= k < |part|
      ensures FitsNext(Run(part[..k]).table, part[k])
    {
      assert part[..k] == all[..k];
    }
  }
}
