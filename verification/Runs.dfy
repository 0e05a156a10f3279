/** Whole runs of the tracker with undivided operations: any number of packets on any number of
    connections, with sweeps of the reaper between them. */
module Runs {
  import opened HttpParser
  import opened Rfc9112
  import opened Wire
  import opened Loader
  import opened Tracker

  datatype Op =
    | Packet(ev: PktEvent, now: int)
    | Reap(cutoff: int)

  datatype Emission = Emission(key: StreamKey, req: Request)

  /** `out` is everything handed to the mirror so far; `dead` says that a panic ended the process. */
  datatype State = State(table: Table, out: seq<Emission>, dead: bool)

  const INIT := State(map[], [], false)

  function Tag(key: StreamKey, reqs: seq<Request>): (r: seq<Emission>)
    ensures |r| == |reqs|
    ensures forall i :: 0 <= i < |r| ==> r[i] == Emission(key, reqs[i])
  {
    seq(|reqs|, i requires 0 <= i < |reqs| => Emission(key, reqs[i]))
  }

  function Step(s: State, op: Op): State {
    if s.dead then s
    else
      match op
      case Packet(ev, now) =>
        var f := Feed(s.table, ev, now);
        State(f.table, s.out + Tag(KeyOf(ev), f.reqs), f.panic)
      case Reap(cutoff) =>
        s.(table := Sweep(s.table, cutoff))
  }

  function Run(ops: seq<Op>): State {
    if ops == [] then INIT else Step(Run(ops[..|ops| - 1]), ops[|ops| - 1])
  }

  /** The requests handed over for one connection. */
  function OutputFor(key: StreamKey, out: seq<Emission>): seq<Request> {
    if out == [] then []
    else
      var e := out[|out| - 1];
      OutputFor(key, out[..|out| - 1]) + if e.key == key then [e.req] else []
  }

  lemma OutputForSnoc(key: StreamKey, out: seq<Emission>, e: Emission)
    ensures OutputFor(key, out + [e]) == OutputFor(key, out) + if e.key == key then [e.req] else []
  {
    assert (out + [e])[..|out + [e]| - 1] == out;
  }

  lemma {:induction false} OutputForTagged(key: StreamKey, out: seq<Emission>, k: StreamKey, reqs: seq<Request>)
    ensures OutputFor(key, out + Tag(k, reqs)) == OutputFor(key, out) + if k == key then reqs else []
    decreases |reqs|
  {
    hide OutputFor;
    if reqs == [] {
      assert out + Tag(k, reqs) == out;
    } else {
      var most, last := reqs[..|reqs| - 1], reqs[|reqs| - 1];
      OutputForTagged(key, out, k, most);
      OutputForSnoc(key, out + Tag(k, most), Emission(k, last));
      assert out + Tag(k, reqs) == out + Tag(k, most) + [Emission(k, last)];
      assert reqs == most + [last];
    }
  }

  // ---------------------------------------------------------------- the reference: epochs

  /** What the packets of one connection amount to, without any parsing: the byte strings between
      the silences that a sweep cut off, the byte string since then, and the time of its last
      segment. */
  datatype History = History(closed: seq<string>, open: string, last: int)

  function Observe(h: History, key: StreamKey, op: Op): History {
    match op
    case Packet(ev, now) =>
      if Accepted(ev) && KeyOf(ev) == key then h.(open := h.open + PayloadOf(ev), last := now) else h
    case Reap(cutoff) =>
      if h.open != "" && h.last < cutoff then History(h.closed + [h.open], "", h.last) else h
  }

  function HistoryOf(key: StreamKey, ops: seq<Op>): History {
    if ops == [] then History([], "", 0)
    else Observe(HistoryOf(key, ops[..|ops| - 1]), key, ops[|ops| - 1])
  }

  /** The batch parses of the closed epochs, one after the other. */
  function ParseEpochs(epochs: seq<string>): seq<Request> {
    if epochs == [] then []
    else ParseEpochs(epochs[..|epochs| - 1]) + ParseAll(epochs[|epochs| - 1]).reqs
  }

  /** The requests a history stands for. */
  function Meaning(key: StreamKey, h: History): seq<Request> {
    Stamp(ParseEpochs(h.closed) + ParseAll(h.open).reqs, IpStr(key.srcIP))
  }

  /** What the batch parse leaves over. */
  function Unparsed(d: string): string { d[ParseAll(d).consumed..] }

  predicate Faulty(h: History) {
    ParseAll(h.open).stop.Fault? || exists i :: 0 <= i < |h.closed| && ParseAll(h.closed[i]).stop.Fault?
  }

  /** A live state agrees with the history of a connection: output, buffer and presence. */
  ghost predicate Agrees(s: State, key: StreamKey, h: History) {
    && OutputFor(key, s.out) == Meaning(key, h)
    && (key in s.table <==> Unparsed(h.open) != "")
    && (key in s.table ==> s.table[key] == Buffered(Unparsed(h.open), h.last))
    && !Faulty(h)
  }

  lemma NothingConsumed(d: string)
    ensures ParseAll(d).reqs == [] ==> ParseAll(d).consumed == 0
  {
    hide ParseOne;
  }

  lemma StampConcat(a: seq<Request>, b: seq<Request>, ip: string)
    ensures Stamp(a + b, ip) == Stamp(a, ip) + Stamp(b, ip)
  {
  }

  /** Feeding a segment on top of what earlier segments left is parsing the whole epoch. */
  lemma UnparsedAppend(open: string, data: string)
    ensures var b := ParseAll(Unparsed(open) + data);
            && ParseAll(open + data).reqs == ParseAll(open).reqs + b.reqs
            && ParseAll(open + data).stop == b.stop
            && Unparsed(open + data) == (Unparsed(open) + data)[b.consumed..]
  {
    hide ParseAll;
    ParseAllAppend(open, data);
    var x := ParseAll(open);
    var y := ParseAll(Unparsed(open) + data);
    assert (open + data)[x.consumed..] == Unparsed(open) + data;
    assert (open + data)[x.consumed + y.consumed..] == (open + data)[x.consumed..][y.consumed..];
  }

  lemma SegmentStep(s: State, key: StreamKey, h: History, ev: PktEvent, now: int)
    requires !s.dead && Agrees(s, key, h) && Accepted(ev) && KeyOf(ev) == key
    ensures var t := Step(s, Packet(ev, now));
            if ParseAll(h.open + PayloadOf(ev)).stop.Fault? then t.dead
            else !t.dead && Agrees(t, key, Observe(h, key, Packet(ev, now)))
  {
    hide ParseAll, IpStr, ParseEpochs, Accepted, PayloadOf;
    var data := PayloadOf(ev);
    var ip := IpStr(key.srcIP);
    UnparsedAppend(h.open, data);
    var snapshot := Unparsed(h.open) + data;
    assert BufferOf(s.table, key) == Unparsed(h.open);
    var b := ParseAll(snapshot);
    NothingConsumed(snapshot);
    AcceptedNotEmpty(ev);
    if !b.stop.Fault? {
      OutputForTagged(key, s.out, key, Stamp(b.reqs, ip));
      var before := ParseEpochs(h.closed) + ParseAll(h.open).reqs;
      StampConcat(before, b.reqs, ip);
      assert before + b.reqs == ParseEpochs(h.closed) + ParseAll(h.open + data).reqs;
    }
  }

  lemma AcceptedNotEmpty(ev: PktEvent)
    requires Accepted(ev)
    ensures PayloadOf(ev) != ""
  {
  }

  lemma OtherStep(s: State, key: StreamKey, h: History, op: Op)
    requires !s.dead && Agrees(s, key, h) && op.Packet?
    requires !(Accepted(op.ev) && KeyOf(op.ev) == key)
    ensures !Step(s, op).dead ==> Agrees(Step(s, op), key, h) && Observe(h, key, op) == h
  {
    hide ParseAll, IpStr, Accepted, Meaning, Faulty, Unparsed;
    OutputForTagged(key, s.out, KeyOf(op.ev), Feed(s.table, op.ev, op.now).reqs);
  }

  lemma ReapStep(s: State, key: StreamKey, h: History, cutoff: int)
    requires !s.dead && Agrees(s, key, h)
    ensures Agrees(Step(s, Reap(cutoff)), key, Observe(h, key, Reap(cutoff)))
  {
    hide ParseAll, Agrees, Sweep;
    if h.open != "" && h.last < cutoff {
      EpochCloses(s, key, h, cutoff);
    } else {
      EpochStays(s, key, h, cutoff);
    }
  }

  /** A sweep that finds the connection silent for too long, whether or not a stream is left of it. */
  lemma EpochCloses(s: State, key: StreamKey, h: History, cutoff: int)
    requires !s.dead && Agrees(s, key, h) && h.open != "" && h.last < cutoff
    ensures Agrees(s.(table := Sweep(s.table, cutoff)), key, History(h.closed + [h.open], "", h.last))
  {
    hide ParseAll, Meaning, Faulty, OutputFor;
    var h' := History(h.closed + [h.open], "", h.last);
    ParseNothing();
    ClosedMeaning(key, h);
    ClosedFaults(h);
  }

  lemma EpochStays(s: State, key: StreamKey, h: History, cutoff: int)
    requires !s.dead && Agrees(s, key, h) && !(h.open != "" && h.last < cutoff)
    ensures Agrees(s.(table := Sweep(s.table, cutoff)), key, h)
  {
    hide ParseAll, Meaning, Faulty, OutputFor;
    ParseNothing();
  }

  lemma ClosedMeaning(key: StreamKey, h: History)
    ensures Meaning(key, History(h.closed + [h.open], "", h.last)) == Meaning(key, h)
  {
    hide ParseAll, Stamp, IpStr;
    var closed := h.closed + [h.open];
    ParseNothing();
    assert closed[..|closed| - 1] == h.closed;
    assert ParseEpochs(closed) + [] == ParseEpochs(closed);
  }

  lemma ClosedFaults(h: History)
    requires !Faulty(h)
    ensures !Faulty(History(h.closed + [h.open], "", h.last))
  {
    hide ParseAll;
    ParseNothing();
  }

  lemma ParseNothing()
    ensures ParseAll("") == Batch([], 0, Incomplete)
  {
    NothingIncomplete();
  }

  /** The state of a live run, connection by connection, is what the histories say. */
  lemma {:induction false} RunAgrees(ops: seq<Op>, key: StreamKey)
    requires !Run(ops).dead
    ensures Agrees(Run(ops), key, HistoryOf(key, ops))
    decreases |ops|
  {
    hide Agrees, Step, Observe;
    if ops == [] {
      InitAgrees(key);
    } else {
      var before, op := ops[..|ops| - 1], ops[|ops| - 1];
      var h := HistoryOf(key, before);
      StillAlive(Run(before), op);
      RunAgrees(before, key);
      match op
      case Packet(ev, now) =>
        if Accepted(ev) && KeyOf(ev) == key {
          SegmentStep(Run(before), key, h, ev, now);
        } else {
          OtherStep(Run(before), key, h, op);
        }
      case Reap(cutoff) =>
        ReapStep(Run(before), key, h, cutoff);
    }
  }

  lemma InitAgrees(key: StreamKey)
    ensures Agrees(INIT, key, History([], "", 0))
  {
    ParseNothing();
  }

  lemma StillAlive(s: State, op: Op)
    ensures s.dead ==> Step(s, op).dead
  {
  }

  /** The whole meaning of a live run: for each connection, the requests are those of the batch
      parses of its epochs, whatever the segments were and whatever other connections did; and what
      is stored for it is exactly the unparsed rest of the current epoch. */
  lemma RunMeaning(ops: seq<Op>, key: StreamKey)
    requires !Run(ops).dead
    ensures var h := HistoryOf(key, ops);
            && OutputFor(key, Run(ops).out) == Meaning(key, h)
            && (key in Run(ops).table <==> Unparsed(h.open) != "")
            && (key in Run(ops).table ==> Run(ops).table[key] == Buffered(Unparsed(h.open), h.last))
  {
    RunAgrees(ops, key);
  }

  // ---------------------------------------------------------------- when the process dies

  lemma FaultyPersists(h: History, key: StreamKey, op: Op)
    requires Faulty(h)
    ensures Faulty(Observe(h, key, op))
  {
    hide ParseAll, Accepted;
    var h' := Observe(h, key, op);
    if ParseAll(h.open).stop.Fault? {
      match op
      case Packet(ev, now) => ParseAllSticks(h.open, PayloadOf(ev));
      case Reap(cutoff) => assert h' != h ==> h'.closed[|h.closed|] == h.open;
    } else {
      var i :| 0 <= i < |h.closed| && ParseAll(h.closed[i]).stop.Fault?;
      assert h'.closed[i] == h.closed[i];
    }
  }

  /** A run dies exactly when some connection has an epoch whose batch parse panics. */
  lemma {:induction false} DeadIff(ops: seq<Op>)
    ensures Run(ops).dead <==> exists key :: Faulty(HistoryOf(key, ops))
    decreases |ops|
  {
    hide Faulty, Step, Observe;
    if !Run(ops).dead {
      forall key
        ensures !Faulty(HistoryOf(key, ops))
      {
        RunAgrees(ops, key);
      }
    } else {
      var key := DeathCause(ops);
    }
  }

  lemma {:induction false} DeathCause(ops: seq<Op>) returns (key: StreamKey)
    requires Run(ops).dead
    ensures Faulty(HistoryOf(key, ops))
    decreases |ops|
  {
    hide Faulty, Observe;
    var before, op := ops[..|ops| - 1], ops[|ops| - 1];
    if Run(before).dead {
      key := DeathCause(before);
      FaultyPersists(HistoryOf(key, before), key, op);
    } else {
      key := KeyOf(op.ev);
      RunAgrees(before, key);
      DyingStep(Run(before), key, HistoryOf(key, before), op);
    }
  }

  lemma DyingStep(s: State, key: StreamKey, h: History, op: Op)
    requires !s.dead && Step(s, op).dead && op.Packet? && key == KeyOf(op.ev) && Agrees(s, key, h)
    ensures Faulty(Observe(h, key, op))
  {
    hide ParseAll, Accepted, Agrees;
    if !Accepted(op.ev) {
      OtherStep(s, key, h, op);
    } else {
      SegmentStep(s, key, h, op.ev, op.now);
    }
  }
}
