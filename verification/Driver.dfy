/** The tracker object at work on a whole run, and what its counters count. */
module Driver {
  import opened ByteStrings
  import opened HttpParser
  import opened Wire
  import opened Loader
  import opened Tracker
  import opened Runs
  import opened Delivery

  // ---------------------------------------------------------------- the counters of a run

  datatype Totals = Totals(received: int, dropped: int, reaped: int, errors: int, assembled: int)

  const ZERO := Totals(0, 0, 0, 0, 0)

  function Plus(a: Totals, b: Totals): Totals {
    Totals(a.received + b.received, a.dropped + b.dropped, a.reaped + b.reaped, a.errors + b.errors,
           a.assembled + b.assembled)
  }

  ghost function StatsOf(stats: AgentStats): Totals
    reads stats
  {
    Totals(stats.packetsReceived, stats.packetsDropped, stats.streamsReaped, stats.parseErrors, stats.reqsAssembled)
  }

  function One(b: bool): nat { if b then 1 else 0 }

  predicate Refused(ev: PktEvent) { PayloadOf(ev) != "" && !Accepted(ev) }

  /** What one operation adds to the counters, read off the state it starts from. */
  function Effect(s: State, op: Op): Totals {
    match op
    case Packet(ev, now) =>
      var b := ParseAll(BufferOf(s.table, KeyOf(ev)) + PayloadOf(ev));
      Totals(1, One(Refused(ev)), 0, One(Accepted(ev) && b.stop.Malformed?), |Feed(s.table, ev, now).reqs|)
    case Reap(cutoff) =>
      Totals(0, 0, |Stale(s.table, cutoff)|, 0, 0)
  }

  /** The bytes a connection has sent since its stream was last reaped. */
  function Epoch(key: StreamKey, ops: seq<Op>): string { HistoryOf(key, ops).open }

  /** What the last operation of a run adds: a parse error is counted for every accepted packet whose
      connection's bytes, all together, stop the batch parse with a malformed head. */
  function Share(ops: seq<Op>): Totals
    requires ops != []
  {
    var before, op := ops[..|ops| - 1], ops[|ops| - 1];
    match op
    case Packet(ev, _) =>
      Totals(1, One(Refused(ev)), 0, One(Accepted(ev) && ParseAll(Epoch(KeyOf(ev), ops)).stop.Malformed?),
             |Run(ops).out| - |Run(before).out|)
    case Reap(cutoff) =>
      Totals(0, 0, |Stale(Run(before).table, cutoff)|, 0, 0)
  }

  /** The counters at the end of a run that starts from zero. */
  function TotalsOf(ops: seq<Op>): Totals {
    if ops == [] then ZERO
    else if Run(ops[..|ops| - 1]).dead then TotalsOf(ops[..|ops| - 1])
    else Plus(TotalsOf(ops[..|ops| - 1]), Share(ops))
  }

  lemma ErrorSeen(before: seq<Op>, ev: PktEvent, now: int)
    requires !Run(before).dead && Accepted(ev)
    ensures var key := KeyOf(ev);
            ParseAll(BufferOf(Run(before).table, key) + PayloadOf(ev)).stop ==
            ParseAll(Epoch(key, before + [Packet(ev, now)])).stop
  {
    hide ParseAll, Accepted, Run, Meaning, OutputFor, Unparsed;
    var key := KeyOf(ev);
    RunMeaning(before, key);
    var h := HistoryOf(key, before);
    HistorySnoc(key, before, Packet(ev, now));
    UnparsedAppend(h.open, PayloadOf(ev));
  }

  lemma HistorySnoc(key: StreamKey, ops: seq<Op>, op: Op)
    ensures HistoryOf(key, ops + [op]) == Observe(HistoryOf(key, ops), key, op)
  {
    assert (ops + [op])[..|ops + [op]| - 1] == ops;
  }

  lemma EffectIsShare(ops: seq<Op>)
    requires ops != [] && !Run(ops[..|ops| - 1]).dead
    ensures Effect(Run(ops[..|ops| - 1]), ops[|ops| - 1]) == Share(ops)
  {
    hide ParseAll, Accepted, Feed, Epoch, BufferOf, PayloadOf;
    var before, op := ops[..|ops| - 1], ops[|ops| - 1];
    assert ops == before + [op];
    if op.Packet? && Accepted(op.ev) { ErrorSeen(before, op.ev, op.now); }
  }

  lemma {:induction false} AssembledIsOutput(ops: seq<Op>)
    ensures TotalsOf(ops).assembled == |Run(ops).out|
    decreases |ops|
  {
    hide Feed, Refused, Accepted, ParseAll, Epoch, Sweep, Stale;
    if ops != [] {
      AssembledIsOutput(ops[..|ops| - 1]);
    }
  }

  /** Once the bytes of a connection have a malformed head in front, every further segment is counted
      as another parse error and assembles nothing. */
  lemma {:induction false} ErrorsGoOn(ops: seq<Op>, more: seq<Op>, key: StreamKey)
    requires !Run(ops).dead && ParseAll(Epoch(key, ops)).stop.Malformed?
    requires forall i :: 0 <= i < |more| ==> more[i].Packet? && Accepted(more[i].ev) && KeyOf(more[i].ev) == key
    ensures !Run(ops + more).dead && ParseAll(Epoch(key, ops + more)).stop.Malformed?
    ensures Run(ops + more).out == Run(ops).out
    ensures TotalsOf(ops + more).errors == TotalsOf(ops).errors + |more|
    decreases |more|
  {
    hide ParseAll, Accepted, Run, TotalsOf, Epoch;
    if more == [] {
      assert ops + more == ops;
    } else {
      var most, op := more[..|more| - 1], more[|more| - 1];
      ErrorsGoOn(ops, most, key);
      ErrorGoesOn(ops + most, op.ev, op.now);
      assert ops + more == ops + most + [op];
    }
  }

  lemma ErrorGoesOn(ops: seq<Op>, ev: PktEvent, now: int)
    requires !Run(ops).dead && Accepted(ev) && ParseAll(Epoch(KeyOf(ev), ops)).stop.Malformed?
    ensures var all := ops + [Packet(ev, now)];
            && !Run(all).dead && Run(all).out == Run(ops).out
            && ParseAll(Epoch(KeyOf(ev), all)).stop.Malformed?
            && TotalsOf(all).errors == TotalsOf(ops).errors + 1
  {
    hide ParseAll, ParseOne, Accepted, PayloadOf, Meaning, OutputFor, HistoryOf;
    var key := KeyOf(ev);
    var open := Epoch(key, ops);
    RunMeaning(ops, key);
    ParseAllStops(open);
    MalformedBlocks(Run(ops).table, ev, now);
    HistorySnoc(key, ops, Packet(ev, now));
    ParseAllSticks(open, PayloadOf(ev));
    assert (ops + [Packet(ev, now)])[..|ops + [Packet(ev, now)]| - 1] == ops;
    assert Run(ops).out + Tag(key, []) == Run(ops).out;
  }

  const BAD := "BAD\r\n\r\n"

  lemma BadIsMalformed()
    ensures ParseOne(BAD) == Malformed
  {
    hide Split;
    assert BAD[3..7] == BLANK_LINE;
    LineBeforeBlank("BAD", "");
    assert "BAD" + BLANK_LINE + "" == BAD;
    assert BAD[..3] == "BAD";
    SplitLastLine("BAD");
    IndexNone("BAD", ' ');
  }

  /** One head without a space, followed by `k` segments of any kind on its connection, is counted as
      `k + 1` malformed requests. */
  lemma OneHeadManyErrors(more: seq<Op>)
    requires forall i :: 0 <= i < |more| ==>
               more[i].Packet? && Accepted(more[i].ev) && KeyOf(more[i].ev) == KeyOf(EventOf(BAD))
    ensures Accepted(EventOf(BAD))
    ensures TotalsOf([Packet(EventOf(BAD), 0)] + more).errors == |more| + 1
    ensures Run([Packet(EventOf(BAD), 0)] + more).out == []
  {
    hide ParseAll, Accepted, KeyOf, Run, TotalsOf, Epoch;
    BadIsCounted();
    ErrorsGoOn([Packet(EventOf(BAD), 0)], more, KeyOf(EventOf(BAD)));
  }

  lemma BadIsCounted()
    ensures Accepted(EventOf(BAD))
    ensures var ops := [Packet(EventOf(BAD), 0)];
            && !Run(ops).dead && Run(ops).out == []
            && ParseAll(Epoch(KeyOf(EventOf(BAD)), ops)).stop.Malformed?
            && TotalsOf(ops).errors == 1
  {
    hide ParseAll, Feed, Accepted, KeyOf, EventOf, Observe, Run, TotalsOf, Epoch;
    var op := Packet(EventOf(BAD), 0);
    BadIsFed();
    BadEpoch();
    FirstOp(op);
  }

  lemma FirstOp(op: Op)
    ensures Run([op]) == Step(INIT, op) && TotalsOf([op]) == Share([op])
  {
    hide Step, Share;
    assert [op][..0] == [];
  }

  lemma BadEpoch()
    ensures Accepted(EventOf(BAD))
    ensures Epoch(KeyOf(EventOf(BAD)), [Packet(EventOf(BAD), 0)]) == BAD
    ensures ParseAll(BAD) == Batch([], 0, Malformed)
  {
    hide ParseOne, LooksLikeHTTP, LooksLikeContinuation, EventOf, KeyOf;
    var op := Packet(EventOf(BAD), 0);
    TextPasses(BAD);
    BadIsMalformed();
    HistorySnoc(KeyOf(op.ev), [], op);
    assert [] + [op] == [op] && "" + BAD == BAD;
  }

  lemma BadIsFed()
    ensures Feed(map[], EventOf(BAD), 0).reqs == [] && !Feed(map[], EventOf(BAD), 0).panic
  {
    hide ParseAll, LooksLikeHTTP, LooksLikeContinuation, KeyOf, IpStr, EventOf;
    BadEpoch();
    assert "" + BAD == BAD;
  }

  // ---------------------------------------------------------------- the tracker object

  /** Every buffer of the run can be held in a slice. */
  predicate Fits(ops: seq<Op>) {
    forall i :: 0 <= i < |ops| ==> FitsNext(Run(ops[..i]).table, ops[i])
  }

  predicate FitsNext(m: Table, op: Op) {
    op.Packet? && Accepted(op.ev) ==> |BufferOf(m, KeyOf(op.ev))| + |PayloadOf(op.ev)| <= MAX_INT
  }

  /** One operation on the tracker object. */
  method Apply(t: TCPTracker, op: Op, out: seq<Emission>) returns (newOut: seq<Emission>, dead: bool)
    requires t.Valid() && FitsNext(t.Contents(), op)
    modifies t, t.streams.Values, t.stats
    ensures t.Valid() && fresh(t.streams.Values - old(t.streams.Values))
    ensures State(t.Contents(), newOut, dead) == Step(State(old(t.Contents()), out, false), op)
    ensures StatsOf(t.stats) == Plus(old(StatsOf(t.stats)), Effect(State(old(t.Contents()), out, false), op))
  {
    hide Feed, Tag, Sweep, ParseAll, Accepted, BufferOf, Stale, PayloadOf, Step, Effect;
    newOut, dead := out, false;
    ghost var before := State(t.Contents(), out, false);
    StepReads(before, op);
    match op {
      case Packet(ev, now) =>
        var reqs, panic := t.FeedPacket(ev, now);
        newOut := out + Tag(KeyOf(ev), reqs);
        dead := panic;
      case Reap(cutoff) =>
        ReapedAreStale(t.Contents(), cutoff);
        t.Reap(cutoff);
    }
  }

  lemma StepReads(s: State, op: Op)
    requires !s.dead
    ensures match op
            case Packet(ev, now) =>
              var f := Feed(s.table, ev, now);
              var b := ParseAll(BufferOf(s.table, KeyOf(ev)) + PayloadOf(ev));
              && Step(s, op) == State(f.table, s.out + Tag(KeyOf(ev), f.reqs), f.panic)
              && Effect(s, op) == Totals(1, One(Refused(ev)), 0, One(Accepted(ev) && b.stop.Malformed?), |f.reqs|)
            case Reap(cutoff) =>
              && Step(s, op) == State(Sweep(s.table, cutoff), s.out, false)
              && Effect(s, op) == Totals(0, 0, |Stale(s.table, cutoff)|, 0, 0)
  {
    hide Feed, ParseAll, Accepted, BufferOf, PayloadOf, Sweep, Stale, Refused;
  }

  lemma ReapedAreStale(m: Table, cutoff: int)
    ensures m.Keys - Sweep(m, cutoff).Keys == Stale(m, cutoff)
  {
  }

  /** A tracker object that gets these packets and sweeps, and nothing else, behaves as the run: its
      streams, its output, whether it dies, and what it adds to each counter. */
  method Drive(t: TCPTracker, ops: seq<Op>) returns (out: seq<Emission>, dead: bool)
    requires t.Valid() && t.Contents() == map[] && Fits(ops)
    modifies t, t.streams.Values, t.stats
    ensures t.Valid()
    ensures State(t.Contents(), out, dead) == Run(ops)
    ensures StatsOf(t.stats) == Plus(old(StatsOf(t.stats)), TotalsOf(ops))
    ensures t.stats.reqsAssembled == old(t.stats.reqsAssembled) + |out|
  {
    hide Step, Run, BufferOf, FitsNext, Effect, TotalsOf;
    out, dead := [], false;
    var i := 0;
    RunNothing();
    assert ops[..0] == [];
    ghost var before := StatsOf(t.stats);
    while i < |ops| && !dead
      invariant 0 <= i <= |ops|
      invariant t.Valid() && fresh(t.streams.Values - old(t.streams.Values))
      invariant State(t.Contents(), out, dead) == Run(ops[..i])
      invariant StatsOf(t.stats) == Plus(before, TotalsOf(ops[..i]))
      decreases |ops| - i
    {
      RunNext(ops, i);
      TotalsNext(ops, i);
      out, dead := Apply(t, ops[i], out);
      i := i + 1;
    }
    if dead {
      DeadStays(ops, i);
    }
    assert ops[..|ops|] == ops;
    AssembledIsOutput(ops);
  }

  lemma TotalsNext(ops: seq<Op>, i: nat)
    requires i < |ops| && !Run(ops[..i]).dead
    ensures TotalsOf(ops[..i + 1]) == Plus(TotalsOf(ops[..i]), Effect(Run(ops[..i]), ops[i]))
  {
    hide Run, Effect, Share;
    assert ops[..i + 1][..i] == ops[..i];
    EffectIsShare(ops[..i + 1]);
  }

  lemma RunNothing()
    ensures Run([]) == INIT && TotalsOf([]) == ZERO
  {
  }

  lemma RunNext(ops: seq<Op>, i: nat)
    requires i < |ops|
    ensures Run(ops[..i + 1]) == Step(Run(ops[..i]), ops[i])
  {
    assert ops[..i + 1][..i] == ops[..i];
  }

  lemma {:induction false} DeadStays(ops: seq<Op>, i: nat)
    requires i <= |ops| && Run(ops[..i]).dead
    ensures Run(ops[..i]) == Run(ops) && TotalsOf(ops[..i]) == TotalsOf(ops)
    decreases |ops| - i
  {
    hide Share, Step;
    if i < |ops| {
      assert ops[..i + 1][..i] == ops[..i];
      DeadSteps(Run(ops[..i]), ops[i]);
      DeadStays(ops, i + 1);
    } else {
      assert ops[..i] == ops;
    }
  }

  lemma DeadSteps(s: State, op: Op)
    requires s.dead
    ensures Step(s, op) == s
  {
  }
}
