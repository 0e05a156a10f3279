/** What whole runs guarantee: independence from segmentation and from other connections, exact
    delivery of pipelined messages, conservation of bytes, and the state between operations. */
module Delivery {
  import opened HttpParser
  import opened Rfc9112
  import opened Wire
  import opened Loader
  import opened Tracker
  import opened Sums
  import opened Runs

  // ---------------------------------------------------------------- segmentation

  predicate NoReap(ops: seq<Op>) { forall i :: 0 <= i < |ops| ==> ops[i].Packet? }

  /** The accepted bytes of one connection, in order. */
  function Received(key: StreamKey, ops: seq<Op>): string {
    if ops == [] then ""
    else
      var op := ops[|ops| - 1];
      Received(key, ops[..|ops| - 1])
      + if op.Packet? && Accepted(op.ev) && KeyOf(op.ev) == key then PayloadOf(op.ev) else ""
  }

  lemma {:induction false} OneEpoch(ops: seq<Op>, key: StreamKey)
    requires NoReap(ops)
    ensures HistoryOf(key, ops).closed == [] && HistoryOf(key, ops).open == Received(key, ops)
    decreases |ops|
  {
    hide Accepted;
    if ops != [] {
      OneEpoch(ops[..|ops| - 1], key);
    }
  }

  /** However the bytes of a connection were cut into accepted segments, and whatever came between
      them on other connections, the requests are those of one parse of all the bytes, and the
      stored buffer is what that parse leaves over, there being no stream if nothing is left. */
  lemma SegmentationIndependence(ops: seq<Op>, key: StreamKey)
    requires NoReap(ops) && !Run(ops).dead
    ensures var d := Received(key, ops);
            && OutputFor(key, Run(ops).out) == Stamp(ParseAll(d).reqs, IpStr(key.srcIP))
            && (key in Run(ops).table <==> Unparsed(d) != "")
            && BufferOf(Run(ops).table, key) == Unparsed(d)
  {
    hide ParseAll, IpStr, Run, HistoryOf, Received, Stamp, OutputFor;
    RunMeaning(ops, key);
    OneEpoch(ops, key);
    assert [] + ParseAll(Received(key, ops)).reqs == ParseAll(Received(key, ops)).reqs;
  }

  /** Without sweeps, the process dies exactly when the bytes of some connection make the parser
      panic; again the segments do not matter. */
  lemma DeathIndependence(ops: seq<Op>)
    requires NoReap(ops)
    ensures Run(ops).dead <==> exists key :: ParseAll(Received(key, ops)).stop.Fault?
  {
    hide ParseAll, Run, HistoryOf, Received;
    DeadIff(ops);
    if Run(ops).dead {
      var key :| Faulty(HistoryOf(key, ops));
      OneEpoch(ops, key);
    } else {
      forall key
        ensures !ParseAll(Received(key, ops)).stop.Fault?
      {
        OneEpoch(ops, key);
        assert !Faulty(HistoryOf(key, ops));
      }
    }
  }

  /** Pipelined well-formed messages arrive as exactly the requests they encode, in order and once
      each, through any segmentation the filter accepts, and no stream stays behind. */
  lemma PipelinedDelivery(ops: seq<Op>, key: StreamKey, ms: seq<Message>)
    requires NoReap(ops) && !Run(ops).dead
    requires AllWellFormed(ms) && Received(key, ops) == RenderAll(ms)
    ensures OutputFor(key, Run(ops).out) == Stamp(RequestsOf(ms), IpStr(key.srcIP))
    ensures key !in Run(ops).table
  {
    hide ParseOne, ParseAll, Render, RequestOf, WellFormed, IpStr, Run;
    SegmentationIndependence(ops, key);
    NothingIncomplete();
    PipelineRoundTrip(ms, "");
    assert RenderAll(ms) + "" == RenderAll(ms);
  }

  // ---------------------------------------------------------------- other connections

  /** The operations that concern one connection: its packets and all sweeps. */
  function Only(key: StreamKey, ops: seq<Op>): seq<Op> {
    if ops == [] then []
    else
      var op := ops[|ops| - 1];
      Only(key, ops[..|ops| - 1]) + if op.Packet? && KeyOf(op.ev) != key then [] else [op]
  }

  lemma {:induction false} OnlyKeepsHistory(key: StreamKey, ops: seq<Op>)
    ensures HistoryOf(key, Only(key, ops)) == HistoryOf(key, ops)
    decreases |ops|
  {
    hide Accepted;
    if ops != [] {
      var before, op := ops[..|ops| - 1], ops[|ops| - 1];
      OnlyKeepsHistory(key, before);
      var kept := Only(key, before);
      assert (kept + [op])[..|kept + [op]| - 1] == kept;
      assert kept + [] == kept;
    }
  }

  /** A connection is treated as if no other packets existed. */
  lemma Isolation(ops: seq<Op>, key: StreamKey)
    requires !Run(ops).dead
    ensures !Run(Only(key, ops)).dead
    ensures OutputFor(key, Run(ops).out) == OutputFor(key, Run(Only(key, ops)).out)
    ensures BufferOf(Run(ops).table, key) == BufferOf(Run(Only(key, ops)).table, key)
  {
    hide Run, Faulty, Meaning, Only;
    DeadIff(ops);
    var own := Only(key, ops);
    OnlyKeepsHistory(key, ops);
    forall k
      ensures !Faulty(HistoryOf(k, own))
    {
      if k != key {
        OthersSilent(key, ops, k);
        FreshNotFaulty();
      }
    }
    DeadIff(own);
    RunMeaning(ops, key);
    RunMeaning(own, key);
  }

  lemma {:induction false} OthersSilent(key: StreamKey, ops: seq<Op>, k: StreamKey)
    requires k != key
    ensures HistoryOf(k, Only(key, ops)) == History([], "", 0)
    decreases |ops|
  {
    hide Accepted;
    if ops != [] {
      var before, op := ops[..|ops| - 1], ops[|ops| - 1];
      OthersSilent(key, before, k);
      var kept := Only(key, before);
      assert (kept + [op])[..|kept + [op]| - 1] == kept;
      assert kept + [] == kept;
    }
  }

  lemma FreshNotFaulty()
    ensures !Faulty(History([], "", 0))
  {
    ParseNothing();
  }

  // ---------------------------------------------------------------- between operations

  /** Every stored stream has bytes, and no complete request at its front: a sweep never discards
      one that could have been mirrored. */
  lemma Quiescent(ops: seq<Op>)
    requires !Run(ops).dead
    ensures forall key :: key in Run(ops).table ==>
              Run(ops).table[key].buf != "" && !ParseOne(Run(ops).table[key].buf).Complete?
  {
    hide ParseOne, ParseAll, Run;
    forall key | key in Run(ops).table
      ensures Run(ops).table[key].buf != "" && !ParseOne(Run(ops).table[key].buf).Complete?
    {
      RunMeaning(ops, key);
      ParseAllStops(HistoryOf(key, ops).open);
    }
  }

  /** A malformed head blocks its stream: each further segment assembles nothing, meets the same
      parse error, and stays in the buffer behind it. */
  lemma MalformedBlocks(m: Table, ev: PktEvent, now: int)
    requires Accepted(ev) && ParseOne(BufferOf(m, KeyOf(ev))).Malformed?
    ensures var f := Feed(m, ev, now);
            && f.reqs == [] && !f.panic
            && BufferOf(f.table, KeyOf(ev)) == BufferOf(m, KeyOf(ev)) + PayloadOf(ev)
            && ParseOne(BufferOf(f.table, KeyOf(ev))).Malformed?
            && ParseAll(BufferOf(f.table, KeyOf(ev))).stop.Malformed?
  {
    hide ParseOne, Accepted, IpStr;
    ParseOneStable(BufferOf(m, KeyOf(ev)), PayloadOf(ev));
  }

  // ---------------------------------------------------------------- bytes

  function Lengths(m: Table): map<StreamKey, int> { map k | k in m :: |m[k].buf| }

  /** The streams a sweep removes. */
  function Stale(m: Table, cutoff: int): set<StreamKey> {
    set k | k in m && m[k].lastSeen < cutoff
  }

  /** Bytes that got in, bytes that left as requests, and bytes the reaper threw away. */
  datatype Account = Account(accepted: nat, emitted: nat, reaped: int)

  /** One operation's entries in the account, read off the state it starts from. */
  ghost function Book(a: Account, s: State, op: Op): Account {
    if s.dead then a
    else
      match op
      case Packet(ev, now) =>
        if !Accepted(ev) then a
        else
          var b := ParseAll(BufferOf(s.table, KeyOf(ev)) + PayloadOf(ev));
          a.(accepted := a.accepted + |PayloadOf(ev)|,
             emitted := a.emitted + if b.stop.Fault? then 0 else b.consumed)
      case Reap(cutoff) =>
        a.(reaped := a.reaped + Sum(Restrict(Lengths(s.table), Stale(s.table, cutoff))))
  }

  ghost function AccountOf(ops: seq<Op>): Account {
    if ops == [] then Account(0, 0, 0)
    else Book(AccountOf(ops[..|ops| - 1]), Run(ops[..|ops| - 1]), ops[|ops| - 1])
  }

  lemma LengthsUpdate(m: Table, key: StreamKey, v: Buffered)
    ensures Sum(Lengths(m[key := v])) == Sum(Lengths(m)) - |BufferOf(m, key)| + |v.buf|
  {
    assert Lengths(m[key := v]) == Lengths(m)[key := |v.buf|];
    SumUpdate(Lengths(m), key, |v.buf|);
  }

  lemma LengthsRemove(m: Table, key: StreamKey)
    requires key in m
    ensures Sum(Lengths(m - {key})) == Sum(Lengths(m)) - |m[key].buf|
  {
    assert Lengths(m - {key}) == Lengths(m) - {key};
    SumRemove(Lengths(m), key);
  }

  lemma SegmentBytes(m: Table, key: StreamKey, data: string, now: int, ip: string)
    ensures var b := ParseAll(BufferOf(m, key) + data);
            Sum(Lengths(Assemble(m, key, data, now, ip).table)) ==
            Sum(Lengths(m)) + |data| - if b.stop.Fault? then 0 else b.consumed
  {
    hide ParseAll, Lengths;
    var m1 := Append(m, key, data, now);
    var snapshot := m1[key].buf;
    var b := ParseAll(snapshot);
    NothingConsumed(snapshot);
    LengthsUpdate(m, key, m1[key]);
    if !b.stop.Fault? && b.reqs != [] {
      if b.consumed >= |snapshot| {
        LengthsRemove(m1, key);
      } else {
        LengthsUpdate(m1, key, m1[key].(buf := snapshot[b.consumed..]));
      }
    }
  }

  lemma SweepBytes(m: Table, cutoff: int)
    ensures Sum(Lengths(Sweep(m, cutoff))) + Sum(Restrict(Lengths(m), Stale(m, cutoff))) == Sum(Lengths(m))
  {
    SumSplit(Lengths(m), Stale(m, cutoff));
    assert Lengths(Sweep(m, cutoff)) == Lengths(m) - Stale(m, cutoff);
  }

  /** Every accepted byte is in an emitted request, was reaped, or is still buffered. */
  lemma {:induction false} ByteConservation(ops: seq<Op>)
    ensures AccountOf(ops).accepted ==
            AccountOf(ops).emitted + AccountOf(ops).reaped + Sum(Lengths(Run(ops).table))
    decreases |ops|
  {
    hide ParseAll, Accepted, Lengths, Assemble, IpStr;
    if ops == [] {
      assert Lengths(map[]).Keys == {} by { NoLengths(); }
    } else {
      var before, op := ops[..|ops| - 1], ops[|ops| - 1];
      ByteConservation(before);
      var s := Run(before);
      match op
      case Packet(ev, now) => SegmentBytes(s.table, KeyOf(ev), PayloadOf(ev), now, IpStr(ev.srcIP));
      case Reap(cutoff) => SweepBytes(s.table, cutoff);
    }
  }

  lemma NoLengths()
    ensures Lengths(map[]).Keys == {}
  {
  }
}
