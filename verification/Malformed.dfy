/** Malformed heads against the counter of parse errors: by how much they differ, and when they agree. */
module Malformed {
  import opened HttpParser
  import opened Tracker
  import opened Sums
  import opened Runs
  import opened Driver

  /** The batch parse of these bytes ends at a malformed head. */
  predicate Bad(d: string) { ParseAll(d).stop.Malformed? }

  function BadAmong(epochs: seq<string>): nat {
    if epochs == [] then 0 else BadAmong(epochs[..|epochs| - 1]) + One(Bad(epochs[|epochs| - 1]))
  }

  /** How many malformed heads a connection has sent: one for each epoch that has one, since nothing
      behind it is parsed. */
  function HeadsIn(h: History): nat { BadAmong(h.closed) + One(Bad(h.open)) }

  /** An accepted packet of this connection. */
  predicate SegmentOf(op: Op, key: StreamKey) { op.Packet? && Accepted(op.ev) && KeyOf(op.ev) == key }

  function HeadsOn(key: StreamKey, ops: seq<Op>): nat { HeadsIn(HistoryOf(key, ops)) }

  /** The accepted packets of a connection after which its epoch is malformed. */
  function ErrorsOn(key: StreamKey, ops: seq<Op>): nat {
    if ops == [] then 0
    else ErrorsOn(key, ops[..|ops| - 1]) + One(SegmentOf(ops[|ops| - 1], key) && Bad(Epoch(key, ops)))
  }

  /** The accepted packets of a connection before which its epoch already was. */
  function BlockedOn(key: StreamKey, ops: seq<Op>): nat {
    if ops == [] then 0
    else
      BlockedOn(key, ops[..|ops| - 1])
      + One(SegmentOf(ops[|ops| - 1], key) && Bad(Epoch(key, ops[..|ops| - 1])))
  }

  lemma NothingBad()
    ensures !Bad("")
  {
    ParseNothing();
  }

  lemma HeadsStep(h: History, key: StreamKey, op: Op)
    ensures var h' := Observe(h, key, op);
            HeadsIn(h') + One(SegmentOf(op, key) && Bad(h.open)) ==
            HeadsIn(h) + One(SegmentOf(op, key) && Bad(h'.open))
  {
    hide ParseAll, Accepted, PayloadOf;
    NothingBad();
    match op
    case Packet(ev, _) =>
      if Bad(h.open) { ParseAllSticks(h.open, PayloadOf(ev)); }
    case Reap(_) =>
      var closed := h.closed + [h.open];
      assert closed[..|closed| - 1] == h.closed;
  }

  /** Connection by connection: the errors are the malformed heads, and one more for every packet that
      arrives behind one. */
  lemma {:induction false} ErrorsSplit(key: StreamKey, ops: seq<Op>)
    ensures ErrorsOn(key, ops) == HeadsOn(key, ops) + BlockedOn(key, ops)
    decreases |ops|
  {
    hide Bad, SegmentOf, Observe, HeadsIn;
    if ops == [] {
      NoHeads();
    } else {
      ErrorsSplit(key, ops[..|ops| - 1]);
      HeadsStep(HistoryOf(key, ops[..|ops| - 1]), key, ops[|ops| - 1]);
    }
  }

  lemma NoHeads()
    ensures HeadsIn(History([], "", 0)) == 0
  {
    NothingBad();
  }

  // ---------------------------------------------------------------- all connections

  /** The connections that packets belong to. */
  function Senders(ops: seq<Op>): set<StreamKey> {
    if ops == [] then {}
    else
      var op := ops[|ops| - 1];
      Senders(ops[..|ops| - 1]) + if op.Packet? then {KeyOf(op.ev)} else {}
  }

  function ErrorsByKey(ops: seq<Op>): map<StreamKey, int> { map key | key in Senders(ops) :: ErrorsOn(key, ops) }

  function HeadsByKey(ops: seq<Op>): map<StreamKey, int> { map key | key in Senders(ops) :: HeadsOn(key, ops) }

  function BlockedByKey(ops: seq<Op>): map<StreamKey, int> { map key | key in Senders(ops) :: BlockedOn(key, ops) }

  lemma {:induction false} SilentKey(key: StreamKey, ops: seq<Op>)
    requires key !in Senders(ops)
    ensures ErrorsOn(key, ops) == 0
    decreases |ops|
  {
    hide Bad, Accepted;
    if ops != [] { SilentKey(key, ops[..|ops| - 1]); }
  }

  /** The part of a run that the process lived to see, the packet that killed it included. */
  function Lived(ops: seq<Op>): seq<Op> {
    if ops == [] || !Run(ops[..|ops| - 1]).dead then ops else Lived(ops[..|ops| - 1])
  }

  lemma {:induction false} LivedIsAll(ops: seq<Op>)
    ensures Lived(ops) <= ops && Lived(Lived(ops)) == Lived(ops)
    ensures Run(Lived(ops)) == Run(ops) && TotalsOf(Lived(ops)) == TotalsOf(ops)
    decreases |ops|
  {
    hide Step, Share;
    if ops != [] && Run(ops[..|ops| - 1]).dead {
      LivedIsAll(ops[..|ops| - 1]);
      DeadSteps(Run(ops[..|ops| - 1]), ops[|ops| - 1]);
    }
  }

  lemma AliveBefore(ops: seq<Op>)
    requires !Run(ops).dead
    ensures Lived(ops) == ops
  {
    hide Step;
    if ops != [] { StillAlive(Run(ops[..|ops| - 1]), ops[|ops| - 1]); }
  }

  lemma ErrorsByKeyStep(ops: seq<Op>)
    requires ops != []
    ensures var before, op := ops[..|ops| - 1], ops[|ops| - 1];
            Sum(ErrorsByKey(ops)) ==
            Sum(ErrorsByKey(before)) +
              One(op.Packet? && Accepted(op.ev) && Bad(Epoch(KeyOf(op.ev), ops)))
  {
    hide Bad, Accepted, KeyOf;
    var before, op := ops[..|ops| - 1], ops[|ops| - 1];
    if op.Packet? {
      var key := KeyOf(op.ev);
      assert ErrorsByKey(ops) == ErrorsByKey(before)[key := ErrorsOn(key, ops)];
      SumUpdate(ErrorsByKey(before), key, ErrorsOn(key, ops));
      if key !in Senders(before) { SilentKey(key, before); }
    } else {
      assert ErrorsByKey(ops) == ErrorsByKey(before);
    }
  }

  /** The counter is the sum of the errors on all connections. */
  lemma {:induction false} ErrorsAddUp(ops: seq<Op>)
    requires Lived(ops) == ops
    ensures TotalsOf(ops).errors == Sum(ErrorsByKey(ops))
    decreases |ops|
  {
    hide ErrorsByKey, Epoch, Accepted, KeyOf, Run, ParseAll;
    if ops == [] {
      NoErrors();
    } else {
      LivedIsAll(ops[..|ops| - 1]);
      AliveBefore(ops[..|ops| - 1]);
      ErrorsAddUp(ops[..|ops| - 1]);
      ErrorsByKeyStep(ops);
    }
  }

  lemma NoErrors()
    ensures Sum(ErrorsByKey([])) == 0
  {
    assert ErrorsByKey([]).Keys == {};
  }

  /** Packet `n` is accepted although its connection is already blocked by a malformed head. */
  predicate ArrivesBlocked(ops: seq<Op>, n: nat) {
    n < |ops| && ops[n].Packet? && Accepted(ops[n].ev) && Bad(Epoch(KeyOf(ops[n].ev), ops[..n]))
  }

  lemma {:induction false} BlockedOnIff(key: StreamKey, ops: seq<Op>)
    ensures BlockedOn(key, ops) == 0 <==>
            forall n :: 0 <= n < |ops| && ArrivesBlocked(ops, n) ==> KeyOf(ops[n].ev) != key
    decreases |ops|
  {
    hide Bad, Accepted, KeyOf, Epoch;
    if ops != [] {
      var before := ops[..|ops| - 1];
      BlockedOnIff(key, before);
      forall n | 0 <= n < |before|
        ensures ArrivesBlocked(before, n) == ArrivesBlocked(ops, n) && before[n] == ops[n]
      {
        assert before[..n] == ops[..n];
      }
      assert ArrivesBlocked(ops, |before|) && KeyOf(ops[|before|].ev) == key <==>
             SegmentOf(ops[|before|], key) && Bad(Epoch(key, before));
    }
  }

  lemma {:induction false} SenderOf(ops: seq<Op>, n: nat)
    requires n < |ops| && ops[n].Packet?
    ensures KeyOf(ops[n].ev) in Senders(ops)
    decreases |ops|
  {
    hide KeyOf;
    if n < |ops| - 1 { SenderOf(ops[..|ops| - 1], n); }
  }

  lemma NoneBlockedIff(ops: seq<Op>)
    ensures Sum(BlockedByKey(ops)) == 0 <==> forall n :: 0 <= n < |ops| ==> !ArrivesBlocked(ops, n)
  {
    hide Senders, KeyOf, BlockedOn, Bad, Accepted, Epoch;
    SumZeroIff(BlockedByKey(ops));
    forall key
      ensures BlockedOn(key, ops) == 0 <==>
              forall n :: 0 <= n < |ops| && ArrivesBlocked(ops, n) ==> KeyOf(ops[n].ev) != key
    {
      BlockedOnIff(key, ops);
    }
    forall n | 0 <= n < |ops| && ArrivesBlocked(ops, n)
      ensures KeyOf(ops[n].ev) in BlockedByKey(ops) && BlockedByKey(ops)[KeyOf(ops[n].ev)] != 0
    {
      SenderOf(ops, n);
    }
  }

  /** The counter of parse errors, in any run, is the number of malformed heads plus the accepted
      packets that arrived behind one on their connection; so it is the number of malformed heads
      exactly if there were no such packets. */
  lemma ErrorsAreHeadsIff(ops: seq<Op>)
    ensures var l := Lived(ops);
            && TotalsOf(ops).errors == Sum(HeadsByKey(l)) + Sum(BlockedByKey(l))
            && (TotalsOf(ops).errors == Sum(HeadsByKey(l)) <==>
                forall n :: 0 <= n < |l| ==> !ArrivesBlocked(l, n))
  {
    hide Senders, ErrorsOn, HeadsOn, BlockedOn, TotalsOf, Run, Lived, ArrivesBlocked;
    var l := Lived(ops);
    LivedIsAll(ops);
    ErrorsAddUp(l);
    forall key | key in Senders(l)
      ensures ErrorsOn(key, l) == HeadsOn(key, l) + BlockedOn(key, l)
    {
      ErrorsSplit(key, l);
    }
    SumPlus(HeadsByKey(l), BlockedByKey(l), ErrorsByKey(l));
    NoneBlockedIff(l);
  }
}
