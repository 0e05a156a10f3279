/** Complete requests in stored streams, beside a reaper that can sweep at any moment: when a stream
    has one in front, and when a sweep throws one away. */
module Quiescence {
  import opened HttpParser
  import opened Loader
  import opened Tracker
  import opened Runs
  import opened Interleaving

  predicate CompleteInFront(m: Table, key: StreamKey) { key in m && ParseOne(m[key].buf).Complete? }

  /** Only the stream of the packet in progress can have a complete request in front. */
  ghost predicate OthersPartial(s: Sys) {
    forall key :: CompleteInFront(s.table, key) ==> Busy(s.feeder) && KeyOf(s.feeder.ev) == key
  }

  lemma RequestsInFront(d: string)
    ensures ParseOne(d).Complete? <==> ParseAll(d).reqs != []
  {
    hide ParseOne;
  }

  /** The second phase leaves no complete request anywhere. */
  lemma TrimLeavesPartial(s: Sys, key: StreamKey)
    requires Inv(s) && OthersPartial(s) && Enabled(s, Trim)
    ensures !CompleteInFront(Next(s, Trim).table, key)
  {
    hide ParseOne, ParseAll, Accepted, SweptAfter, Answer;
    var f := s.feeder;
    RequestsInFront(f.snapshot);
    ParseAllStops(f.snapshot);
    assert CompleteInFront(s.table, key) ==> KeyOf(f.ev) == key;
  }

  lemma OthersPartialStep(s: Sys, m: Move)
    requires Inv(s) && OthersPartial(s) && Enabled(s, m)
    ensures OthersPartial(Next(s, m))
  {
    hide ParseOne, ParseAll, Accepted, SweptAfter, Answer;
    var t := Next(s, m);
    if m.Trim? {
      forall key
        ensures !CompleteInFront(t.table, key)
      {
        TrimLeavesPartial(s, key);
      }
    } else {
      forall key | CompleteInFront(t.table, key)
        ensures Busy(t.feeder) && KeyOf(t.feeder.ev) == key
      {
        assert CompleteInFront(s.table, key) || m.Arrive?;
      }
    }
  }

  lemma {:induction false} OthersPartialAlways(moves: seq<Move>)
    ensures OthersPartial(Exec(moves))
    decreases |moves|
  {
    hide Inv, Enabled, Next, OthersPartial;
    if moves == [] {
      NothingInFront();
    } else {
      var s, m := Exec(moves[..|moves| - 1]), moves[|moves| - 1];
      OthersPartialAlways(moves[..|moves| - 1]);
      InvHolds(moves[..|moves| - 1]);
      if Enabled(s, m) { OthersPartialStep(s, m); }
    }
  }

  lemma NothingInFront()
    ensures OthersPartial(START)
  {
  }

  ghost predicate NoneEmpty(m: Table) { forall key :: key in m ==> m[key].buf != "" }

  lemma NoneEmptyStep(s: Sys, m: Move)
    requires NoneEmpty(s.table) && Enabled(s, m)
    ensures NoneEmpty(Next(s, m).table)
  {
    hide ParseAll, Accepted, Answer, PayloadOf;
    if m.Arrive? && Accepted(m.ev) { AcceptedNotEmpty(m.ev); }
  }

  /** No stream is ever stored without bytes. */
  lemma {:induction false} NeverEmpty(moves: seq<Move>)
    ensures NoneEmpty(Exec(moves).table)
    decreases |moves|
  {
    hide Enabled, Next;
    if moves != [] {
      var s, m := Exec(moves[..|moves| - 1]), moves[|moves| - 1];
      NeverEmpty(moves[..|moves| - 1]);
      if Enabled(s, m) { NoneEmptyStep(s, m); }
    }
  }

  /** In every state of every schedule, the streams with a complete request in front are exactly this
      one, if any: that of a packet between its two phases whose snapshot holds a request. */
  lemma CompleteInFrontIff(moves: seq<Move>, key: StreamKey)
    ensures var s := Exec(moves);
            CompleteInFront(s.table, key) <==>
            && key in s.table && Busy(s.feeder) && KeyOf(s.feeder.ev) == key
            && ParseAll(s.feeder.snapshot).reqs != []
  {
    hide ParseOne, ParseAll, Exec;
    var s := Exec(moves);
    InvHolds(moves);
    OthersPartialAlways(moves);
    if key in s.table { RequestsInFront(s.table[key].buf); }
  }

  /** A sweep throws away a complete request exactly if the packet in progress has one, still has its
      stream, and arrived before the cutoff; that is a packet more than the window old. */
  lemma SweepTakesRequestIff(moves: seq<Move>)
    requires Enabled(Exec(moves), SweepNow)
    ensures var s := Exec(moves);
            (exists key :: key !in Next(s, SweepNow).table && CompleteInFront(s.table, key)) <==>
            && Busy(s.feeder) && ParseAll(s.feeder.snapshot).reqs != []
            && s.feeder.at < s.reaper.cutoff && KeyOf(s.feeder.ev) in s.table
    ensures var s := Exec(moves);
            forall key :: key !in Next(s, SweepNow).table && CompleteInFront(s.table, key) ==>
              Busy(s.feeder) && key == KeyOf(s.feeder.ev) && s.clock - s.feeder.at > WINDOW
  {
    hide ParseOne, ParseAll, Exec;
    var s := Exec(moves);
    InvHolds(moves);
    forall key
      ensures CompleteInFront(s.table, key) <==>
              && key in s.table && Busy(s.feeder) && KeyOf(s.feeder.ev) == key
              && ParseAll(s.feeder.snapshot).reqs != []
    {
      CompleteInFrontIff(moves, key);
    }
    if Busy(s.feeder) && ParseAll(s.feeder.snapshot).reqs != [] && KeyOf(s.feeder.ev) in s.table {
      assert CompleteInFront(s.table, KeyOf(s.feeder.ev));
    }
  }

  /** It happens: any segment with a complete request, on the schedule that is one nanosecond late. */
  lemma LateSweepTakesRequest(ev: PktEvent)
    requires Accepted(ev)
    requires !ParseAll(PayloadOf(ev)).stop.Fault? && ParseAll(PayloadOf(ev)).reqs != []
    ensures var s := Exec(LateSchedule(ev)[..4]);
            && Enabled(s, SweepNow) && LateSchedule(ev)[4] == SweepNow
            && CompleteInFront(s.table, KeyOf(ev)) && KeyOf(ev) !in Next(s, SweepNow).table
  {
    hide ParseOne, ParseAll, Accepted, Exec, PayloadOf, KeyOf;
    LateRun(ev, 4);
    RequestsInFront(PayloadOf(ev));
  }
}
