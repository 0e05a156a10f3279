/** The tracker's counters in the machine with the two-phase `Feed`, against those of the undivided run
    of the same packets and sweeps. */
module ConcurrentCounts {
  import opened HttpParser
  import opened Wire
  import opened Loader
  import opened Tracker
  import opened Runs
  import opened Delivery
  import opened Driver
  import opened Interleaving
  import opened Conservation

  /** What one enabled move adds to the counters.  A parse counts its error and its requests before the
      second phase. */
  function Counted(s: Sys, m: Move): Totals
    requires Enabled(s, m)
  {
    match m
    case Arrive(ev) => Totals(1, One(Refused(ev)), 0, 0, 0)
    case Parse => ParseCount(s.feeder.snapshot)
    case SweepNow => Totals(0, 0, |Stale(s.table, s.reaper.cutoff)|, 0, 0)
    case _ => ZERO
  }

  function ParseCount(snapshot: string): Totals {
    var b := ParseAll(snapshot);
    if b.stop.Fault? then ZERO else Totals(0, 0, 0, One(b.stop.Malformed?), |b.reqs|)
  }

  function CountersOf(moves: seq<Move>): Totals {
    if moves == [] then ZERO
    else
      var s, m := Exec(moves[..|moves| - 1]), moves[|moves| - 1];
      var c := CountersOf(moves[..|moves| - 1]);
      if Enabled(s, m) then Plus(c, Counted(s, m)) else c
  }

  /** How many packets with a request were finished after a sweep had taken their stream. */
  function SweptPackets(moves: seq<Move>): nat {
    if moves == [] then 0
    else SweptPackets(moves[..|moves| - 1]) + One(TrimsSwept(Exec(moves[..|moves| - 1]), moves[|moves| - 1]))
  }

  /** What the packet in progress is still to add. */
  function Pending(s: Sys): Totals { if s.feeder.Parsing? then ParseCount(s.feeder.snapshot) else ZERO }

  /** The packet in progress has lost its stream, and has nothing to store in it. */
  predicate TakenAway(s: Sys) {
    && Busy(s.feeder) && KeyOf(s.feeder.ev) !in s.table
    && var b := ParseAll(s.feeder.snapshot);
       b.reqs != [] && b.consumed >= |s.feeder.snapshot|
  }

  /** The undivided run's counters: those of the machine and of the packet in progress, without the
      streams that were reaped although their packets were finished. */
  function Undivided(c: Totals, s: Sys, swept: nat): Totals {
    var t := Plus(c, Pending(s));
    t.(reaped := t.reaped - swept - One(TakenAway(s)))
  }

  lemma TotalsSnoc(log: seq<Op>, op: Op)
    requires !Run(log).dead
    ensures TotalsOf(log + [op]) == Plus(TotalsOf(log), Effect(Run(log), op))
  {
    hide Run, Effect, Share;
    assert (log + [op])[..|log + [op]| - 1] == log;
    EffectIsShare(log + [op]);
  }

  lemma ArriveCounts(s: Sys, ev: PktEvent, c: Totals, n: nat)
    requires Enabled(s, Arrive(ev)) && Simulates(s)
    requires TotalsOf(s.log) == Undivided(c, s, n)
    ensures var t := Next(s, Arrive(ev));
            !Run(t.log).dead ==> TotalsOf(t.log) == Undivided(Plus(c, Counted(s, Arrive(ev))), t, n)
  {
    hide ParseAll, Accepted, Run, Stamp, IpStr, TotalsOf, PayloadOf;
    RunSnoc(s.log, Packet(ev, s.clock));
    TotalsSnoc(s.log, Packet(ev, s.clock));
    if Accepted(ev) {
      var t := Next(s, Arrive(ev));
      assert t.feeder.snapshot == BufferOf(s.table, KeyOf(ev)) + PayloadOf(ev);
    }
  }

  lemma ParseCounts(s: Sys, c: Totals, n: nat)
    requires Enabled(s, Parse) && Simulates(s)
    requires !Run(s.log).dead && TotalsOf(s.log) == Undivided(c, s, n)
    ensures TotalsOf(s.log) == Undivided(Plus(c, Counted(s, Parse)), Next(s, Parse), n)
  {
    hide ParseAll, Run, TotalsOf, Stamp, IpStr;
  }

  lemma TrimCounts(s: Sys, c: Totals, n: nat)
    requires Inv(s) && Enabled(s, Trim) && TotalsOf(s.log) == Undivided(c, s, n)
    ensures TotalsOf(s.log) == Undivided(c, Next(s, Trim), n + One(TrimsSwept(s, Trim)))
  {
    hide ParseAll, Run, TotalsOf, SweptAfter, Answer;
  }

  /** Without the packet in progress, a sweep counts one stream less exactly if it takes that packet's
      and the packet leaves nothing to store. */
  lemma StaleAfterTrim(m: Table, key: StreamKey, snapshot: string, b: Batch, cutoff: int)
    ensures var drains := b.reqs != [] && b.consumed >= |snapshot|;
            |Stale(m, cutoff)| ==
            |Stale(Settle(m, key, snapshot, b), cutoff)| + One(drains && key in Stale(m, cutoff))
  {
    var t := Settle(m, key, snapshot, b);
    if b.reqs != [] && b.consumed >= |snapshot| {
      assert Stale(t, cutoff) == Stale(m, cutoff) - {key};
    } else {
      assert Stale(t, cutoff) == Stale(m, cutoff);
    }
  }

  lemma SweepCounts(s: Sys, c: Totals, n: nat)
    requires Inv(s) && Simulates(s) && Enabled(s, SweepNow)
    requires !Run(s.log).dead && TotalsOf(s.log) == Undivided(c, s, n)
    ensures var t := Next(s, SweepNow);
            TotalsOf(t.log) == Undivided(Plus(c, Counted(s, SweepNow)), t, n)
  {
    hide ParseAll, Run, TotalsOf, SweptAfter, Answer, Settle, Stale;
    var cutoff := s.reaper.cutoff;
    TotalsSnoc(s.log, Reap(cutoff));
    StaleIs(s.table, cutoff);
    if Busy(s.feeder) {
      var f := s.feeder;
      var b := ParseAll(f.snapshot);
      StaleAfterTrim(s.table, KeyOf(f.ev), f.snapshot, b, cutoff);
    }
  }

  lemma StaleIs(m: Table, cutoff: int)
    ensures forall key :: key in Stale(m, cutoff) <==> key in m && key !in Sweep(m, cutoff)
    ensures forall key :: key in Sweep(m, cutoff) ==> key in m
  {
  }

  lemma DeathStays(log: seq<Op>, op: Op)
    requires Run(log).dead
    ensures Run(log + [op]).dead
  {
    hide Step;
    RunSnoc(log, op);
    StillAlive(Run(log), op);
  }

  lemma CountersStep(s: Sys, m: Move, c: Totals, n: nat)
    requires Inv(s) && Simulates(s) && Enabled(s, m)
    requires !Run(s.log).dead ==> TotalsOf(s.log) == Undivided(c, s, n)
    ensures var t := Next(s, m);
            !Run(t.log).dead ==>
              TotalsOf(t.log) == Undivided(Plus(c, Counted(s, m)), t, n + One(TrimsSwept(s, m)))
  {
    hide ParseAll, Accepted, Run, TotalsOf, Undivided, Simulates, Inv, Effect, Answer, PayloadOf;
    if Run(s.log).dead {
      match m
      case Arrive(ev) => DeathStays(s.log, Packet(ev, s.clock));
      case SweepNow => DeathStays(s.log, Reap(s.reaper.cutoff));
      case _ =>
    } else {
      match m
      case Arrive(ev) => ArriveCounts(s, ev, c, n);
      case Parse => ParseCounts(s, c, n);
      case Trim => TrimCounts(s, c, n);
      case SweepNow => SweepCounts(s, c, n);
      case _ => IdleCounts(s, m, c, n);
    }
  }

  lemma IdleCounts(s: Sys, m: Move, c: Totals, n: nat)
    requires Enabled(s, m) && (m.Tick? || m.Arm?)
    ensures Undivided(Plus(c, Counted(s, m)), Next(s, m), n) == Undivided(c, s, n) && Next(s, m).log == s.log
  {
    hide ParseAll;
  }

  /** In every state of every schedule whose packets so far do not make the parser panic, the counters
      are those of the undivided run, but for what the packet in progress is still to add, and for the
      reaped streams: those whose packets were finished all the same count here and not there. */
  lemma {:induction false} CountersRefine(moves: seq<Move>)
    ensures var s := Exec(moves);
            !Run(s.log).dead ==> TotalsOf(s.log) == Undivided(CountersOf(moves), s, SweptPackets(moves))
    decreases |moves|
  {
    hide Inv, Simulates, Enabled, Next, Counted, Undivided, Run, TotalsOf, TrimsSwept;
    if moves == [] {
      NothingCounted();
    } else {
      var s, m := Exec(moves[..|moves| - 1]), moves[|moves| - 1];
      CountersRefine(moves[..|moves| - 1]);
      InvHolds(moves[..|moves| - 1]);
      SimulatesAlways(moves[..|moves| - 1]);
      if Enabled(s, m) {
        CountersStep(s, m, CountersOf(moves[..|moves| - 1]), SweptPackets(moves[..|moves| - 1]));
      } else {
        NotEnabled(s, m);
      }
    }
  }

  lemma NothingCounted()
    ensures TotalsOf([]) == Undivided(ZERO, START, 0)
  {
    hide TotalsOf, Undivided;
    RunNothing();
    IdleAddsNothing(ZERO, START);
  }

  lemma IdleAddsNothing(c: Totals, s: Sys)
    requires s.feeder.Idle?
    ensures Undivided(c, s, 0) == c
  {
  }

  lemma {:induction false} NoneSweptIff(moves: seq<Move>)
    ensures SweptPackets(moves) == 0 <==> forall n :: 0 <= n < |moves| ==> !SweptUnder(moves, n)
    decreases |moves|
  {
    hide Exec, TrimsSwept;
    if moves != [] {
      var before := moves[..|moves| - 1];
      NoneSweptIff(before);
      forall n | 0 <= n < |before|
        ensures SweptUnder(before, n) == SweptUnder(moves, n)
      {
        assert before[..n] == moves[..n];
      }
      assert SweptUnder(moves, |before|) == TrimsSwept(Exec(before), moves[|moves| - 1]);
    }
  }

  /** Between packets: every counter is that of the undivided run but the one of reaped streams, which
      exceeds it by the packets that were finished without their stream; and agrees with it exactly if
      there were none. */
  lemma ReapedIff(moves: seq<Move>)
    requires Exec(moves).life.Alive? && Exec(moves).feeder.Idle?
    ensures var c, u := CountersOf(moves), TotalsOf(Exec(moves).log);
            && c == u.(reaped := u.reaped + SweptPackets(moves))
            && (c.reaped == u.reaped <==> forall n :: 0 <= n < |moves| ==> !SweptUnder(moves, n))
  {
    hide Exec, Run, TotalsOf, CountersOf, SweptPackets;
    CountersRefine(moves);
    SimulatesAlways(moves);
    NoneSweptIff(moves);
  }
}
