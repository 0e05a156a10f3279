/** `Feed` as it really runs: two locked phases with an unlocked parse between them, one feeder
    goroutine, the reaper beside it, and a clock that only moves forward. */
module Interleaving {
  import opened ByteStrings
  import opened HttpParser
  import opened Rfc9112
  import opened Wire
  import opened Loader
  import opened Tracker
  import opened Runs

  /** Ten seconds, in nanoseconds. */
  const WINDOW := 10_000_000_000

  /** Where the feeder is.  `at` is the time of its first phase. */
  datatype Feeder =
    | Idle
    | Parsing(ev: PktEvent, snapshot: string, at: int)
    | Trimming(ev: PktEvent, snapshot: string, at: int, batch: Batch)

  /** The reaper computes its cutoff before it takes the lock. */
  datatype Reaper = Waiting | Armed(cutoff: int)

  datatype Life = Alive | ParsePanic | NilPanic

  /** `log` records the packets and the sweeps in the order in which they took effect. */
  datatype Sys = Sys(clock: int, table: Table, out: seq<Emission>,
                     feeder: Feeder, reaper: Reaper, life: Life, log: seq<Op>)

  datatype Move =
    | Tick(delta: nat)
    | Arrive(ev: PktEvent)
    | Parse
    | Trim
    | Arm
    | SweepNow

  predicate Enabled(s: Sys, m: Move) {
    s.life.Alive? &&
    match m
    case Tick(_) => true
    case Arrive(_) => s.feeder.Idle?
    case Parse => s.feeder.Parsing?
    case Trim => s.feeder.Trimming?
    case Arm => s.reaper.Waiting?
    case SweepNow => s.reaper.Armed?
  }

  function Next(s: Sys, m: Move): Sys
    requires Enabled(s, m)
  {
    match m
    case Tick(delta) => s.(clock := s.clock + delta)
    case Arrive(ev) =>
      var s1 := s.(log := s.log + [Packet(ev, s.clock)]);
      if !Accepted(ev) then s1
      else
        var t := Append(s.table, KeyOf(ev), PayloadOf(ev), s.clock);
        s1.(table := t, feeder := Parsing(ev, t[KeyOf(ev)].buf, s.clock))
    case Parse =>
      var b := ParseAll(s.feeder.snapshot);
      if b.stop.Fault? then s.(life := ParsePanic)
      else s.(feeder := Trimming(s.feeder.ev, s.feeder.snapshot, s.feeder.at, b))
    case Trim =>
      var f := s.feeder;
      if NilStream(s.table, KeyOf(f.ev), f.snapshot, f.batch) then s.(life := NilPanic)
      else s.(table := Settle(s.table, KeyOf(f.ev), f.snapshot, f.batch),
              out := s.out + Answer(f.ev, f.batch),
              feeder := Idle)
    case Arm => s.(reaper := Armed(s.clock - WINDOW))
    case SweepNow =>
      s.(table := Sweep(s.table, s.reaper.cutoff), reaper := Waiting, log := s.log + [Reap(s.reaper.cutoff)])
  }

  /** What a finished `Feed` hands over. */
  function Answer(ev: PktEvent, b: Batch): seq<Emission> {
    Tag(KeyOf(ev), Stamp(b.reqs, IpStr(ev.srcIP)))
  }

  const START := Sys(0, map[], [], Idle, Waiting, Alive, [])

  /** Any schedule: a move that is not enabled does nothing. */
  function Exec(moves: seq<Move>): Sys {
    if moves == [] then START
    else
      var s := Exec(moves[..|moves| - 1]);
      var m := moves[|moves| - 1];
      if Enabled(s, m) then Next(s, m) else s
  }

  // ---------------------------------------------------------------- the invariant

  predicate Busy(f: Feeder) { !f.Idle? }

  /** Since the last packet, some sweep had a cutoff later than `at`. */
  predicate SweptAfter(log: seq<Op>, at: int) {
    log != [] && log[|log| - 1].Reap? && (log[|log| - 1].cutoff > at || SweptAfter(log[..|log| - 1], at))
  }

  ghost predicate Inv(s: Sys) {
    && (s.reaper.Armed? ==> s.reaper.cutoff <= s.clock - WINDOW)
    && (Busy(s.feeder) ==>
          var key := KeyOf(s.feeder.ev);
          && s.feeder.at <= s.clock
          && (key in s.table ==> s.table[key] == Buffered(s.feeder.snapshot, s.feeder.at))
          && (key !in s.table <==> SweptAfter(s.log, s.feeder.at))
          && (key !in s.table ==> s.clock - s.feeder.at > WINDOW))
    && (s.feeder.Trimming? ==> s.feeder.batch == ParseAll(s.feeder.snapshot) && !s.feeder.batch.stop.Fault?)
  }

  lemma LogSnoc(log: seq<Op>, op: Op, at: int)
    ensures SweptAfter(log + [op], at) <==> op.Reap? && (op.cutoff > at || SweptAfter(log, at))
  {
    assert (log + [op])[..|log + [op]| - 1] == log;
  }

  lemma InvStep(s: Sys, m: Move)
    requires Inv(s) && Enabled(s, m)
    ensures Inv(Next(s, m))
  {
    hide ParseAll, Accepted, Stamp, IpStr, SweptAfter;
    match m
    case Arrive(ev) => LogSnoc(s.log, Packet(ev, s.clock), s.clock);
    case SweepNow =>
      if Busy(s.feeder) { LogSnoc(s.log, Reap(s.reaper.cutoff), s.feeder.at); }
    case _ =>
  }

  lemma {:induction false} InvHolds(moves: seq<Move>)
    ensures Inv(Exec(moves))
    decreases |moves|
  {
    hide Inv, Enabled, Next;
    if moves == [] {
      InvStart();
    } else {
      InvHolds(moves[..|moves| - 1]);
      var s := Exec(moves[..|moves| - 1]);
      if Enabled(s, moves[|moves| - 1]) { InvStep(s, moves[|moves| - 1]); }
    }
  }

  lemma InvStart()
    ensures Inv(START)
  {
  }

  /** If the second phase comes within the window after the first, it finds its stream, holding
      exactly the snapshot: it cannot panic. */
  lemma PromptTrim(moves: seq<Move>)
    requires Busy(Exec(moves).feeder) && Exec(moves).clock <= Exec(moves).feeder.at + 10_000_000_000
    ensures var s := Exec(moves);
            var key := KeyOf(s.feeder.ev);
            && key in s.table
            && s.table[key] == Buffered(s.feeder.snapshot, s.feeder.at)
            && (Enabled(s, Trim) ==> Next(s, Trim).life.Alive?)
  {
    InvHolds(moves);
  }

  /** So a schedule in which every second phase is prompt never dies that way: the panic has a trim
      that came later than the window allows. */
  lemma {:induction false} NilPanicMeansLate(moves: seq<Move>) returns (n: nat)
    requires Exec(moves).life.NilPanic?
    ensures n < |moves| && moves[n] == Trim
    ensures var s := Exec(moves[..n]);
            s.feeder.Trimming? && s.clock > s.feeder.at + WINDOW && SweptAfter(s.log, s.feeder.at)
    decreases |moves|
  {
    hide ParseAll, Accepted, SweptAfter, Inv;
    n := |moves| - 1;
    var s := Exec(moves[..n]);
    if s.life.NilPanic? {
      n := NilPanicMeansLate(moves[..n]);
      assert moves[..|moves| - 1][..n] == moves[..n];
    } else {
      InvHolds(moves[..n]);
      InvOfTrim(s);
    }
  }

  lemma InvOfTrim(s: Sys)
    requires Inv(s) && Enabled(s, Trim) && Next(s, Trim).life.NilPanic?
    ensures s.clock > s.feeder.at + WINDOW && SweptAfter(s.log, s.feeder.at)
  {
    hide SweptAfter;
  }

  /** Exactly when the second phase panics: it has a rest to store, and a sweep that counted its
      stream as stale came between the phases. */
  lemma NilPanicIff(moves: seq<Move>)
    requires Enabled(Exec(moves), Trim)
    ensures var s := Exec(moves);
            var f := s.feeder;
            Next(s, Trim).life.NilPanic? <==>
            SweptAfter(s.log, f.at) && 0 < |f.batch.reqs| && f.batch.consumed < |f.snapshot|
  {
    InvHolds(moves);
  }

  // ---------------------------------------------------------------- refinement

  /** The undivided run of the log, seen from a state of the divided one.  A packet in progress
      counts as done. */
  ghost predicate Simulates(s: Sys) {
    var a := Run(s.log);
    match s.life
    case NilPanic =>
      var f := s.feeder;
      && f.Trimming? && NilStream(s.table, KeyOf(f.ev), f.snapshot, f.batch)
      && a == Finished(s, f.ev, f.snapshot, f.batch)
    case ParsePanic => a.dead
    case Alive =>
      match s.feeder
      case Idle => a == State(s.table, s.out, false)
      case Parsing(ev, snapshot, at) =>
        var b := ParseAll(snapshot);
        if b.stop.Fault? then a.dead else a == Finished(s, ev, snapshot, b)
      case Trimming(ev, snapshot, at, b) => a == Finished(s, ev, snapshot, b)
  }

  function Finished(s: Sys, ev: PktEvent, snapshot: string, b: Batch): State {
    State(Settle(s.table, KeyOf(ev), snapshot, b), s.out + Answer(ev, b), false)
  }

  /** A sweep between the phases has the effect of a sweep after the second. */
  lemma SweepCommutes(m: Table, key: StreamKey, snapshot: string, b: Batch, cutoff: int)
    ensures Sweep(Settle(m, key, snapshot, b), cutoff) == Settle(Sweep(m, cutoff), key, snapshot, b)
  {
  }

  lemma RunSnoc(log: seq<Op>, op: Op)
    ensures Run(log + [op]) == Step(Run(log), op)
  {
    assert (log + [op])[..|log + [op]| - 1] == log;
  }

  lemma SimulatesStep(s: Sys, m: Move)
    requires Inv(s) && Simulates(s) && Enabled(s, m)
    ensures Simulates(Next(s, m))
  {
    hide ParseAll, Accepted, Run, Stamp, IpStr, SweptAfter, Tag;
    match m
    case Arrive(ev) =>
      RunSnoc(s.log, Packet(ev, s.clock));
      ArriveSimulates(s, ev);
    case SweepNow =>
      RunSnoc(s.log, Reap(s.reaper.cutoff));
      if Busy(s.feeder) {
        var f := s.feeder;
        SweepCommutes(s.table, KeyOf(f.ev), f.snapshot, if f.Parsing? then ParseAll(f.snapshot) else f.batch,
                      s.reaper.cutoff);
      }
    case _ =>
  }

  lemma ArriveSimulates(s: Sys, ev: PktEvent)
    ensures var a := Step(State(s.table, s.out, false), Packet(ev, s.clock));
            if !Accepted(ev) then a == State(s.table, s.out, false)
            else
              var t := Append(s.table, KeyOf(ev), PayloadOf(ev), s.clock);
              var b := ParseAll(t[KeyOf(ev)].buf);
              if b.stop.Fault? then a.dead else a == Finished(s.(table := t), ev, t[KeyOf(ev)].buf, b)
  {
    hide ParseAll, Accepted, IpStr;
    assert s.out + Tag(KeyOf(ev), []) == s.out;
  }

  lemma {:induction false} SimulatesAlways(moves: seq<Move>)
    ensures Simulates(Exec(moves))
    decreases |moves|
  {
    hide Inv, Enabled, Next, Simulates;
    if moves == [] {
      SimulatesStart();
    } else {
      var s := Exec(moves[..|moves| - 1]);
      SimulatesAlways(moves[..|moves| - 1]);
      InvHolds(moves[..|moves| - 1]);
      if Enabled(s, moves[|moves| - 1]) { SimulatesStep(s, moves[|moves| - 1]); }
    }
  }

  lemma SimulatesStart()
    ensures Simulates(START)
  {
  }

  /** The two-phase `Feed` refines the undivided one: in every schedule, whenever the feeder is
      between packets, streams and output are those of the undivided run of the same packets and
      sweeps; in the middle of a packet the output is that run's, up to the packet's requests.  If the
      second phase panics, the streams are still those of the undivided run, and exactly the requests
      of its packet are lost. */
  lemma {:induction false} TwoPhaseRefines(moves: seq<Move>)
    ensures var s := Exec(moves);
            s.life.Alive? ==>
              && (s.feeder.Idle? ==> Run(s.log) == State(s.table, s.out, false))
              && (s.feeder.Trimming? ==> Run(s.log).out == s.out + Answer(s.feeder.ev, s.feeder.batch))
    ensures Exec(moves).life.ParsePanic? ==> Run(Exec(moves).log).dead
    ensures var s := Exec(moves);
            s.life.NilPanic? ==>
              && s.feeder.Trimming? && s.feeder.batch.reqs != []
              && Run(s.log) == State(s.table, s.out + Answer(s.feeder.ev, s.feeder.batch), false)
  {
    hide Run, Answer;
    SimulatesAlways(moves);
  }

  /** Concurrency does not change the meaning: between packets, every connection has received the
      requests of the batch parses of its epochs. */
  lemma ConcurrentMeaning(moves: seq<Move>, key: StreamKey)
    requires Exec(moves).life.Alive? && Exec(moves).feeder.Idle?
    ensures var s := Exec(moves);
            && OutputFor(key, s.out) == Meaning(key, HistoryOf(key, s.log))
            && BufferOf(s.table, key) == Unparsed(HistoryOf(key, s.log).open)
  {
    hide Run, Exec, Meaning, OutputFor, HistoryOf;
    TwoPhaseRefines(moves);
    RunMeaning(Exec(moves).log, key);
  }

  // ---------------------------------------------------------------- the panic is possible

  /** A packet, its parse, a second phase that is late by one nanosecond, and a sweep before it. */
  function LateSchedule(ev: PktEvent): (m: seq<Move>)
    ensures |m| == 6
  {
    [Arrive(ev), Parse, Tick(10_000_000_001), Arm, SweepNow, Trim]
  }

  /** The states of that schedule before its last move. */
  function LateState(ev: PktEvent, i: nat): Sys
    requires i <= 5
  {
    var data := PayloadOf(ev);
    var fed := Sys(0, map[KeyOf(ev) := Buffered(data, 0)], [], Parsing(ev, data, 0), Waiting, Alive, [Packet(ev, 0)]);
    var parsed := fed.(feeder := Trimming(ev, data, 0, ParseAll(data)));
    var late := parsed.(clock := WINDOW + 1);
    if i == 0 then START
    else if i == 1 then fed
    else if i == 2 then parsed
    else if i == 3 then late
    else if i == 4 then late.(reaper := Armed(1))
    else late.(table := map[], log := [Packet(ev, 0), Reap(1)])
  }

  lemma LateStep(ev: PktEvent, i: nat)
    requires i < 5 && Accepted(ev) && !ParseAll(PayloadOf(ev)).stop.Fault?
    ensures Enabled(LateState(ev, i), LateSchedule(ev)[i])
    ensures Next(LateState(ev, i), LateSchedule(ev)[i]) == LateState(ev, i + 1)
  {
    hide ParseAll, Accepted, PayloadOf, KeyOf;
    assert "" + PayloadOf(ev) == PayloadOf(ev);
    assert [Packet(ev, 0)] + [Reap(1)] == [Packet(ev, 0), Reap(1)];
    assert Sweep(map[KeyOf(ev) := Buffered(PayloadOf(ev), 0)], 1) == map[];
  }

  lemma {:induction false} LateRun(ev: PktEvent, i: nat)
    requires i <= 5 && Accepted(ev) && !ParseAll(PayloadOf(ev)).stop.Fault?
    ensures Exec(LateSchedule(ev)[..i]) == LateState(ev, i)
  {
    hide ParseAll, Accepted, Exec, LateState, LateSchedule, Next, Enabled;
    if i == 0 {
      ExecStart();
      LateStart(ev);
    } else {
      LateRun(ev, i - 1);
      LateStep(ev, i - 1);
      Advance(LateSchedule(ev), i - 1, LateState(ev, i - 1), LateState(ev, i));
    }
  }

  lemma LateStart(ev: PktEvent)
    ensures LateState(ev, 0) == START && LateSchedule(ev)[..0] == []
  {
  }

  /** A segment with a complete request and the beginning of another one, on that schedule: the
      process dies. */
  lemma LateTrimPanics(ev: PktEvent)
    requires Accepted(ev)
    requires var b := ParseAll(PayloadOf(ev));
             !b.stop.Fault? && b.reqs != [] && b.consumed < |PayloadOf(ev)|
    ensures Exec(LateSchedule(ev)).life.NilPanic?
  {
    hide ParseAll, Accepted, Exec, PayloadOf, KeyOf;
    var m, s := LateSchedule(ev), LateState(ev, 5);
    LateRun(ev, 5);
    Advance(m, 5, s, s.(life := NilPanic));
    assert m[..6] == m;
  }

  lemma ExecStart()
    ensures Exec([]) == START
  {
  }

  lemma Advance(m: seq<Move>, i: nat, s: Sys, t: Sys)
    requires i < |m| && Exec(m[..i]) == s && Enabled(s, m[i]) && Next(s, m[i]) == t
    ensures Exec(m[..i + 1]) == t
  {
    hide Enabled, Next;
    assert m[..i + 1] == m[..i] + [m[i]];
    ExecSnoc(m[..i], m[i]);
  }

  lemma ExecSnoc(moves: seq<Move>, m: Move)
    ensures Exec(moves + [m]) == if Enabled(Exec(moves), m) then Next(Exec(moves), m) else Exec(moves)
  {
    assert (moves + [m])[..|moves + [m]| - 1] == moves;
  }

  const SMALL := Message("GET", "/", "HTTP/1.1", [], "")
  const SMALL_TEXT := "GET / HTTP/1.1\r\n\r\n"

  lemma SmallMessage()
    ensures Render(SMALL) == SMALL_TEXT && WellFormed(SMALL)
  {
    assert RenderRequestLine("GET", "/", "HTTP/1.1") == "GET / HTTP/1.1";
    assert RenderFields([]) == [];
    assert HeadLines(SMALL) == ["GET / HTTP/1.1"];
    assert FieldValues([], "Content-Length") == [];
  }

  lemma SmallThenG()
    ensures ParseAll(SMALL_TEXT + "G") == Batch([RequestOf(SMALL)], |SMALL_TEXT|, Incomplete)
  {
    hide ParseOne, ParseAll, Render, WellFormed, RequestOf;
    SmallMessage();
    PartialG();
    PipelineRoundTrip([SMALL], "G");
    assert [SMALL][1..] == [];
    assert RenderAll([SMALL]) == Render(SMALL) + "";
    assert RenderAll([SMALL]) == SMALL_TEXT;
    assert RenderAll([SMALL]) + "G" == SMALL_TEXT + "G";
    assert RequestsOf([SMALL]) == [RequestOf(SMALL)];
  }

  lemma PartialG()
    ensures ParseOne("G") == Incomplete
  {
    IndexReads("G", BLANK_LINE);
  }

  /** There is such a segment. */
  lemma LateSegment() returns (ev: PktEvent)
    ensures Accepted(ev)
    ensures var b := ParseAll(PayloadOf(ev));
            !b.stop.Fault? && b.reqs != [] && b.consumed < |PayloadOf(ev)|
  {
    hide ParseAll, LooksLikeContinuation;
    SmallThenG();
    ev := EventOf(SMALL_TEXT + "G");
    assert METHODS[0] <= SMALL_TEXT + "G";
  }
}
