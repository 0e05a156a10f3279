/** Bytes in the machine with the two-phase `Feed`: the account that balances in every state of every
    schedule, and exactly when it is the plain one. */
module Conservation {
  import opened HttpParser
  import opened Rfc9112
  import opened Wire
  import opened Loader
  import opened Tracker
  import opened Sums
  import opened Runs
  import opened Delivery
  import opened Interleaving

  /** Bytes that got in, bytes that left as requests, bytes that sweeps threw away, and bytes that
      did both. */
  datatype Books = Books(accepted: nat, emitted: nat, reaped: int, twice: nat)

  /** A second phase that finds its stream swept away, and nothing to store: the requests go out
      although their bytes have been thrown away. */
  predicate TrimsSwept(s: Sys, m: Move) {
    && m.Trim? && Enabled(s, m) && Next(s, m).life.Alive?
    && s.feeder.batch.reqs != [] && SweptAfter(s.log, s.feeder.at)
  }

  /** The entries of one enabled move. */
  ghost function Enter(b: Books, s: Sys, m: Move): Books
    requires Enabled(s, m)
  {
    match m
    case Arrive(ev) =>
      if Accepted(ev) then b.(accepted := b.accepted + |PayloadOf(ev)|) else b
    case Trim =>
      if Next(s, m).life.NilPanic? then b
      else
        var n := s.feeder.batch.consumed;
        b.(emitted := b.emitted + n, twice := b.twice + if TrimsSwept(s, m) then n else 0)
    case SweepNow =>
      b.(reaped := b.reaped + Sum(Restrict(Lengths(s.table), Stale(s.table, s.reaper.cutoff))))
    case _ => b
  }

  ghost function BooksOf(moves: seq<Move>): Books {
    if moves == [] then Books(0, 0, 0, 0)
    else
      var s, m := Exec(moves[..|moves| - 1]), moves[|moves| - 1];
      var b := BooksOf(moves[..|moves| - 1]);
      if Enabled(s, m) then Enter(b, s, m) else b
  }

  ghost predicate Balanced(b: Books, m: Table) {
    b.accepted + b.twice == b.emitted + b.reaped + Sum(Lengths(m))
  }

  lemma TrimBytes(s: Sys)
    requires Inv(s) && Enabled(s, Trim) && Next(s, Trim).life.Alive?
    ensures Sum(Lengths(Next(s, Trim).table)) ==
            Sum(Lengths(s.table)) - if TrimsSwept(s, Trim) then 0 else s.feeder.batch.consumed
  {
    hide ParseAll, Lengths, SweptAfter;
    var f := s.feeder;
    var key := KeyOf(f.ev);
    NothingConsumed(f.snapshot);
    if f.batch.reqs == [] {
    } else if key !in s.table {
      assert s.table - {key} == s.table;
    } else if f.batch.consumed >= |f.snapshot| {
      LengthsRemove(s.table, key);
    } else {
      LengthsUpdate(s.table, key, s.table[key].(buf := f.snapshot[f.batch.consumed..]));
    }
  }

  lemma EnterBalances(b: Books, s: Sys, m: Move)
    requires Inv(s) && Enabled(s, m) && Balanced(b, s.table)
    ensures Balanced(Enter(b, s, m), Next(s, m).table)
  {
    hide ParseAll, Accepted, Lengths, Inv, SweptAfter, Stamp, IpStr;
    match m
    case Arrive(ev) =>
      LengthsUpdate(s.table, KeyOf(ev), Append(s.table, KeyOf(ev), PayloadOf(ev), s.clock)[KeyOf(ev)]);
    case Trim => if Next(s, m).life.Alive? { TrimBytes(s); }
    case SweepNow => SweepBytes(s.table, s.reaper.cutoff);
    case _ =>
  }

  /** The account of the concurrent machine, in every state of every schedule, in the middle of a
      packet or not: accepted bytes, and again those that were swept away and emitted all the same,
      are the emitted, the reaped and the buffered ones. */
  lemma {:induction false} BytesBalance(moves: seq<Move>)
    ensures Balanced(BooksOf(moves), Exec(moves).table)
    decreases |moves|
  {
    hide Lengths, Enter, Enabled, Next, Inv;
    if moves == [] {
      assert Lengths(map[]).Keys == {} by { NoLengths(); }
    } else {
      var s, m := Exec(moves[..|moves| - 1]), moves[|moves| - 1];
      BytesBalance(moves[..|moves| - 1]);
      InvHolds(moves[..|moves| - 1]);
      if Enabled(s, m) { EnterBalances(BooksOf(moves[..|moves| - 1]), s, m); }
    }
  }

  /** In step `n` of a schedule a packet is finished whose stream was swept away under it. */
  predicate SweptUnder(moves: seq<Move>, n: nat) {
    n < |moves| && TrimsSwept(Exec(moves[..n]), moves[n])
  }

  lemma RequestsTakeBytes(d: string)
    requires ParseAll(d).reqs != []
    ensures ParseAll(d).consumed > 0
  {
    hide ParseOne;
    if ParseOne(d).Complete? { CompleteSize(d); }
  }

  lemma TwiceOfStep(b: Books, s: Sys, m: Move)
    requires Inv(s) && Enabled(s, m)
    ensures Enter(b, s, m).twice >= b.twice
    ensures Enter(b, s, m).twice > b.twice <==> TrimsSwept(s, m)
  {
    hide ParseAll, Accepted, SweptAfter, Next, Lengths;
    if TrimsSwept(s, m) { RequestsTakeBytes(s.feeder.snapshot); }
  }

  lemma {:induction false} TwiceIff(moves: seq<Move>)
    ensures BooksOf(moves).twice == 0 <==> forall n :: 0 <= n < |moves| ==> !SweptUnder(moves, n)
    decreases |moves|
  {
    hide Enter, Enabled, Next, Inv, TrimsSwept;
    if moves != [] {
      var before := moves[..|moves| - 1];
      var s, m := Exec(before), moves[|moves| - 1];
      TwiceIff(before);
      InvHolds(before);
      forall n | 0 <= n < |before|
        ensures SweptUnder(before, n) == SweptUnder(moves, n)
      {
        assert before[..n] == moves[..n];
      }
      assert SweptUnder(moves, |before|) == TrimsSwept(s, m);
      if Enabled(s, m) { TwiceOfStep(BooksOf(before), s, m); } else { NotEnabled(s, m); }
    }
  }

  lemma NotEnabled(s: Sys, m: Move)
    requires !Enabled(s, m)
    ensures !TrimsSwept(s, m)
  {
  }

  /** Every accepted byte is exactly one of emitted, reaped or buffered if and only if no packet with
      a request was finished after a sweep had taken its stream. */
  lemma BytesConservedIff(moves: seq<Move>)
    ensures var b := BooksOf(moves);
            b.accepted == b.emitted + b.reaped + Sum(Lengths(Exec(moves).table)) <==>
            forall n :: 0 <= n < |moves| ==> !SweptUnder(moves, n)
  {
    hide Exec, BooksOf, Lengths, SweptUnder;
    BytesBalance(moves);
    TwiceIff(moves);
  }

  // ---------------------------------------------------------------- the exception occurs

  lemma BooksNext(m: seq<Move>, i: nat)
    requires i < |m| && Enabled(Exec(m[..i]), m[i])
    ensures BooksOf(m[..i + 1]) == Enter(BooksOf(m[..i]), Exec(m[..i]), m[i])
  {
    hide Enter, Enabled, Exec;
    assert m[..i + 1][..i] == m[..i];
  }

  /** A segment of complete requests and nothing else, on the schedule that is one nanosecond late:
      its bytes are thrown away by the sweep, and its requests go out. */
  lemma LateTrimDoubles(ev: PktEvent)
    requires Accepted(ev)
    requires var b := ParseAll(PayloadOf(ev));
             !b.stop.Fault? && b.reqs != [] && b.consumed == |PayloadOf(ev)|
    ensures var s, n := Exec(LateSchedule(ev)), |PayloadOf(ev)|;
            && s.life.Alive? && s.table == map[] && s.out == Answer(ev, ParseAll(PayloadOf(ev)))
            && 0 < n && BooksOf(LateSchedule(ev)) == Books(n, n, n, n)
  {
    hide ParseAll, Accepted, Exec, PayloadOf, KeyOf, BooksOf, Answer, LateState;
    var m, s, n := LateSchedule(ev), LateState(ev, 5), |PayloadOf(ev)|;
    LateBooks(ev);
    LateRun(ev, 5);
    LateEnd(ev);
    Advance(m, 5, s, Next(s, Trim));
    BooksNext(m, 5);
    assert m[..6] == m;
    RequestsTakeBytes(PayloadOf(ev));
  }

  /** The last move of that schedule. */
  lemma LateEnd(ev: PktEvent)
    requires var b := ParseAll(PayloadOf(ev)); b.reqs != [] && b.consumed == |PayloadOf(ev)|
    ensures var s, b := LateState(ev, 5), ParseAll(PayloadOf(ev));
            && s.table == map[] && Enabled(s, Trim) && TrimsSwept(s, Trim) && s.feeder.batch == b
            && Next(s, Trim) == s.(out := Answer(ev, b), feeder := Idle)
  {
    hide ParseAll, PayloadOf, KeyOf, Answer;
    var s := LateState(ev, 5);
    assert s.log[..|s.log| - 1] == [Packet(ev, 0)];
    assert s.table - {KeyOf(ev)} == map[];
    assert [] + Answer(ev, s.feeder.batch) == Answer(ev, s.feeder.batch);
  }

  lemma LateBooks(ev: PktEvent)
    requires Accepted(ev) && !ParseAll(PayloadOf(ev)).stop.Fault?
    ensures BooksOf(LateSchedule(ev)[..5]) == Books(|PayloadOf(ev)|, 0, |PayloadOf(ev)|, 0)
  {
    hide ParseAll, Accepted, Exec, PayloadOf, KeyOf, LateState, Next, Enabled, BooksOf;
    var m := LateSchedule(ev);
    forall i | 0 <= i < 5
      ensures Exec(m[..i]) == LateState(ev, i) && Enabled(LateState(ev, i), m[i])
    {
      LateRun(ev, i);
      LateStep(ev, i);
    }
    NoBooks(m);
    BooksNext(m, 0);
    BooksNext(m, 1);
    BooksNext(m, 2);
    BooksNext(m, 3);
    BooksNext(m, 4);
    LateSweepBytes(ev);
  }

  lemma NoBooks(m: seq<Move>)
    ensures BooksOf(m[..0]) == Books(0, 0, 0, 0)
  {
  }

  lemma LateSweepBytes(ev: PktEvent)
    ensures var s := LateState(ev, 4);
            Sum(Restrict(Lengths(s.table), Stale(s.table, s.reaper.cutoff))) == |PayloadOf(ev)|
  {
    hide PayloadOf, KeyOf, ParseAll;
    var s := LateState(ev, 4);
    var one := map[KeyOf(ev) := |PayloadOf(ev)|];
    assert Restrict(Lengths(s.table), Stale(s.table, s.reaper.cutoff)) == one;
    SumRemove(one, KeyOf(ev));
    assert (one - {KeyOf(ev)}).Keys == {};
  }

  /** There is such a segment. */
  lemma DoubledSegment() returns (ev: PktEvent)
    ensures Accepted(ev)
    ensures var b := ParseAll(PayloadOf(ev));
            !b.stop.Fault? && b.reqs != [] && b.consumed == |PayloadOf(ev)|
  {
    hide ParseOne, ParseAll, Render, WellFormed, RequestOf, LooksLikeContinuation, EventOf;
    SmallMessage();
    ev := EventOf(SMALL_TEXT);
    assert METHODS[0] <= SMALL_TEXT;
    NothingIncomplete();
    PipelineRoundTrip([SMALL], "");
    assert RenderAll([SMALL]) == SMALL_TEXT + RenderAll([]);
    assert RenderAll([SMALL]) + "" == SMALL_TEXT;
  }
}
