/** The readiness ledger of the EWP simulator: what a handler records of a mirrored request, with
    any number of handlers at work at once. */
module Ledger {
  import opened ByteStrings
  import opened Headers

  const LOG_SIZE := 1000

  datatype Entry = Entry(verb: string, path: string, statusCode: int, latencyMs: int, passed: bool,
                         headers: map<string, string>)

  predicate Success(statusCode: int) { 200 <= statusCode < 300 }

  /** The last entries, as many as the log keeps. */
  function Window(s: seq<Entry>): (w: seq<Entry>)
    ensures |w| <= LOG_SIZE
  {
    if |s| > LOG_SIZE then s[|s| - LOG_SIZE..] else s
  }

  lemma WindowIs(s: seq<Entry>)
    ensures var w := Window(s); |w| == (if |s| < 1000 then |s| else 1000) && w == s[|s| - |w|..]
  {
  }

  /** `snap` is a snapshot of a response header: the lower-cased names that have a value, each with
      the first value of such a name. */
  ghost predicate Snapshot(h: Header, snap: map<string, string>) {
    && (forall k :: k in h && |h[k]| > 0 ==> Lower(k) in snap)
    && (forall n :: n in snap ==> exists k :: k in h && |h[k]| > 0 && Lower(k) == n && snap[n] == h[k][0])
  }

  method SnapshotHeaders(h: Header) returns (snap: map<string, string>)
    ensures Snapshot(h, snap)
    ensures forall k :: k in h && |h[k]| > 0 ==> Lower(k) in snap
    ensures forall n :: n in snap ==> exists k :: k in h && |h[k]| > 0 && Lower(k) == n && snap[n] == h[k][0]
  {
    hide Lower;
    snap := map[];
    var pending := h.Keys;
    while pending != {}
      invariant pending <= h.Keys
      invariant forall k :: k in h && k !in pending && |h[k]| > 0 ==> Lower(k) in snap
      invariant forall n :: n in snap ==> exists k :: k in h && |h[k]| > 0 && Lower(k) == n && snap[n] == h[k][0]
      decreases pending
    {
      var k :| k in pending;
      pending := pending - {k};
      if |h[k]| > 0 {
        snap := snap[Lower(k) := h[k][0]];
      }
    }
  }

  class Recorder {
    var successCount: nat
    var validationLog: seq<Entry>
    var readyThreshPct: real

    constructor ()
      ensures successCount == 0 && validationLog == [] && readyThreshPct == 100.0
    {
      successCount, validationLog, readyThreshPct := 0, [], 100.0;
    }

    method Record(verb: string, path: string, statusCode: int, latencyMs: int, isMirrored: bool, respHeader: Header)
      modifies this`successCount, this`validationLog
      ensures successCount == old(successCount) + if isMirrored && 200 <= statusCode < 300 then 1 else 0
      ensures !isMirrored ==> validationLog == old(validationLog)
      ensures isMirrored ==>
                exists snap ::
                  && Snapshot(respHeader, snap)
                  && var all := old(validationLog) +
                       [Entry(verb, path, statusCode, latencyMs, 200 <= statusCode < 300, snap)];
                     && |validationLog| == (if |all| < 1000 then |all| else 1000)
                     && validationLog == all[|all| - |validationLog|..]
    {
      var passed := 200 <= statusCode && statusCode < 300;
      if passed && isMirrored {
        successCount := successCount + 1;
      }
      if isMirrored {
        var headers := SnapshotHeaders(respHeader);
        validationLog := validationLog + [Entry(verb, path, statusCode, latencyMs, passed, headers)];
        if |validationLog| > 1000 {
          validationLog := validationLog[|validationLog| - 1000..];
        }
      }
    }

    /** The update of the threshold; outside 0 to 100 it is refused. */
    method Configure(pct: real) returns (ok: bool)
      modifies this`readyThreshPct
      ensures ok <==> 0.0 <= pct <= 100.0
      ensures readyThreshPct == if ok then pct else old(readyThreshPct)
      ensures 0.0 <= old(readyThreshPct) <= 100.0 ==> 0.0 <= readyThreshPct <= 100.0
    {
      if pct < 0.0 || pct > 100.0 {
        return false;
      }
      readyThreshPct := pct;
      return true;
    }
  }

  /** Trimming after every entry is trimming once. */
  lemma WindowSlides(history: seq<Entry>, e: Entry)
    ensures Window(Window(history) + [e]) == Window(history + [e])
  {
    if |history| > LOG_SIZE {
      assert Window(history) + [e] == (history + [e])[|history| - LOG_SIZE..];
    }
  }

  // ---------------------------------------------------------------- concurrent handlers

  datatype Endpoint = Products | Orders | Users | Echo

  /** Where a handler is; each atomic addition and each locked section is a step. */
  datatype Pc =
    | Arrived
    | Counted
    | Marked
    | Refused
    | Served(entry: Entry)
    | Scored(entry: Entry)
    | Logged(entry: Entry)

  datatype Handler = Handler(endpoint: Endpoint, mirrored: bool, pc: Pc)

  /** `history` is every entry ever logged, in the order in which the lock was taken. */
  datatype State = State(requestCount: nat, mirroredCount: nat, successCount: nat,
                         log: seq<Entry>, history: seq<Entry>, handlers: seq<Handler>)

  const START := State(0, 0, 0, [], [], [])

  datatype Action =
    | Arrive(endpoint: Endpoint, mirrored: bool)
    | CountRequest
    | CountMirrored
    | Refuse
    | Serve(entry: Entry)
    | Score
    | Log

  datatype Move = Move(i: nat, act: Action)

  predicate Enabled(s: State, m: Move) {
    match m.act
    case Arrive(_, _) => true
    case CountRequest => m.i < |s.handlers| && s.handlers[m.i].pc.Arrived?
    case CountMirrored => m.i < |s.handlers| && s.handlers[m.i].pc.Counted?
    case Refuse =>
      m.i < |s.handlers| && s.handlers[m.i].pc.Marked? &&
      (s.handlers[m.i].endpoint.Products? || s.handlers[m.i].endpoint.Orders?)
    case Serve(entry) =>
      m.i < |s.handlers| && s.handlers[m.i].pc.Marked? && entry.passed == Success(entry.statusCode)
    case Score => m.i < |s.handlers| && s.handlers[m.i].pc.Served?
    case Log => m.i < |s.handlers| && s.handlers[m.i].pc.Scored?
  }

  function Target(pc: Pc, act: Action): Pc {
    match act
    case Arrive(_, _) => Arrived
    case CountRequest => Counted
    case CountMirrored => Marked
    case Refuse => Refused
    case Serve(entry) => Served(entry)
    case Score => if pc.Served? then Scored(pc.entry) else pc
    case Log => if pc.Scored? then Logged(pc.entry) else pc
  }

  function One(b: bool): nat { if b then 1 else 0 }

  function Next(s: State, m: Move): State
    requires Enabled(s, m)
  {
    if m.act.Arrive? then s.(handlers := s.handlers + [Handler(m.act.endpoint, m.act.mirrored, Arrived)])
    else
      var h := s.handlers[m.i];
      var t := s.(handlers := s.handlers[m.i := h.(pc := Target(h.pc, m.act))]);
      match m.act
      case CountRequest => t.(requestCount := s.requestCount + One(!h.endpoint.Echo?))
      case CountMirrored => t.(mirroredCount := s.mirroredCount + One(h.mirrored))
      case Score => t.(successCount := s.successCount + One(h.mirrored && h.pc.entry.passed))
      case Log =>
        if h.mirrored then t.(log := Window(s.log + [h.pc.entry]), history := s.history + [h.pc.entry]) else t
      case _ => t
  }

  function Exec(moves: seq<Move>): State {
    if moves == [] then START
    else
      var s := Exec(moves[..|moves| - 1]);
      var m := moves[|moves| - 1];
      if Enabled(s, m) then Next(s, m) else s
  }

  /** What a counter counts. */
  datatype Measure = Requests | Mirrored | Successes | EchoedMirrors | Unmarked | Entries

  predicate Counts(h: Handler, c: Measure) {
    match c
    case Requests => !h.pc.Arrived? && !h.endpoint.Echo?
    case Mirrored => !h.pc.Arrived? && !h.pc.Counted? && h.mirrored
    case Successes => (h.pc.Scored? || h.pc.Logged?) && h.mirrored && h.pc.entry.passed
    case EchoedMirrors => !h.pc.Arrived? && !h.pc.Counted? && h.mirrored && h.endpoint.Echo?
    case Unmarked => !h.pc.Arrived? && !h.endpoint.Echo? && (h.pc.Counted? || !h.mirrored)
    case Entries => h.pc.Logged? && h.mirrored
  }

  function Tally(s: seq<Handler>, c: Measure): nat {
    if s == [] then 0 else Tally(s[..|s| - 1], c) + One(Counts(s[|s| - 1], c))
  }

  lemma {:induction false} TallyUpdate(s: seq<Handler>, i: nat, h: Handler)
    requires i < |s|
    ensures forall c :: Tally(s[i := h], c) == Tally(s, c) - One(Counts(s[i], c)) + One(Counts(h, c))
    decreases |s|
  {
    hide Counts;
    var t := s[i := h];
    if i < |s| - 1 {
      TallyUpdate(s[..|s| - 1], i, h);
      assert t[..|s| - 1] == s[..|s| - 1][i := h];
    } else {
      assert t[..|s| - 1] == s[..|s| - 1];
    }
  }

  lemma TallySnoc(s: seq<Handler>, h: Handler)
    ensures forall c :: Tally(s + [h], c) == Tally(s, c) + One(Counts(h, c))
  {
    assert (s + [h])[..|s|] == s;
  }

  lemma {:induction false} TallyOrder(s: seq<Handler>)
    ensures Tally(s, Successes) <= Tally(s, Mirrored)
    ensures Tally(s, Entries) <= Tally(s, Mirrored)
    ensures Tally(s, Mirrored) + Tally(s, Unmarked) == Tally(s, Requests) + Tally(s, EchoedMirrors)
    decreases |s|
  {
    if s != [] { TallyOrder(s[..|s| - 1]); }
  }

  ghost predicate Inv(s: State) {
    && s.requestCount == Tally(s.handlers, Requests)
    && s.mirroredCount == Tally(s.handlers, Mirrored)
    && s.successCount == Tally(s.handlers, Successes)
    && |s.history| == Tally(s.handlers, Entries)
    && s.log == Window(s.history)
  }

  lemma InvStep(s: State, m: Move)
    requires Inv(s) && Enabled(s, m)
    ensures Inv(Next(s, m))
  {
    hide Tally, Window;
    if m.act.Arrive? {
      TallySnoc(s.handlers, Handler(m.act.endpoint, m.act.mirrored, Arrived));
    } else {
      var h := s.handlers[m.i];
      TallyUpdate(s.handlers, m.i, h.(pc := Target(h.pc, m.act)));
      if m.act.Log? { WindowSlides(s.history, h.pc.entry); }
    }
  }

  lemma {:induction false} InvHolds(moves: seq<Move>)
    ensures Inv(Exec(moves))
    decreases |moves|
  {
    hide Inv, Enabled, Next;
    if moves == [] {
      assert Inv(START) by { InvStart(); }
    } else {
      InvHolds(moves[..|moves| - 1]);
      var s := Exec(moves[..|moves| - 1]);
      if Enabled(s, moves[|moves| - 1]) { InvStep(s, moves[|moves| - 1]); }
    }
  }

  lemma InvStart()
    ensures Inv(START)
  {
  }

  /** In every reachable state, however handlers interleave, the log is the last thousand entries of
      the full history in lock order, and no more successes are counted than mirrored requests. */
  lemma LedgerSound(moves: seq<Move>)
    ensures var s := Exec(moves);
            && |s.log| == (if |s.history| < 1000 then |s.history| else 1000)
            && s.log == s.history[|s.history| - |s.log|..]
            && s.successCount <= s.mirroredCount
            && |s.history| <= s.mirroredCount
  {
    hide Exec, Tally, Counts, Window;
    var s := Exec(moves);
    InvHolds(moves);
    TallyOrder(s.handlers);
    WindowIs(s.history);
  }

  lemma {:induction false} TallyIs(s: seq<Handler>, c: Measure)
    ensures Tally(s, c) == |set i | 0 <= i < |s| && Counts(s[i], c)|
    decreases |s|
  {
    hide Counts;
    if s != [] {
      var most, last := s[..|s| - 1], |s| - 1;
      TallyIs(most, c);
      assert (set i | 0 <= i < |s| && Counts(s[i], c)) ==
             (set i | 0 <= i < |most| && Counts(most[i], c)) + if Counts(s[last], c) then {last} else {};
    }
  }

  lemma RequestTally(h: seq<Handler>)
    ensures Tally(h, Requests) == |set i | 0 <= i < |h| && !h[i].endpoint.Echo? && !h[i].pc.Arrived?|
  {
    hide Tally;
    TallyIs(h, Requests);
    assert (set i | 0 <= i < |h| && Counts(h[i], Requests)) ==
           (set i | 0 <= i < |h| && !h[i].endpoint.Echo? && !h[i].pc.Arrived?);
  }

  lemma MirroredTally(h: seq<Handler>)
    ensures Tally(h, Mirrored) == |set i | 0 <= i < |h| && h[i].mirrored && !h[i].pc.Arrived? && !h[i].pc.Counted?|
  {
    hide Tally;
    TallyIs(h, Mirrored);
    assert (set i | 0 <= i < |h| && Counts(h[i], Mirrored)) ==
           (set i | 0 <= i < |h| && h[i].mirrored && !h[i].pc.Arrived? && !h[i].pc.Counted?);
  }

  lemma SuccessTally(h: seq<Handler>)
    ensures Tally(h, Successes) ==
            |set i | 0 <= i < |h| && h[i].mirrored && (h[i].pc.Scored? || h[i].pc.Logged?) && h[i].pc.entry.passed|
  {
    hide Tally;
    TallyIs(h, Successes);
    assert (set i | 0 <= i < |h| && Counts(h[i], Successes)) ==
           (set i | 0 <= i < |h| && h[i].mirrored && (h[i].pc.Scored? || h[i].pc.Logged?) && h[i].pc.entry.passed);
  }

  lemma EntryTally(h: seq<Handler>)
    ensures Tally(h, Entries) == |set i | 0 <= i < |h| && h[i].mirrored && h[i].pc.Logged?|
  {
    hide Tally;
    TallyIs(h, Entries);
    assert (set i | 0 <= i < |h| && Counts(h[i], Entries)) == (set i | 0 <= i < |h| && h[i].mirrored && h[i].pc.Logged?);
  }

  /** What the counters and the log count, handler by handler: requests all but the echo handler have
      counted; mirrored ones all have marked; successes those scored; entries those logged.  A refused
      request is counted and marked, and in neither of the other two. */
  lemma LedgerCounts(moves: seq<Move>)
    ensures var s := Exec(moves);
            var h := s.handlers;
            && s.requestCount == |set i | 0 <= i < |h| && !h[i].endpoint.Echo? && !h[i].pc.Arrived?|
            && s.mirroredCount == |set i | 0 <= i < |h| && h[i].mirrored && !h[i].pc.Arrived? && !h[i].pc.Counted?|
            && s.successCount ==
               |set i | 0 <= i < |h| && h[i].mirrored && (h[i].pc.Scored? || h[i].pc.Logged?) && h[i].pc.entry.passed|
            && |s.history| == |set i | 0 <= i < |h| && h[i].mirrored && h[i].pc.Logged?|
  {
    hide Exec, Tally, Counts, Window;
    var h := Exec(moves).handlers;
    InvHolds(moves);
    RequestTally(h);
    MirroredTally(h);
    SuccessTally(h);
    EntryTally(h);
  }

  lemma EntriesHonestStep(s: State, m: Move)
    requires Enabled(s, m) && Honest(s)
    ensures Honest(Next(s, m))
  {
    hide Window;
  }

  /** An entry passed exactly if its status is 200 to 299. */
  ghost predicate HonestEntry(e: Entry) { e.passed <==> 200 <= e.statusCode < 300 }

  /** ... and only the handlers of products and of orders refuse a request. */
  ghost predicate Honest(s: State) {
    && (forall i :: 0 <= i < |s.handlers| && s.handlers[i].pc.Refused? ==>
          s.handlers[i].endpoint.Products? || s.handlers[i].endpoint.Orders?)
    && (forall i :: 0 <= i < |s.history| ==> HonestEntry(s.history[i]))
    && forall i :: 0 <= i < |s.handlers| ==>
         (s.handlers[i].pc.Served? || s.handlers[i].pc.Scored? || s.handlers[i].pc.Logged? ==>
            HonestEntry(s.handlers[i].pc.entry))
  }

  lemma {:induction false} EntriesHonest(moves: seq<Move>)
    ensures Honest(Exec(moves))
    decreases |moves|
  {
    hide Enabled, Next, Honest;
    if moves == [] {
      HonestStart();
    } else {
      var s, m := Exec(moves[..|moves| - 1]), moves[|moves| - 1];
      EntriesHonest(moves[..|moves| - 1]);
      if Enabled(s, m) { EntriesHonestStep(s, m); }
    }
  }

  lemma HonestStart()
    ensures Honest(START)
  {
  }

  /** When there are no more mirrored requests than requests: exactly if the echo handler has taken no
      more mirrored ones than the other handlers have counted without marking them. */
  lemma MirroredWithinRequests(moves: seq<Move>)
    ensures var s := Exec(moves);
            && s.mirroredCount + Tally(s.handlers, Unmarked) == s.requestCount + Tally(s.handlers, EchoedMirrors)
            && (s.mirroredCount <= s.requestCount <==>
                Tally(s.handlers, EchoedMirrors) <= Tally(s.handlers, Unmarked))
  {
    hide Exec, Tally;
    InvHolds(moves);
    TallyOrder(Exec(moves).handlers);
  }

  /** It need not hold: one mirrored request to an unknown path is counted as mirrored but
      not as a request. */
  lemma EchoNotCounted()
    ensures var s := Exec([Move(0, Arrive(Echo, true)), Move(0, CountRequest), Move(0, CountMirrored)]);
            s.mirroredCount == 1 && s.requestCount == 0
  {
    var m := [Move(0, Arrive(Echo, true)), Move(0, CountRequest), Move(0, CountMirrored)];
    assert m[..2] == [m[0], m[1]] && m[..2][..1] == [m[0]];
    assert Exec([m[0]]) == START.(handlers := [Handler(Echo, true, Arrived)]);
    assert Exec(m[..2]) == START.(handlers := [Handler(Echo, true, Counted)]);
  }
}
