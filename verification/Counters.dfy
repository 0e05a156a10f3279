/** All counters of the hook and the agent as one concurrent state machine.  Every packet the hook
    matched and every `Send` goroutine is an agent with its own program counter, and each atomic
    addition is a step of its own. */
module Counters {
  // ---------------------------------------------------------------- agents

  /** Where a matched packet is. */
  datatype Stage =
    | Matched                  // counted by the hook, which has not decided yet
    | NoPayload
    | Overflow                 // no room in the ring, drop not counted yet
    | Dropped
    | Reserved                 // has a slot in the ring, not submitted
    | InRing
    | Handling                 // read, not yet counted by Feed
    | Received                 // counted, not yet looked at
    | Empty                    // no payload bytes
    | Filtering                // rejected by the filter, not counted yet
    | Filtered
    | Appended

  /** What a mirrored request came back with. */
  datatype Result = NetError | Status(code: int)

  datatype Outcome = Outcome2xx | Outcome4xx | Outcome5xx | OutcomeError | Uncounted

  /** The branches of `logResult`; a 1xx, a 3xx or a code below them has no counter. */
  function OutcomeOf(r: Result): Outcome {
    match r
    case NetError => OutcomeError
    case Status(code) =>
      if 200 <= code < 300 then Outcome2xx
      else if 400 <= code < 500 then Outcome4xx
      else if code >= 500 then Outcome5xx
      else Uncounted
  }

  /** Where a `Send` goroutine is. */
  datatype SendPc =
    | Spawned
    | Skipping                 // no rule matches, not counted yet
    | Skipped
    | Sending                  // a rule matches, not counted yet
    | InFlight
    | Answered(r: Result)
    | Logged(r: Result)

  /** Where the feeder goroutine is: `ReadEvents` and the callback it runs. */
  datatype FeederPc =
    | Reading
    | Got(id: nat)
    | Counted(id: nat)
    | Rejecting(id: nat)
    | Parsing
    | Spawning(left: nat)

  datatype State = State(
    matched: nat, drops: nat,
    received: nat, filtered: nat, assembled: nat,
    skipped: nat, sent: nat, ok2: nat, err4: nat, err5: nat, netErr: nat,
    packets: seq<Stage>, ring: seq<nat>, feeder: FeederPc, sends: seq<SendPc>)

  const START := State(0, 0, 0, 0, 0, 0, 0, 0, 0, 0, 0, [], [], Reading, [])

  /** Steps of the program in the kernel, on any of its packets. */
  datatype KernelMove =
    | Match
    | FindNoPayload(i: nat)
    | Reserve(i: nat)
    | FindFull(i: nat)
    | CountDrop(i: nat)
    | Submit(i: nat)

  datatype FeederMove = Read | CountReceived | FindEmpty | Reject | CountFiltered | Accept | Assemble(n: nat) | Spawn

  datatype SendMove = Route(forward: bool) | CountSkipped | CountSent | Respond(r: Result) | CountOutcome

  datatype Move =
    | InKernel(k: KernelMove)
    | InFeeder(f: FeederMove)
    | InSend(j: nat, g: SendMove)

  predicate PacketAt(s: State, i: nat, stage: Stage) { i < |s.packets| && s.packets[i] == stage }

  function MovePacket(s: State, i: nat, stage: Stage): State
    requires i < |s.packets|
  {
    s.(packets := s.packets[i := stage])
  }

  predicate KernelEnabled(capacity: nat, s: State, k: KernelMove) {
    match k
    case Match => true
    case FindNoPayload(i) => PacketAt(s, i, Matched)
    case Reserve(i) => PacketAt(s, i, Matched) && |s.ring| < capacity
    case FindFull(i) => PacketAt(s, i, Matched) && |s.ring| >= capacity
    case CountDrop(i) => PacketAt(s, i, Overflow)
    case Submit(i) => PacketAt(s, i, Reserved)
  }

  function KernelNext(capacity: nat, s: State, k: KernelMove): State
    requires KernelEnabled(capacity, s, k)
  {
    match k
    case Match => s.(matched := s.matched + 1, packets := s.packets + [Matched])
    case FindNoPayload(i) => MovePacket(s, i, NoPayload)
    case Reserve(i) => MovePacket(s, i, Reserved).(ring := s.ring + [i])
    case FindFull(i) => MovePacket(s, i, Overflow)
    case CountDrop(i) => MovePacket(s, i, Dropped).(drops := s.drops + 1)
    case Submit(i) => MovePacket(s, i, InRing)
  }

  /** The reader takes the oldest record, and waits for it if it is not submitted yet. */
  predicate FeederEnabled(s: State, f: FeederMove) {
    match f
    case Read => s.feeder == Reading && |s.ring| > 0 && PacketAt(s, s.ring[0], InRing)
    case CountReceived => s.feeder.Got? && PacketAt(s, s.feeder.id, Handling)
    case FindEmpty => s.feeder.Counted? && PacketAt(s, s.feeder.id, Received)
    case Reject => s.feeder.Counted? && PacketAt(s, s.feeder.id, Received)
    case CountFiltered => s.feeder.Rejecting? && PacketAt(s, s.feeder.id, Filtering)
    case Accept => s.feeder.Counted? && PacketAt(s, s.feeder.id, Received)
    case Assemble(_) => s.feeder == Parsing
    case Spawn => s.feeder.Spawning?
  }

  function FeederNext(s: State, f: FeederMove): State
    requires FeederEnabled(s, f)
  {
    match f
    case Read => MovePacket(s, s.ring[0], Handling).(ring := s.ring[1..], feeder := Got(s.ring[0]))
    case CountReceived =>
      MovePacket(s, s.feeder.id, Received).(received := s.received + 1, feeder := Counted(s.feeder.id))
    case FindEmpty => MovePacket(s, s.feeder.id, Empty).(feeder := Reading)
    case Reject => MovePacket(s, s.feeder.id, Filtering).(feeder := Rejecting(s.feeder.id))
    case CountFiltered => MovePacket(s, s.feeder.id, Filtered).(filtered := s.filtered + 1, feeder := Reading)
    case Accept => MovePacket(s, s.feeder.id, Appended).(feeder := Parsing)
    case Assemble(n) => s.(assembled := s.assembled + n, feeder := Spawning(n))
    case Spawn =>
      if s.feeder.left == 0 then s.(feeder := Reading)
      else s.(sends := s.sends + [Spawned], feeder := Spawning(s.feeder.left - 1))
  }

  predicate SendEnabled(s: State, j: nat, g: SendMove) {
    j < |s.sends| &&
    match g
    case Route(_) => s.sends[j] == Spawned
    case CountSkipped => s.sends[j] == Skipping
    case CountSent => s.sends[j] == Sending
    case Respond(_) => s.sends[j] == InFlight
    case CountOutcome => s.sends[j].Answered?
  }

  /** The goroutine's next program counter. */
  function SendTarget(pc: SendPc, g: SendMove): SendPc {
    match g
    case Route(forward) => if forward then Sending else Skipping
    case CountSkipped => Skipped
    case CountSent => InFlight
    case Respond(r) => Answered(r)
    case CountOutcome => if pc.Answered? then Logged(pc.r) else pc
  }

  function SendNext(s: State, j: nat, g: SendMove): State
    requires SendEnabled(s, j, g)
  {
    var t := s.(sends := s.sends[j := SendTarget(s.sends[j], g)]);
    match g
    case Route(_) => t
    case CountSkipped => t.(skipped := s.skipped + 1)
    case CountSent => t.(sent := s.sent + 1)
    case Respond(_) => t
    case CountOutcome => Bump(t, OutcomeOf(s.sends[j].r))
  }

  function Bump(s: State, o: Outcome): State {
    match o
    case Outcome2xx => s.(ok2 := s.ok2 + 1)
    case Outcome4xx => s.(err4 := s.err4 + 1)
    case Outcome5xx => s.(err5 := s.err5 + 1)
    case OutcomeError => s.(netErr := s.netErr + 1)
    case Uncounted => s
  }

  /** One step; a move that is not enabled does nothing. */
  function Step(capacity: nat, s: State, m: Move): State {
    match m
    case InKernel(k) => if KernelEnabled(capacity, s, k) then KernelNext(capacity, s, k) else s
    case InFeeder(f) => if FeederEnabled(s, f) then FeederNext(s, f) else s
    case InSend(j, g) => if SendEnabled(s, j, g) then SendNext(s, j, g) else s
  }

  /** Any schedule, for a ring of any capacity. */
  function Exec(capacity: nat, moves: seq<Move>): State {
    if moves == [] then START
    else Step(capacity, Exec(capacity, moves[..|moves| - 1]), moves[|moves| - 1])
  }

  // ---------------------------------------------------------------- counting agents

  /** Places a packet can be at, as far as the counters tell them apart. */
  datatype Place =
    | InHook | WithoutPayload | Lost | Ring | Handed | Undecided | Void | Refused | Discarded | Stored

  function PlaceOf(stage: Stage): Place {
    match stage
    case Matched => InHook
    case NoPayload => WithoutPayload
    case Overflow => InHook
    case Dropped => Lost
    case Reserved => Ring
    case InRing => Ring
    case Handling => Handed
    case Received => Undecided
    case Empty => Void
    case Filtering => Refused
    case Filtered => Discarded
    case Appended => Stored
  }

  function One(b: bool): nat { if b then 1 else 0 }

  /** How many packets are at a place. */
  function At(s: seq<Stage>, p: Place): nat {
    if s == [] then 0 else At(s[..|s| - 1], p) + One(PlaceOf(s[|s| - 1]) == p)
  }

  lemma {:induction false} AtUpdate(s: seq<Stage>, i: nat, stage: Stage)
    requires i < |s|
    ensures forall p :: At(s[i := stage], p) == At(s, p) - One(PlaceOf(s[i]) == p) + One(PlaceOf(stage) == p)
    decreases |s|
  {
    hide PlaceOf;
    var t := s[i := stage];
    if i < |s| - 1 {
      AtUpdate(s[..|s| - 1], i, stage);
      assert t[..|s| - 1] == s[..|s| - 1][i := stage];
    } else {
      assert t[..|s| - 1] == s[..|s| - 1];
    }
  }

  /** One packet less at `from`, one more at `to`, place by place. */
  ghost predicate Moved(a: seq<Stage>, b: seq<Stage>, from: Place, to: Place) {
    && At(b, InHook) == At(a, InHook) - One(from == InHook) + One(to == InHook)
    && At(b, WithoutPayload) == At(a, WithoutPayload) - One(from == WithoutPayload) + One(to == WithoutPayload)
    && At(b, Lost) == At(a, Lost) - One(from == Lost) + One(to == Lost)
    && At(b, Ring) == At(a, Ring) - One(from == Ring) + One(to == Ring)
    && At(b, Handed) == At(a, Handed) - One(from == Handed) + One(to == Handed)
    && At(b, Undecided) == At(a, Undecided) - One(from == Undecided) + One(to == Undecided)
    && At(b, Void) == At(a, Void) - One(from == Void) + One(to == Void)
    && At(b, Refused) == At(a, Refused) - One(from == Refused) + One(to == Refused)
    && At(b, Discarded) == At(a, Discarded) - One(from == Discarded) + One(to == Discarded)
    && At(b, Stored) == At(a, Stored) - One(from == Stored) + One(to == Stored)
  }

  lemma MoveCounts(s: seq<Stage>, i: nat, stage: Stage)
    requires i < |s|
    ensures Moved(s, s[i := stage], PlaceOf(s[i]), PlaceOf(stage))
  {
    hide PlaceOf;
    AtUpdate(s, i, stage);
  }

  lemma AtSnoc(s: seq<Stage>, stage: Stage)
    ensures forall p :: At(s + [stage], p) == At(s, p) + One(PlaceOf(stage) == p)
  {
    assert (s + [stage])[..|s|] == s;
  }

  lemma {:induction false} AtTotal(s: seq<Stage>)
    ensures |s| == At(s, InHook) + At(s, WithoutPayload) + At(s, Lost) + At(s, Ring) + At(s, Handed)
                   + At(s, Undecided) + At(s, Void) + At(s, Refused) + At(s, Discarded) + At(s, Stored)
    decreases |s|
  {
    if s != [] { AtTotal(s[..|s| - 1]); }
  }

  /** Places a goroutine can be at. */
  datatype SendPlace = Unrouted | NotForwarded | Outstanding | Ended(o: Outcome)

  function SendPlaceOf(pc: SendPc): SendPlace {
    match pc
    case Spawned => Unrouted
    case Skipping => Unrouted
    case Skipped => NotForwarded
    case Sending => Unrouted
    case InFlight => Outstanding
    case Answered(_) => Outstanding
    case Logged(r) => Ended(OutcomeOf(r))
  }

  /** How many goroutines are at a place. */
  function SendsAt(s: seq<SendPc>, p: SendPlace): nat {
    if s == [] then 0 else SendsAt(s[..|s| - 1], p) + One(SendPlaceOf(s[|s| - 1]) == p)
  }

  lemma {:induction false} SendsUpdate(s: seq<SendPc>, i: nat, pc: SendPc)
    requires i < |s|
    ensures forall p :: SendsAt(s[i := pc], p) ==
                        SendsAt(s, p) - One(SendPlaceOf(s[i]) == p) + One(SendPlaceOf(pc) == p)
    decreases |s|
  {
    hide SendPlaceOf;
    var t := s[i := pc];
    if i < |s| - 1 {
      SendsUpdate(s[..|s| - 1], i, pc);
      assert t[..|s| - 1] == s[..|s| - 1][i := pc];
    } else {
      assert t[..|s| - 1] == s[..|s| - 1];
    }
  }

  lemma SendsSnoc(s: seq<SendPc>, pc: SendPc)
    ensures forall p :: SendsAt(s + [pc], p) == SendsAt(s, p) + One(SendPlaceOf(pc) == p)
  {
    assert (s + [pc])[..|s|] == s;
  }

  lemma EveryPlace(p: SendPlace)
    ensures p in {Unrouted, NotForwarded, Outstanding, Ended(Outcome2xx), Ended(Outcome4xx), Ended(Outcome5xx),
                  Ended(OutcomeError), Ended(Uncounted)}
  {
    if p.Ended? {
      match p.o
      case Outcome2xx =>
      case Outcome4xx =>
      case Outcome5xx =>
      case OutcomeError =>
      case Uncounted =>
    }
  }

  lemma {:induction false} SendsTotal(s: seq<SendPc>)
    ensures |s| == SendsAt(s, Unrouted) + SendsAt(s, NotForwarded) + SendsAt(s, Outstanding)
                   + SendsAt(s, Ended(Outcome2xx)) + SendsAt(s, Ended(Outcome4xx)) + SendsAt(s, Ended(Outcome5xx))
                   + SendsAt(s, Ended(OutcomeError)) + SendsAt(s, Ended(Uncounted))
    decreases |s|
  {
    hide SendPlaceOf;
    if s != [] {
      SendsTotal(s[..|s| - 1]);
      EveryPlace(SendPlaceOf(s[|s| - 1]));
    }
  }

  // ---------------------------------------------------------------- each counter counts what it says

  /** Requests handed to the callback's loop that have no goroutine yet. */
  function Unspawned(s: State): nat { if s.feeder.Spawning? then s.feeder.left else 0 }

  ghost predicate PacketInv(capacity: nat, s: State) {
    var t := s.packets;
    && s.matched == |t|
    && s.drops == At(t, Lost)
    && |s.ring| == At(t, Ring) && |s.ring| <= capacity
    && s.received == At(t, Undecided) + At(t, Void) + At(t, Refused) + At(t, Discarded) + At(t, Stored)
    && s.filtered == At(t, Discarded)
    && At(t, Handed) == One(s.feeder.Got?)
    && At(t, Undecided) == One(s.feeder.Counted?)
    && At(t, Refused) == One(s.feeder.Rejecting?)
    && FeederPoints(s)
  }

  ghost predicate SendInv(s: State) {
    var u := s.sends;
    && s.assembled == |u| + Unspawned(s)
    && s.skipped == SendsAt(u, NotForwarded)
    && s.sent == |u| - SendsAt(u, Unrouted) - SendsAt(u, NotForwarded)
    && s.ok2 == SendsAt(u, Ended(Outcome2xx))
    && s.err4 == SendsAt(u, Ended(Outcome4xx))
    && s.err5 == SendsAt(u, Ended(Outcome5xx))
    && s.netErr == SendsAt(u, Ended(OutcomeError))
  }

  /** A counter's change when a packet moves: one up if it goes to the counted place, one down if it
      leaves it. */
  function Shift(from: Place, to: Place, p: Place): int { One(to == p) - One(from == p) }

  /** `t` is `s` with packet `i` at another stage, every counter and the feeder having followed. */
  ghost predicate Follows(s: State, t: State, i: nat, stage: Stage)
    requires i < |s.packets|
  {
    var from, to := PlaceOf(s.packets[i]), PlaceOf(stage);
    && t.packets == s.packets[i := stage]
    && t.matched == s.matched
    && t.drops == s.drops + Shift(from, to, Lost)
    && |t.ring| == |s.ring| + Shift(from, to, Ring)
    && t.filtered == s.filtered + Shift(from, to, Discarded)
    && t.received == s.received + Shift(from, to, Undecided) + Shift(from, to, Void) + Shift(from, to, Refused)
                     + Shift(from, to, Discarded) + Shift(from, to, Stored)
    && One(t.feeder.Got?) == One(s.feeder.Got?) + Shift(from, to, Handed)
    && One(t.feeder.Counted?) == One(s.feeder.Counted?) + Shift(from, to, Undecided)
    && One(t.feeder.Rejecting?) == One(s.feeder.Rejecting?) + Shift(from, to, Refused)
    && FeederPoints(t)
  }

  ghost predicate FeederPoints(s: State) {
    && (s.feeder.Got? ==> PacketAt(s, s.feeder.id, Handling))
    && (s.feeder.Counted? ==> PacketAt(s, s.feeder.id, Received))
    && (s.feeder.Rejecting? ==> PacketAt(s, s.feeder.id, Filtering))
  }

  lemma FollowsKeeps(capacity: nat, s: State, t: State, i: nat, stage: Stage)
    requires PacketInv(capacity, s) && i < |s.packets|
    requires Follows(s, t, i, stage) && |t.ring| <= capacity
    ensures PacketInv(capacity, t)
  {
    hide At, PlaceOf, PacketAt;
    MoveCounts(s.packets, i, stage);
  }

  lemma DecideStep(capacity: nat, s: State, i: nat, stage: Stage)
    requires PacketInv(capacity, s) && PacketAt(s, i, Matched) && (stage == NoPayload || stage == Overflow)
    ensures PacketInv(capacity, MovePacket(s, i, stage))
  {
    hide At, PacketInv;
    InvReads(capacity, s);
    FollowsKeeps(capacity, s, MovePacket(s, i, stage), i, stage);
  }

  lemma DropStep(capacity: nat, s: State, i: nat)
    requires PacketInv(capacity, s) && KernelEnabled(capacity, s, CountDrop(i))
    ensures PacketInv(capacity, KernelNext(capacity, s, CountDrop(i)))
  {
    hide At, PacketInv;
    InvReads(capacity, s);
    FollowsKeeps(capacity, s, KernelNext(capacity, s, CountDrop(i)), i, Dropped);
  }

  lemma RingStep(capacity: nat, s: State, k: KernelMove)
    requires PacketInv(capacity, s) && (k.Reserve? || k.Submit?) && KernelEnabled(capacity, s, k)
    ensures PacketInv(capacity, KernelNext(capacity, s, k))
  {
    hide At, PacketInv;
    InvReads(capacity, s);
    FollowsKeeps(capacity, s, KernelNext(capacity, s, k), k.i, if k.Reserve? then Reserved else InRing);
  }

  lemma KernelStep(capacity: nat, s: State, k: KernelMove)
    requires PacketInv(capacity, s) && KernelEnabled(capacity, s, k)
    ensures PacketInv(capacity, KernelNext(capacity, s, k))
  {
    hide PacketInv;
    match k
    case Match => MatchStep(capacity, s);
    case FindNoPayload(i) => DecideStep(capacity, s, i, NoPayload);
    case FindFull(i) => DecideStep(capacity, s, i, Overflow);
    case CountDrop(i) => DropStep(capacity, s, i);
    case Reserve(_) => RingStep(capacity, s, k);
    case Submit(_) => RingStep(capacity, s, k);
  }

  lemma InvReads(capacity: nat, s: State)
    requires PacketInv(capacity, s)
    ensures FeederPoints(s) && |s.ring| <= capacity
  {
  }

  lemma MatchStep(capacity: nat, s: State)
    requires PacketInv(capacity, s)
    ensures PacketInv(capacity, s.(matched := s.matched + 1, packets := s.packets + [Matched]))
  {
    hide At;
    AtSnoc(s.packets, Matched);
  }

  lemma ReadStep(capacity: nat, s: State)
    requires PacketInv(capacity, s) && FeederEnabled(s, Read)
    ensures PacketInv(capacity, FeederNext(s, Read))
  {
    hide At, PacketInv;
    InvReads(capacity, s);
    FollowsKeeps(capacity, s, FeederNext(s, Read), s.ring[0], Handling);
  }

  lemma ReceiveStep(capacity: nat, s: State)
    requires PacketInv(capacity, s) && FeederEnabled(s, CountReceived)
    ensures PacketInv(capacity, FeederNext(s, CountReceived))
  {
    hide At, PacketInv;
    InvReads(capacity, s);
    FollowsKeeps(capacity, s, FeederNext(s, CountReceived), s.feeder.id, Received);
  }

  /** The stage at which the feeder leaves a packet it has looked at. */
  function Verdict(f: FeederMove): Stage {
    if f.FindEmpty? then Empty else if f.Reject? then Filtering else if f.CountFiltered? then Filtered else Appended
  }

  lemma VerdictStep(capacity: nat, s: State, f: FeederMove)
    requires f.FindEmpty? || f.Accept?
    requires PacketInv(capacity, s) && FeederEnabled(s, f)
    ensures PacketInv(capacity, FeederNext(s, f))
  {
    hide At, PacketInv;
    InvReads(capacity, s);
    FollowsKeeps(capacity, s, FeederNext(s, f), s.feeder.id, Verdict(f));
  }

  lemma RefuseStep(capacity: nat, s: State, f: FeederMove)
    requires f.Reject? || f.CountFiltered?
    requires PacketInv(capacity, s) && FeederEnabled(s, f)
    ensures PacketInv(capacity, FeederNext(s, f))
  {
    hide At, PacketInv;
    InvReads(capacity, s);
    FollowsKeeps(capacity, s, FeederNext(s, f), s.feeder.id, Verdict(f));
  }

  lemma FeederStep(capacity: nat, s: State, f: FeederMove)
    requires PacketInv(capacity, s) && FeederEnabled(s, f)
    ensures PacketInv(capacity, FeederNext(s, f))
  {
    hide At;
    match f
    case Read => ReadStep(capacity, s);
    case CountReceived => ReceiveStep(capacity, s);
    case Assemble(_) =>
    case Spawn =>
    case Reject => RefuseStep(capacity, s, f);
    case CountFiltered => RefuseStep(capacity, s, f);
    case _ => VerdictStep(capacity, s, f);
  }

  lemma SendKeepsPackets(capacity: nat, s: State, j: nat, g: SendMove)
    requires PacketInv(capacity, s) && SendEnabled(s, j, g)
    ensures PacketInv(capacity, SendNext(s, j, g))
  {
    hide At, OutcomeOf, SendTarget;
  }

  lemma OthersKeepSends(capacity: nat, s: State, m: Move)
    requires !m.InSend? && SendInv(s)
    ensures SendInv(Step(capacity, s, m))
  {
    hide SendsAt;
    if m.InFeeder? && m.f.Spawn? { SendsSnoc(s.sends, Spawned); }
  }

  lemma SendStep(s: State, j: nat, g: SendMove)
    requires SendInv(s) && SendEnabled(s, j, g)
    ensures SendInv(SendNext(s, j, g))
  {
    hide SendsAt, OutcomeOf;
    SendsUpdate(s.sends, j, SendTarget(s.sends[j], g));
  }

  lemma {:induction false} InvHolds(capacity: nat, moves: seq<Move>)
    ensures PacketInv(capacity, Exec(capacity, moves)) && SendInv(Exec(capacity, moves))
    decreases |moves|
  {
    hide PacketInv, SendInv, KernelEnabled, KernelNext, FeederEnabled, FeederNext, SendEnabled, SendNext;
    if moves == [] {
      StartInv(capacity);
    } else {
      InvHolds(capacity, moves[..|moves| - 1]);
      var s := Exec(capacity, moves[..|moves| - 1]);
      var m := moves[|moves| - 1];
      if !m.InSend? { OthersKeepSends(capacity, s, m); }
      match m
      case InKernel(k) => if KernelEnabled(capacity, s, k) { KernelStep(capacity, s, k); }
      case InFeeder(f) => if FeederEnabled(s, f) { FeederStep(capacity, s, f); }
      case InSend(j, g) =>
        if SendEnabled(s, j, g) {
          SendKeepsPackets(capacity, s, j, g);
          SendStep(s, j, g);
        }
    }
  }

  lemma StartInv(capacity: nat)
    ensures PacketInv(capacity, START) && SendInv(START)
  {
  }

  // ---------------------------------------------------------------- conservation

  /** In every reachable state each matched packet is accounted for: in the hook, without payload,
      dropped, in the ring, with the feeder, or received; and each received one is being decided on,
      empty, filtered or appended.  The feeder has one packet at most. */
  lemma PacketConservation(capacity: nat, moves: seq<Move>)
    ensures var s := Exec(capacity, moves);
            var t := s.packets;
            && s.matched == At(t, InHook) + At(t, WithoutPayload) + s.drops + |s.ring| + At(t, Handed) + s.received
            && s.received == At(t, Undecided) + At(t, Refused) + At(t, Void) + s.filtered + At(t, Stored)
            && At(t, Handed) + At(t, Undecided) + At(t, Refused) <= 1
            && |s.ring| <= capacity
  {
    hide At, Exec;
    InvHolds(capacity, moves);
    AtTotal(Exec(capacity, moves).packets);
  }

  /** In every reachable state each assembled request is accounted for: not yet routed, skipped or
      sent; and each sent one is in flight, counted under its outcome, or one of the answers that
      have no counter. */
  lemma MirrorConservation(capacity: nat, moves: seq<Move>)
    ensures var s := Exec(capacity, moves);
            var u := s.sends;
            && s.assembled == Unspawned(s) + SendsAt(u, Unrouted) + s.skipped + s.sent
            && s.sent == SendsAt(u, Outstanding) + s.ok2 + s.err4 + s.err5 + s.netErr + SendsAt(u, Ended(Uncounted))
  {
    hide SendsAt, Exec;
    InvHolds(capacity, moves);
    SendsTotal(Exec(capacity, moves).sends);
  }

  // ---------------------------------------------------------------- what each counter counts

  lemma {:induction false} SendsAtAre(u: seq<SendPc>, p: SendPlace)
    ensures SendsAt(u, p) == |set j | 0 <= j < |u| && SendPlaceOf(u[j]) == p|
    decreases |u|
  {
    hide SendPlaceOf;
    if u != [] {
      SendsAtAre(u[..|u| - 1], p);
      SendPlacesLast(u, p);
    }
  }

  lemma SendPlacesLast(u: seq<SendPc>, p: SendPlace)
    requires u != []
    ensures var most, last := u[..|u| - 1], |u| - 1;
            |set j | 0 <= j < |u| && SendPlaceOf(u[j]) == p| ==
            |set j | 0 <= j < |most| && SendPlaceOf(most[j]) == p| + One(SendPlaceOf(u[last]) == p)
  {
    hide SendPlaceOf;
    var most, last := u[..|u| - 1], |u| - 1;
    assert (set j | 0 <= j < |u| && SendPlaceOf(u[j]) == p) ==
           (set j | 0 <= j < |most| && SendPlaceOf(most[j]) == p) + if SendPlaceOf(u[last]) == p then {last} else {};
  }

  /** The goroutines whose request was answered with a status from `lo` up to `hi`, and logged. */
  function LoggedStatuses(u: seq<SendPc>, lo: int, hi: int): set<int> {
    set j | 0 <= j < |u| && u[j].Logged? && u[j].r.Status? && lo <= u[j].r.code < hi
  }

  lemma CountedOutcome(u: seq<SendPc>)
    ensures SendsAt(u, Ended(Outcome2xx)) == |LoggedStatuses(u, 200, 300)|
    ensures SendsAt(u, Ended(Outcome4xx)) == |LoggedStatuses(u, 400, 500)|
    ensures SendsAt(u, Ended(Outcome5xx)) ==
            |set j | 0 <= j < |u| && u[j].Logged? && u[j].r.Status? && u[j].r.code >= 500|
    ensures SendsAt(u, Ended(OutcomeError)) == |set j | 0 <= j < |u| && u[j] == Logged(NetError)|
    ensures SendsAt(u, Ended(Uncounted)) ==
            |set j | 0 <= j < |u| && u[j].Logged? && u[j].r.Status? && (u[j].r.code < 200 || 300 <= u[j].r.code < 400)|
  {
    hide SendsAt;
    SendsAtAre(u, Ended(Outcome2xx));
    SendsAtAre(u, Ended(Outcome4xx));
    SendsAtAre(u, Ended(Outcome5xx));
    SendsAtAre(u, Ended(OutcomeError));
    SendsAtAre(u, Ended(Uncounted));
    assert (set j | 0 <= j < |u| && SendPlaceOf(u[j]) == Ended(Outcome2xx)) == LoggedStatuses(u, 200, 300);
    assert (set j | 0 <= j < |u| && SendPlaceOf(u[j]) == Ended(Outcome4xx)) == LoggedStatuses(u, 400, 500);
    assert (set j | 0 <= j < |u| && SendPlaceOf(u[j]) == Ended(Outcome5xx)) ==
           (set j | 0 <= j < |u| && u[j].Logged? && u[j].r.Status? && u[j].r.code >= 500);
    assert (set j | 0 <= j < |u| && SendPlaceOf(u[j]) == Ended(OutcomeError)) ==
           (set j | 0 <= j < |u| && u[j] == Logged(NetError));
    assert (set j | 0 <= j < |u| && SendPlaceOf(u[j]) == Ended(Uncounted)) ==
           (set j | 0 <= j < |u| && u[j].Logged? && u[j].r.Status? && (u[j].r.code < 200 || 300 <= u[j].r.code < 400));
  }

  lemma CountedRouting(u: seq<SendPc>)
    ensures SendsAt(u, NotForwarded) == |set j | 0 <= j < |u| && u[j] == Skipped|
    ensures SendsAt(u, Outstanding) == |set j | 0 <= j < |u| && (u[j].InFlight? || u[j].Answered?)|
    ensures SendsAt(u, Unrouted) == |set j | 0 <= j < |u| && (u[j].Spawned? || u[j].Skipping? || u[j].Sending?)|
  {
    hide SendsAt;
    SendsAtAre(u, NotForwarded);
    SendsAtAre(u, Outstanding);
    SendsAtAre(u, Unrouted);
    assert (set j | 0 <= j < |u| && SendPlaceOf(u[j]) == NotForwarded) == (set j | 0 <= j < |u| && u[j] == Skipped);
    assert (set j | 0 <= j < |u| && SendPlaceOf(u[j]) == Outstanding) ==
           (set j | 0 <= j < |u| && (u[j].InFlight? || u[j].Answered?));
    assert (set j | 0 <= j < |u| && SendPlaceOf(u[j]) == Unrouted) ==
           (set j | 0 <= j < |u| && (u[j].Spawned? || u[j].Skipping? || u[j].Sending?));
  }

  /** In every reachable state, every outcome counter is the number of goroutines that have logged an
      answer of its kind: 200 to 299, 400 to 499, 500 and above, or none at all.  Those with another
      status are in no counter. */
  lemma OutcomesCounted(capacity: nat, moves: seq<Move>)
    ensures var s := Exec(capacity, moves);
            var u := s.sends;
            && s.ok2 == |LoggedStatuses(u, 200, 300)|
            && s.err4 == |LoggedStatuses(u, 400, 500)|
            && s.err5 == |set j | 0 <= j < |u| && u[j].Logged? && u[j].r.Status? && u[j].r.code >= 500|
            && s.netErr == |set j | 0 <= j < |u| && u[j] == Logged(NetError)|
            && SendsAt(u, Ended(Uncounted)) ==
               |set j | 0 <= j < |u| && u[j].Logged? && u[j].r.Status? && (u[j].r.code < 200 || 300 <= u[j].r.code < 400)|
  {
    hide Exec, SendsAt, LoggedStatuses;
    InvHolds(capacity, moves);
    CountedOutcome(Exec(capacity, moves).sends);
  }

  /** Likewise skipped counts the goroutines without a rule, and assembled and sent differ by them and
      by those that are not counted yet. */
  lemma RoutesCounted(capacity: nat, moves: seq<Move>)
    ensures var s := Exec(capacity, moves);
            var u := s.sends;
            && s.skipped == |set j | 0 <= j < |u| && u[j] == Skipped|
            && s.sent == |u| - s.skipped - |set j | 0 <= j < |u| && (u[j].Spawned? || u[j].Skipping? || u[j].Sending?)|
            && s.assembled == |u| + if s.feeder.Spawning? then s.feeder.left else 0
  {
    hide Exec, SendsAt;
    InvHolds(capacity, moves);
    CountedRouting(Exec(capacity, moves).sends);
  }

  lemma {:induction false} AtAre(t: seq<Stage>, p: Place)
    ensures At(t, p) == |set i | 0 <= i < |t| && PlaceOf(t[i]) == p|
    decreases |t|
  {
    hide PlaceOf;
    if t != [] {
      AtAre(t[..|t| - 1], p);
      PlacesLast(t, p);
    }
  }

  lemma PlacesLast(t: seq<Stage>, p: Place)
    requires t != []
    ensures var most, last := t[..|t| - 1], |t| - 1;
            |set i | 0 <= i < |t| && PlaceOf(t[i]) == p| ==
            |set i | 0 <= i < |most| && PlaceOf(most[i]) == p| + One(PlaceOf(t[last]) == p)
  {
    hide PlaceOf;
    var most, last := t[..|t| - 1], |t| - 1;
    assert (set i | 0 <= i < |t| && PlaceOf(t[i]) == p) ==
           (set i | 0 <= i < |most| && PlaceOf(most[i]) == p) + if PlaceOf(t[last]) == p then {last} else {};
  }

  lemma CountedPackets(t: seq<Stage>)
    ensures At(t, Lost) == |set i | 0 <= i < |t| && t[i] == Dropped|
    ensures At(t, Ring) == |set i | 0 <= i < |t| && (t[i] == Reserved || t[i] == InRing)|
    ensures At(t, Discarded) == |set i | 0 <= i < |t| && t[i] == Filtered|
  {
    hide At;
    AtAre(t, Lost);
    AtAre(t, Ring);
    AtAre(t, Discarded);
    assert (set i | 0 <= i < |t| && PlaceOf(t[i]) == Lost) == (set i | 0 <= i < |t| && t[i] == Dropped);
    assert (set i | 0 <= i < |t| && PlaceOf(t[i]) == Ring) ==
           (set i | 0 <= i < |t| && (t[i] == Reserved || t[i] == InRing));
    assert (set i | 0 <= i < |t| && PlaceOf(t[i]) == Discarded) == (set i | 0 <= i < |t| && t[i] == Filtered);
  }

  lemma CountedReceived(t: seq<Stage>)
    ensures At(t, InHook) + At(t, WithoutPayload) == |set i | 0 <= i < |t| && t[i] in {Matched, Overflow, NoPayload}|
    ensures At(t, Handed) == |set i | 0 <= i < |t| && t[i] == Handling|
  {
    hide At;
    AtAre(t, InHook);
    AtAre(t, WithoutPayload);
    AtAre(t, Handed);
    var hook, bare := set i | 0 <= i < |t| && PlaceOf(t[i]) == InHook, set i | 0 <= i < |t| && PlaceOf(t[i]) == WithoutPayload;
    assert hook !! bare && hook + bare == set i | 0 <= i < |t| && t[i] in {Matched, Overflow, NoPayload};
    assert (set i | 0 <= i < |t| && PlaceOf(t[i]) == Handed) == (set i | 0 <= i < |t| && t[i] == Handling);
  }

  /** The packet counters, in the same way: all matched packets, the dropped and the filtered ones; and
      received are those neither in the hook, nor without payload, dropped, in the ring or just read. */
  lemma PacketsCounted(capacity: nat, moves: seq<Move>)
    ensures var s := Exec(capacity, moves);
            var t := s.packets;
            && s.matched == |t|
            && s.drops == |set i | 0 <= i < |t| && t[i] == Dropped|
            && |s.ring| == |set i | 0 <= i < |t| && (t[i] == Reserved || t[i] == InRing)|
            && s.filtered == |set i | 0 <= i < |t| && t[i] == Filtered|
            && s.received == |t| - s.drops - |s.ring| - |set i | 0 <= i < |t| && t[i] == Handling|
                             - |set i | 0 <= i < |t| && t[i] in {Matched, Overflow, NoPayload}|
  {
    hide Exec, At;
    InvHolds(capacity, moves);
    PacketConservation(capacity, moves);
    CountedPackets(Exec(capacity, moves).packets);
    CountedReceived(Exec(capacity, moves).packets);
  }

  // ---------------------------------------------------------------- the ring

  /** The packets that got a slot, in the order in which they did. */
  function ReservedIn(capacity: nat, moves: seq<Move>): seq<nat> {
    if moves == [] then []
    else
      var s, m := Exec(capacity, moves[..|moves| - 1]), moves[|moves| - 1];
      ReservedIn(capacity, moves[..|moves| - 1])
      + if m.InKernel? && m.k.Reserve? && KernelEnabled(capacity, s, m.k) then [m.k.i] else []
  }

  /** The packets the feeder took up, in the order in which it did. */
  function TakenIn(capacity: nat, moves: seq<Move>): seq<nat> {
    if moves == [] then []
    else
      var s := Exec(capacity, moves[..|moves| - 1]);
      var t := Step(capacity, s, moves[|moves| - 1]);
      TakenIn(capacity, moves[..|moves| - 1]) + if t.feeder.Got? && !s.feeder.Got? then [t.feeder.id] else []
  }

  /** The ring is first in, first out: the packets taken up and those in the ring are the packets that
      got a slot, in that order. */
  lemma {:induction false} RingIsFifo(capacity: nat, moves: seq<Move>)
    ensures TakenIn(capacity, moves) + Exec(capacity, moves).ring == ReservedIn(capacity, moves)
    decreases |moves|
  {
    hide PacketAt, SendNext, SendEnabled;
    if moves != [] {
      var s, m := Exec(capacity, moves[..|moves| - 1]), moves[|moves| - 1];
      var taken := TakenIn(capacity, moves[..|moves| - 1]);
      RingIsFifo(capacity, moves[..|moves| - 1]);
      if m.InSend? { SendKeepsRing(capacity, s, m); }
      assert taken + [] == taken;
      if m.InKernel? && m.k.Reserve? {
        assert taken + s.ring + [m.k.i] == taken + (s.ring + [m.k.i]);
      } else if m.InFeeder? && m.f.Read? && FeederEnabled(s, m.f) {
        assert taken + [s.ring[0]] + s.ring[1..] == taken + s.ring;
      }
    }
  }

  lemma SendKeepsRing(capacity: nat, s: State, m: Move)
    requires m.InSend?
    ensures Step(capacity, s, m).ring == s.ring && Step(capacity, s, m).feeder == s.feeder
  {
    hide OutcomeOf;
  }

  /** A packet overflows only while the ring is full, and gets a slot only while it is not. */
  lemma RoomDecides(capacity: nat, moves: seq<Move>, n: nat, i: nat)
    requires n < |moves| && i < |Exec(capacity, moves[..n]).packets|
    ensures i < |Exec(capacity, moves[..n + 1]).packets|
    ensures var s, t := Exec(capacity, moves[..n]), Exec(capacity, moves[..n + 1]);
            && (s.packets[i] != Overflow && t.packets[i] == Overflow ==> |s.ring| >= capacity)
            && (s.packets[i] != Reserved && t.packets[i] == Reserved ==> |s.ring| < capacity)
  {
    hide Exec, SendTarget, OutcomeOf;
    assert moves[..n + 1] == moves[..n] + [moves[n]];
    ExecSnoc(capacity, moves[..n], moves[n]);
  }

  // ---------------------------------------------------------------- the fate of a request

  /** Where a goroutine can be that was at `a` before. */
  predicate Later(a: SendPc, b: SendPc) {
    match a
    case Spawned => true
    case Skipping => b.Skipping? || b.Skipped?
    case Skipped => b.Skipped?
    case Sending => b.Sending? || b.InFlight? || b.Answered? || b.Logged?
    case InFlight => b.InFlight? || b.Answered? || b.Logged?
    case Answered(r) => b == Answered(r) || b == Logged(r)
    case Logged(r) => b == Logged(r)
  }

  lemma LaterStep(capacity: nat, s: State, m: Move, j: nat)
    requires j < |s.sends|
    ensures var t := Step(capacity, s, m);
            j < |t.sends| && Later(s.sends[j], t.sends[j])
  {
    hide OutcomeOf, PacketAt;
  }

  lemma {:induction false} LaterOn(capacity: nat, moves: seq<Move>, n: nat, m: nat, j: nat)
    requires n <= m <= |moves| && j < |Exec(capacity, moves[..n]).sends|
    ensures j < |Exec(capacity, moves[..m]).sends|
    ensures Later(Exec(capacity, moves[..n]).sends[j], Exec(capacity, moves[..m]).sends[j])
    decreases m
  {
    hide Step;
    if n < m {
      LaterOn(capacity, moves, n, m - 1, j);
      assert moves[..m][..m - 1] == moves[..m - 1];
      LaterStep(capacity, Exec(capacity, moves[..m - 1]), moves[m - 1], j);
    }
  }

  /** A request without a rule is never sent, one with a rule is never skipped; and what is logged for a
      request is the answer it got. */
  lemma RequestFate(capacity: nat, moves: seq<Move>, n: nat, j: nat)
    requires n < |moves| && moves[n].InSend? && moves[n].j == j
    requires SendEnabled(Exec(capacity, moves[..n]), j, moves[n].g)
    ensures j < |Exec(capacity, moves).sends|
    ensures var pc := Exec(capacity, moves).sends[j];
            match moves[n].g
            case Route(forward) =>
              if forward then pc.Sending? || pc.InFlight? || pc.Answered? || pc.Logged? else pc.Skipping? || pc.Skipped?
            case CountSkipped => pc == Skipped
            case CountSent => pc.InFlight? || pc.Answered? || pc.Logged?
            case Respond(r) => pc == Answered(r) || pc == Logged(r)
            case CountOutcome =>
              var was := Exec(capacity, moves[..n]).sends[j]; was.Answered? && pc == Logged(was.r)
  {
    hide Exec, OutcomeOf;
    assert moves[..n + 1] == moves[..n] + [moves[n]];
    ExecSnoc(capacity, moves[..n], moves[n]);
    LaterOn(capacity, moves, n + 1, |moves|, j);
    assert moves[..|moves|] == moves;
  }

  // ---------------------------------------------------------------- the printed line

  /** The figures of a line that this machine has, in the order in which they are loaded. */
  datatype Line = Line(recv: nat, drop: nat, assm: nat, skip: nat, sent: nat,
                       ok2: nat, err4: nat, err5: nat, netErr: nat)

  /** The points of a schedule at which the nine loads happen, one after the other. */
  predicate LoadTimes(moves: seq<Move>, ts: seq<nat>) {
    |ts| == 9 && ts[8] <= |moves| && forall i, j :: 0 <= i <= j < 9 ==> ts[i] <= ts[j]
  }

  /** The line is no snapshot: each counter is loaded at a point of its own. */
  function Printed(capacity: nat, moves: seq<Move>, ts: seq<nat>): Line
    requires LoadTimes(moves, ts)
  {
    Line(Exec(capacity, moves[..ts[0]]).received, Exec(capacity, moves[..ts[1]]).filtered,
         Exec(capacity, moves[..ts[2]]).assembled, Exec(capacity, moves[..ts[3]]).skipped,
         Exec(capacity, moves[..ts[4]]).sent, Exec(capacity, moves[..ts[5]]).ok2,
         Exec(capacity, moves[..ts[6]]).err4, Exec(capacity, moves[..ts[7]]).err5,
         Exec(capacity, moves[..ts[8]]).netErr)
  }

  /** No counter ever goes down. */
  ghost predicate Grew(s: State, t: State) {
    && s.matched <= t.matched && s.drops <= t.drops
    && s.received <= t.received && s.filtered <= t.filtered && s.assembled <= t.assembled
    && s.skipped <= t.skipped && s.sent <= t.sent
    && s.ok2 <= t.ok2 && s.err4 <= t.err4 && s.err5 <= t.err5 && s.netErr <= t.netErr
  }

  lemma StepGrows(capacity: nat, s: State, m: Move)
    ensures Grew(s, Step(capacity, s, m))
  {
    hide OutcomeOf, PacketAt;
  }

  lemma {:induction false} CountersGrow(capacity: nat, moves: seq<Move>, i: nat, j: nat)
    requires i <= j <= |moves|
    ensures Grew(Exec(capacity, moves[..i]), Exec(capacity, moves[..j]))
    decreases j
  {
    hide Step;
    if i < j {
      CountersGrow(capacity, moves, i, j - 1);
      assert moves[..j][..j - 1] == moves[..j - 1];
      StepGrows(capacity, Exec(capacity, moves[..j - 1]), moves[j - 1]);
    }
  }

  /** What a printed line can show, whatever happens between its loads.  The outcomes together may
      exceed the printed `sent`, but not what has been sent by the time of the last load; skipped and
      sent may exceed the printed `assembled`, but not what has been assembled when `sent` is loaded;
      and the drops not what has been received when they are loaded. */
  lemma PrintedOvershoot(capacity: nat, moves: seq<Move>, ts: seq<nat>)
    requires LoadTimes(moves, ts)
    ensures var l := Printed(capacity, moves, ts);
            && l.ok2 + l.err4 + l.err5 + l.netErr <= Exec(capacity, moves[..ts[8]]).sent
            && l.skip + l.sent <= Exec(capacity, moves[..ts[4]]).assembled
            && l.drop <= Exec(capacity, moves[..ts[1]]).received
  {
    hide Exec, At, SendsAt, Unspawned;
    CountersGrow(capacity, moves, ts[5], ts[8]);
    CountersGrow(capacity, moves, ts[6], ts[8]);
    CountersGrow(capacity, moves, ts[7], ts[8]);
    CountersGrow(capacity, moves, ts[3], ts[4]);
    MirrorConservation(capacity, moves[..ts[8]]);
    MirrorConservation(capacity, moves[..ts[4]]);
    PacketConservation(capacity, moves[..ts[1]]);
  }

  /** Exactly when a line is consistent: the outcomes counted between the loads are no more than the
      requests that were in flight, or went uncounted, when `sent` was loaded; and likewise for
      assembled against skipped and sent, and for received against dropped. */
  lemma PrintedConsistentIff(capacity: nat, moves: seq<Move>, ts: seq<nat>)
    requires LoadTimes(moves, ts)
    ensures var l, s := Printed(capacity, moves, ts), Exec(capacity, moves[..ts[4]]);
            l.ok2 + l.err4 + l.err5 + l.netErr <= l.sent <==>
            (l.ok2 - s.ok2) + (l.err4 - s.err4) + (l.err5 - s.err5) + (l.netErr - s.netErr) <=
            SendsAt(s.sends, Outstanding) + SendsAt(s.sends, Ended(Uncounted))
    ensures var l, s := Printed(capacity, moves, ts), Exec(capacity, moves[..ts[2]]);
            l.skip + l.sent <= l.assm <==>
            (l.skip - s.skipped) + (l.sent - s.sent) <= Unspawned(s) + SendsAt(s.sends, Unrouted)
    ensures var l, s := Printed(capacity, moves, ts), Exec(capacity, moves[..ts[0]]);
            l.drop <= l.recv <==>
            l.drop - s.filtered <=
            At(s.packets, Undecided) + At(s.packets, Refused) + At(s.packets, Void) + At(s.packets, Stored)
  {
    hide Exec, At, SendsAt, Unspawned;
    MirrorConservation(capacity, moves[..ts[4]]);
    MirrorConservation(capacity, moves[..ts[2]]);
    PacketConservation(capacity, moves[..ts[0]]);
  }

  /** So a line printed while nothing is being sent shows no more outcomes than requests sent. */
  lemma QuietLineConsistent(capacity: nat, moves: seq<Move>, ts: seq<nat>)
    requires LoadTimes(moves, ts)
    requires Exec(capacity, moves[..ts[4]]).sent == Exec(capacity, moves[..ts[8]]).sent
    ensures var l := Printed(capacity, moves, ts); l.ok2 + l.err4 + l.err5 + l.netErr <= l.sent
  {
    hide Exec;
    PrintedOvershoot(capacity, moves, ts);
  }

  lemma ExecSnoc(capacity: nat, moves: seq<Move>, m: Move)
    ensures Exec(capacity, moves + [m]) == Step(capacity, Exec(capacity, moves), m)
  {
    assert (moves + [m])[..|moves + [m]| - 1] == moves;
  }

  /** One packet with one request, routed but not yet counted as sent. */
  const UNTIL_ROUTED := [InKernel(Match), InKernel(Reserve(0)), InKernel(Submit(0)), InFeeder(Read),
                         InFeeder(CountReceived), InFeeder(Accept), InFeeder(Assemble(1)), InFeeder(Spawn),
                         InSend(0, Route(true))]

  const ROUTED := State(1, 0, 1, 0, 1, 0, 0, 0, 0, 0, 0, [Appended], [], Spawning(0), [Sending])

  const UNTIL_LOGGED := [InSend(0, CountSent), InSend(0, Respond(Status(200))), InSend(0, CountOutcome)]

  const RECEIVED := State(1, 0, 1, 0, 0, 0, 0, 0, 0, 0, 0, [Received], [], Counted(0), [])

  lemma ReceivedRun(capacity: nat)
    requires capacity > 0
    ensures Exec(capacity, UNTIL_ROUTED[..5]) == RECEIVED
  {
    hide Exec;
    var m := UNTIL_ROUTED;
    ExecStart(capacity);
    var s1 := START.(matched := 1, packets := [Matched]);
    var s2 := s1.(packets := [Reserved], ring := [0]);
    var s3 := s2.(packets := [InRing]);
    var s4 := s3.(packets := [Handling], ring := [], feeder := Got(0));
    Advance(capacity, m, 0, START, s1);
    Advance(capacity, m, 1, s1, s2);
    Advance(capacity, m, 2, s2, s3);
    Advance(capacity, m, 3, s3, s4);
    Advance(capacity, m, 4, s4, RECEIVED);
  }

  lemma RoutedRun(capacity: nat)
    requires capacity > 0
    ensures Exec(capacity, UNTIL_ROUTED) == ROUTED
  {
    hide Exec;
    var m := UNTIL_ROUTED;
    ReceivedRun(capacity);
    var s6 := RECEIVED.(packets := [Appended], feeder := Parsing);
    var s7 := s6.(assembled := 1, feeder := Spawning(1));
    var s8 := s7.(sends := [Spawned], feeder := Spawning(0));
    Advance(capacity, m, 5, RECEIVED, s6);
    Advance(capacity, m, 6, s6, s7);
    Advance(capacity, m, 7, s7, s8);
    Advance(capacity, m, 8, s8, ROUTED);
    assert m[..9] == m;
  }

  lemma ExecStart(capacity: nat)
    ensures Exec(capacity, []) == START
  {
  }

  lemma Advance(capacity: nat, m: seq<Move>, i: nat, s: State, t: State)
    requires i < |m| && Exec(capacity, m[..i]) == s && Step(capacity, s, m[i]) == t
    ensures Exec(capacity, m[..i + 1]) == t
  {
    assert m[..i + 1] == m[..i] + [m[i]];
    ExecSnoc(capacity, m[..i], m[i]);
  }

  /** So a printed line can show more outcomes than requests sent, even if its outcomes are loaded
      together. */
  lemma PrintedLineCanOvershoot(capacity: nat)
    requires capacity > 0
    ensures var moves, ts := UNTIL_ROUTED + UNTIL_LOGGED, [9, 9, 9, 9, 9, 12, 12, 12, 12];
            LoadTimes(moves, ts) && Printed(capacity, moves, ts) == Line(1, 0, 1, 0, 0, 1, 0, 0, 0)
  {
    hide Exec;
    RoutedRun(capacity);
    var m := UNTIL_ROUTED + UNTIL_LOGGED;
    var s1 := ROUTED.(sent := 1, sends := [InFlight]);
    var s2 := s1.(sends := [Answered(Status(200))]);
    var s3 := s2.(ok2 := 1, sends := [Logged(Status(200))]);
    assert m[..9] == UNTIL_ROUTED;
    assert m[9] == InSend(0, CountSent) && m[10] == InSend(0, Respond(Status(200)));
    Advance(capacity, m, 9, ROUTED, s1);
    Advance(capacity, m, 10, s1, s2);
    Advance(capacity, m, 11, s2, s3);
  }
}
