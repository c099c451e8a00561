// One connection shared by any number of requester tasks: the lock, the single pending
// slot, the reader task, a daemon that answers in order, and a transport that cuts the
// stream into chunks. A run is a sequence of actions; each action is what one party does
// between two await points.

module Session {
  import opened Prelude
  import opened Bytes
  import opened Protocol
  import opened Requests
  import opened Wire
  import opened Answers

  const EVENT_BUFFER := 64

  /** A requester: outside _request, waiting for the lock, inside send with `sent` bytes
      handed over, or waiting for its _Pending to be done. */
  datatype Task = Idle | AwaitLock(request: Request) | Sending(p: nat, sent: nat) | Waiting(p: nat)

  /** A _Pending object; `outcome` is set exactly when its `done` event is. */
  datatype Pending = Pending(request: Request, handler: Handler, outcome: Option<Outcome>)

  /** connect: before and during the version query, and after it. */
  datatype Phase = Connecting | Negotiating | Open

  datatype State = State(
    tasks: seq<Task>,
    lock: Option<nat>,
    pending: Option<nat>,
    pendings: seq<Pending>,
    returned: map<nat, Outcome>,
    closed: bool,
    phase: Phase,
    version: nat,
    minVersion: nat,
    // The reader task, and the _Pending whose handler it is in
    reader: Reader,
    bound: Option<nat>,
    // Transport
    toDaemon: Octets,
    fromDaemon: Octets,
    sendBroken: bool,
    // Daemon: the requests it has read, the answer chosen for each, and the reply packets
    // of the last answer still to send
    requests: seq<Request>,
    answers: seq<Answer>,
    left: seq<Octets>,
    // Every packet the daemon has put on the wire
    emitted: seq<Packet>,
    // Events: all that were offered, those in the buffer, those the subscriber took
    offered: seq<Event>,
    buffer: seq<Event>,
    received: seq<Event>)

  datatype Action =
    | Ask(task: nat, request: Request)
    | Acquire(task: nat)
    | Push(task: nat, count: nat)
    | SendReturns(task: nat)
    | SendFails(task: nat)
    | Resume(task: nat)
    | Receive(count: nat)
    | StreamEnds
    | TakeRequest(answer: Answer)
    | EmitReply
    | EmitInfo(kind: Byte, payload: Octets)
    | EmitAnything(bytes: Octets)
    | TakeEvent

  const TOP: Reader := At(Header(ReadLoop), [])

  function Init(n: nat, minVersion: nat): State {
    State(seq(n, i => Idle), None, None, [], map[], false, Connecting, 1, minVersion,
          TOP, None, [], [], false, [], [], [], [], [], [], [])
  }

  // ---- Requesters ----

  predicate Has(s: State, t: nat) { t < |s.tasks| }

  predicate InSend(s: State, t: nat) { Has(s, t) && s.tasks[t].Sending? && s.tasks[t].p < |s.pendings| }

  function PacketOf(pendings: seq<Pending>, p: nat): Octets
    requires p < |pendings|
  {
    if Encodable(pendings[p].request) then Encode(pendings[p].request) else []
  }

  predicate CanAsk(s: State, t: nat, c: Request) {
    && Has(s, t) && s.tasks[t].Idle?
    && match s.phase
       case Connecting => c.QueryVersion?
       case Negotiating => false
       case Open => !c.QueryVersion? && Issued(s.version, c)
  }

  function DoAsk(s: State, t: nat, c: Request): State
    requires Has(s, t)
  {
    s.(tasks := s.tasks[t := AwaitLock(c)], phase := if s.phase.Connecting? then Negotiating else s.phase)
  }

  /** The lock is held: raise if the connection is closed, else fill the pending slot. */
  function DoAcquire(s: State, t: nat): State
    requires Has(s, t) && s.tasks[t].AwaitLock?
  {
    if s.closed then
      s.(tasks := s.tasks[t := Idle])
    else
      var c := s.tasks[t].request;
      s.(tasks := s.tasks[t := Sending(|s.pendings|, 0)],
         lock := Some(t),
         pending := Some(|s.pendings|),
         pendings := s.pendings + [Pending(c, HandlerOf(s.version, c), None)])
  }

  predicate CanAcquire(s: State, t: nat) { Has(s, t) && s.tasks[t].AwaitLock? && s.lock.None? }

  predicate CanPush(s: State, t: nat, n: nat) {
    InSend(s, t) && !s.sendBroken && 0 < n && s.tasks[t].sent + n <= |PacketOf(s.pendings, s.tasks[t].p)|
  }

  predicate CanReturn(s: State, t: nat) {
    InSend(s, t) && s.tasks[t].sent == |PacketOf(s.pendings, s.tasks[t].p)|
  }

  predicate CanResume(s: State, t: nat) {
    && Has(s, t) && s.tasks[t].Waiting? && s.tasks[t].p < |s.pendings|
    && s.pendings[s.tasks[t].p].outcome.Some?
  }

  function DoPush(s: State, t: nat, n: nat): State
    requires InSend(s, t) && s.tasks[t].sent + n <= |PacketOf(s.pendings, s.tasks[t].p)|
  {
    var Sending(p, sent) := s.tasks[t];
    s.(tasks := s.tasks[t := Sending(p, sent + n)],
       toDaemon := s.toDaemon + PacketOf(s.pendings, p)[sent..sent + n])
  }

  function DoReturn(s: State, t: nat): State
    requires InSend(s, t)
  {
    s.(tasks := s.tasks[t := Waiting(s.tasks[t].p)])
  }

  /** The request ends: the slot is emptied and the lock released. */
  function Leave(s: State, t: nat, p: nat, outcome: Outcome): State
    requires Has(s, t)
  {
    s.(tasks := s.tasks[t := Idle], lock := None, pending := None, returned := s.returned[p := outcome])
  }

  function DoFail(s: State, t: nat): State
    requires InSend(s, t)
  {
    Leave(s, t, s.tasks[t].p, Closed).(sendBroken := true)
  }

  predicate Accepts(s: State, v: Version) {
    v.minCompat <= MAX_PROTOCOL && s.minVersion <= v.protocol
  }

  /** A waiter resumes and returns; for the version query, _negotiate goes on with the result. */
  function DoResume(s: State, t: nat): State
    requires CanResume(s, t)
  {
    var p := s.tasks[t].p;
    var outcome := s.pendings[p].outcome.value;
    var s' := Leave(s, t, p, outcome);
    if s.phase.Negotiating? && outcome.Result? && outcome.value.OfVersion? && Accepts(s, outcome.value.version) then
      s'.(phase := Open, version := outcome.value.version.protocol)
    else
      s'
  }

  // ---- Reader ----

  function SetOutcome(s: State, p: nat, outcome: Outcome): State
    requires p < |s.pendings|
  {
    s.(pendings := s.pendings[p := s.pendings[p].(outcome := Some(outcome))])
  }

  /** The `finally` block of _read_loop. */
  function Die(s: State): State {
    var s' := s.(closed := true);
    if s.pending.Some? && s.pending.value < |s.pendings| then SetOutcome(s', s.pending.value, Closed) else s'
  }

  /** A handler called with the reply code of a packet, or resumed, stands at `r`. */
  function InHandler(s: State, p: nat, r: Reader): State
    requires p < |s.pendings|
  {
    if r.At? then
      s.(reader := r, bound := Some(p))
    else if r.move.Finish? then
      SetOutcome(s.(reader := TOP, bound := None), p, r.move.outcome)
    else
      Die(s.(reader := TOP, bound := None))
  }

  /** The read loop's own point of view: a reply code goes to the handler of the pending
      request, and there must be one. */
  function InReadLoop(s: State, r: Reader): State {
    if r.At? then
      s.(reader := r)
    else if r.move.Reply? && s.pending.Some? && s.pending.value < |s.pendings| then
      InHandler(s, s.pending.value, Enter(Begin(s.pendings[s.pending.value].handler, r.move.code), []))
    else
      Die(s.(reader := TOP))
  }

  /** send_nowait, with WouldBlock suppressed. */
  function Offer(buffer: seq<Event>, events: seq<Event>): (b: seq<Event>)
    decreases |events|
  {
    if events == [] then buffer
    else Offer(if |buffer| < EVENT_BUFFER then buffer + [events[0]] else buffer, events[1..])
  }

  function DoReceive(s: State, n: nat): State
    requires n <= |s.fromDaemon| && Blocked(s.version, s.reader)
  {
    var f := Feed(s.version, s.reader, s.fromDaemon[..n]);
    var s' := s.(fromDaemon := s.fromDaemon[n..], offered := s.offered + f.events, buffer := Offer(s.buffer, f.events));
    if s.bound.Some? && s.bound.value < |s.pendings| then InHandler(s', s.bound.value, f.reader)
    else InReadLoop(s', f.reader)
  }

  // ---- Daemon ----

  ghost predicate CanTakeRequest(s: State, a: Answer) {
    s.left == [] && Parse(s.toDaemon).Some? && AnswerTo(Parse(s.toDaemon).value.0, a)
  }

  ghost function DoTakeRequest(s: State, a: Answer): State
    requires CanTakeRequest(s, a)
  {
    var (c, rest) := Parse(s.toDaemon).value;
    s.(toDaemon := rest, requests := s.requests + [c], answers := s.answers + [a], left := ReplyPackets(c, a))
  }

  function DoEmitInfo(s: State, p: Packet): State
    requires WellFormed(p)
  {
    s.(fromDaemon := s.fromDaemon + PacketBytes(p), emitted := s.emitted + [p])
  }

  function DoEmitReply(s: State): State
    requires s.left != []
  {
    s.(fromDaemon := s.fromDaemon + s.left[0], left := s.left[1..], emitted := s.emitted + [ReplyPacket(s.left[0])])
  }

  function DoTakeEvent(s: State): State
    requires s.buffer != []
  {
    s.(received := s.received + [s.buffer[0]], buffer := s.buffer[1..])
  }

  // ---- Runs ----

  /** The transport hands over any part of what `exactly` still wants. */
  predicate CanReceive(s: State, n: nat) {
    && !s.closed && Blocked(s.version, s.reader)
    && 0 < n <= |s.fromDaemon| && n <= Want(s.version, s.reader.pt) - |s.reader.acc|
  }

  ghost predicate Enabled(s: State, a: Action) {
    match a
    case Ask(t, c) => CanAsk(s, t, c)
    case Acquire(t) => CanAcquire(s, t)
    case Push(t, n) => CanPush(s, t, n)
    case SendReturns(t) => CanReturn(s, t)
    case SendFails(t) => InSend(s, t)
    case Resume(t) => CanResume(s, t)
    case Receive(n) => CanReceive(s, n)
    case StreamEnds => !s.closed
    case TakeRequest(answer) => CanTakeRequest(s, answer)
    case EmitReply => s.left != []
    case EmitInfo(kind, payload) => WellFormed(Info(kind, payload))
    case EmitAnything(_) => true
    case TakeEvent => s.buffer != []
  }

  ghost function Do(s: State, a: Action): State
    requires Enabled(s, a)
  {
    match a
    case Ask(t, c) => DoAsk(s, t, c)
    case Acquire(t) => DoAcquire(s, t)
    case Push(t, n) => DoPush(s, t, n)
    case SendReturns(t) => DoReturn(s, t)
    case SendFails(t) => DoFail(s, t)
    case Resume(t) => DoResume(s, t)
    case Receive(n) => DoReceive(s, n)
    case StreamEnds => Die(s)
    case TakeRequest(answer) => DoTakeRequest(s, answer)
    case EmitReply => DoEmitReply(s)
    case EmitInfo(kind, payload) => DoEmitInfo(s, Info(kind, payload))
    case EmitAnything(bytes) => s.(fromDaemon := s.fromDaemon + bytes)
    case TakeEvent => DoTakeEvent(s)
  }

  /** The state after a run; None when some action is not possible where it stands. */
  ghost function Run(s: State, actions: seq<Action>): Option<State>
    decreases |actions|
  {
    if actions == [] then Some(s)
    else if !Enabled(s, actions[0]) then None
    else Run(Do(s, actions[0]), actions[1..])
  }

  // ---- Every run: the slot, the lock and the waiters ----

  /** At most one task holds the lock; the slot is filled with its _Pending, which is the last
      one made; and a reader that has ended has woken it. */
  ghost predicate Slot(tasks: seq<Task>, lock: Option<nat>, pending: Option<nat>, pendings: seq<Pending>,
                       closed: bool)
  {
    && (pending.Some? <==> lock.Some?)
    && (lock.Some? ==>
          && lock.value < |tasks|
          && pending.value == |pendings| - 1
          && (tasks[lock.value].Sending? || tasks[lock.value].Waiting?)
          && tasks[lock.value].p == pending.value
          && (tasks[lock.value].Sending? ==> tasks[lock.value].sent <= |PacketOf(pendings, pending.value)|))
    && (forall t | 0 <= t < |tasks| && (tasks[t].Sending? || tasks[t].Waiting?) :: lock == Some(t))
    && (closed && pending.Some? ==> pendings[pending.value].outcome.Some?)
  }

  /** Only requests that have a packet are made. */
  ghost predicate AllEncodable(tasks: seq<Task>, pendings: seq<Pending>) {
    && (forall t | 0 <= t < |tasks| && tasks[t].AwaitLock? :: Encodable(tasks[t].request))
    && (forall p | 0 <= p < |pendings| :: Encodable(pendings[p].request))
  }

  ghost predicate Structure(s: State) {
    && Slot(s.tasks, s.lock, s.pending, s.pendings, s.closed)
    && AllEncodable(s.tasks, s.pendings)
    && (forall p | p in s.returned :: p < |s.pendings|)
    && (s.bound.Some? ==> s.bound.value < |s.pendings|)
  }

  lemma OutcomeKeepsSlot(s: State, p: nat, outcome: Outcome)
    requires Structure(s) && p < |s.pendings|
    ensures Structure(SetOutcome(s, p, outcome))
  {
    hide Encode, Encodable;
  }

  lemma BoundKeepsStructure(s: State, r: Reader, bound: Option<nat>)
    requires Structure(s) && (bound.Some? ==> bound.value < |s.pendings|)
    ensures Structure(s.(reader := r, bound := bound))
  {
    hide Slot, AllEncodable;
  }

  lemma SlotIsLast(s: State)
    requires Structure(s) && s.pending.Some?
    ensures s.pending.value == |s.pendings| - 1
  {
    hide AllEncodable;
  }

  lemma CloseKeepsStructure(s: State)
    requires Structure(s) && (s.pending.Some? ==> s.pendings[s.pending.value].outcome.Some?)
    ensures Structure(s.(closed := true))
  {
    hide AllEncodable;
  }

  lemma DieKeepsStructure(s: State)
    requires Structure(s)
    ensures Structure(Die(s))
  {
    hide Slot, AllEncodable;
    if s.pending.Some? {
      SlotIsLast(s);
      OutcomeKeepsSlot(s, s.pending.value, Closed);
      CloseKeepsStructure(SetOutcome(s, s.pending.value, Closed));
    } else {
      CloseKeepsStructure(s);
    }
  }

  lemma InHandlerKeepsStructure(s: State, p: nat, r: Reader)
    requires Structure(s) && p < |s.pendings|
    ensures Structure(InHandler(s, p, r))
  {
    hide Structure, SetOutcome, Die;
    if r.At? {
      BoundKeepsStructure(s, r, Some(p));
    } else {
      BoundKeepsStructure(s, TOP, None);
      if r.move.Finish? {
        OutcomeKeepsSlot(s.(reader := TOP, bound := None), p, r.move.outcome);
      } else {
        DieKeepsStructure(s.(reader := TOP, bound := None));
      }
    }
  }

  lemma AskKeepsStructure(s: State, t: nat, c: Request)
    requires Structure(s) && CanAsk(s, t, c)
    ensures Structure(DoAsk(s, t, c))
  {
    hide Encode, Encodable, Issued;
    IssuedIsEncodable(s.version, c);
  }

  lemma AcquireKeepsStructure(s: State, t: nat)
    requires Structure(s) && CanAcquire(s, t)
    ensures Structure(DoAcquire(s, t))
  {
    hide Encode, Encodable, HandlerOf;
  }

  lemma PushKeepsStructure(s: State, t: nat, n: nat)
    requires Structure(s) && CanPush(s, t, n)
    ensures Structure(DoPush(s, t, n))
  {
    hide Encode, Encodable;
  }

  lemma ReturnKeepsStructure(s: State, t: nat)
    requires Structure(s) && CanReturn(s, t)
    ensures Structure(DoReturn(s, t))
  {
    hide Encode, Encodable;
  }

  lemma LeaveKeepsStructure(s: State, t: nat, outcome: Outcome)
    requires Structure(s) && s.lock == Some(t)
    ensures Structure(Leave(s, t, s.pending.value, outcome))
  {
    hide Encode, Encodable;
  }

  lemma FailKeepsStructure(s: State, t: nat)
    requires Structure(s) && InSend(s, t)
    ensures Structure(DoFail(s, t))
  {
    hide Leave, AllEncodable;
    HolderHasLock(s, t);
    LeaveKeepsStructure(s, t, Closed);
  }

  /** The task inside _request is the one with the lock, and the slot is its own. */
  lemma HolderHasLock(s: State, t: nat)
    requires Structure(s) && Has(s, t) && (s.tasks[t].Sending? || s.tasks[t].Waiting?)
    ensures s.lock == Some(t) && s.pending == Some(s.tasks[t].p) && s.tasks[t].p == |s.pendings| - 1
  {
    hide AllEncodable;
  }

  lemma ResumeKeepsStructure(s: State, t: nat)
    requires Structure(s) && CanResume(s, t)
    ensures Structure(DoResume(s, t))
  {
    hide Leave, Slot, AllEncodable;
    HolderHasLock(s, t);
    LeaveKeepsStructure(s, t, s.pendings[s.pending.value].outcome.value);
  }

  /** What Receive does to a state before the reader runs. */
  function Received(s: State, n: nat): State
    requires n <= |s.fromDaemon| && Blocked(s.version, s.reader)
  {
    var f := Feed(s.version, s.reader, s.fromDaemon[..n]);
    s.(fromDaemon := s.fromDaemon[n..], offered := s.offered + f.events, buffer := Offer(s.buffer, f.events))
  }

  lemma CanReceiveBlocked(s: State, n: nat)
    requires CanReceive(s, n)
    ensures !s.closed && n <= |s.fromDaemon| && Blocked(s.version, s.reader)
  {
    hide Want;
  }

  lemma ReceiveIs(s: State, n: nat)
    requires n <= |s.fromDaemon| && Blocked(s.version, s.reader)
    ensures
      var r := Feed(s.version, s.reader, s.fromDaemon[..n]).reader;
      DoReceive(s, n) == if s.bound.Some? && s.bound.value < |s.pendings|
                         then InHandler(Received(s, n), s.bound.value, r) else InReadLoop(Received(s, n), r)
  {
    hide Feed, Offer, Want, InHandler, InReadLoop;
  }

  lemma ReadLoopKeepsStructure(s: State, r: Reader)
    requires Structure(s)
    ensures Structure(InReadLoop(s, r))
  {
    hide Structure, InHandler, Die, Begin;
    if r.At? {
      BoundIsThere(s);
      BoundKeepsStructure(s, r, s.bound);
    } else if r.move.Reply? && s.pending.Some? && s.pending.value < |s.pendings| {
      InHandlerKeepsStructure(s, s.pending.value,
                              Enter(Begin(s.pendings[s.pending.value].handler, r.move.code), []));
    } else {
      BoundIsThere(s);
      BoundKeepsStructure(s, TOP, s.bound);
      DieKeepsStructure(s.(reader := TOP));
    }
  }

  lemma BoundIsThere(s: State)
    requires Structure(s)
    ensures s.bound.Some? ==> s.bound.value < |s.pendings|
  {
  }

  lemma ReceivedKeepsStructure(s: State, n: nat)
    requires Structure(s) && CanReceive(s, n)
    ensures Structure(Received(s, n))
  {
    hide Slot, AllEncodable, Feed, Offer, Want;
  }

  lemma ReceiveKeepsStructure(s: State, n: nat)
    requires Structure(s) && CanReceive(s, n)
    ensures Structure(DoReceive(s, n))
  {
    hide Structure, Feed, InHandler, InReadLoop, Want, Offer;
    ReceivedKeepsStructure(s, n);
    var f := Feed(s.version, s.reader, s.fromDaemon[..n]);
    if s.bound.Some? && s.bound.value < |s.pendings| {
      InHandlerKeepsStructure(Received(s, n), s.bound.value, f.reader);
    } else {
      ReadLoopKeepsStructure(Received(s, n), f.reader);
    }
  }

  /** The actions of the daemon and of the subscriber leave the requesters alone. */
  lemma OthersKeepStructure(s: State, a: Action)
    requires Structure(s) && Enabled(s, a)
    requires a.TakeRequest? || a.EmitReply? || a.EmitInfo? || a.EmitAnything? || a.TakeEvent?
    ensures Structure(Do(s, a))
  {
    hide Slot, AllEncodable, CanTakeRequest, Parse, ReplyPackets, PacketBytes;
  }

  lemma StructureKept(s: State, a: Action)
    requires Structure(s) && Enabled(s, a)
    ensures Structure(Do(s, a))
  {
    hide Structure, CanAsk, CanAcquire, CanPush, CanReturn, CanResume, InSend, CanReceive, CanTakeRequest;
    hide DoAsk, DoAcquire, DoPush, DoReturn, DoFail, DoResume, DoReceive, Die;
    match a
    case Ask(t, c) => AskKeepsStructure(s, t, c);
    case Acquire(t) => AcquireKeepsStructure(s, t);
    case Push(t, n) => PushKeepsStructure(s, t, n);
    case SendReturns(t) => ReturnKeepsStructure(s, t);
    case SendFails(t) => FailKeepsStructure(s, t);
    case Resume(t) => ResumeKeepsStructure(s, t);
    case Receive(n) => ReceiveKeepsStructure(s, n);
    case StreamEnds => DieKeepsStructure(s);
    case _ => OthersKeepStructure(s, a);
  }

  lemma IssuedIsEncodable(version: nat, c: Request)
    ensures Issued(version, c) || c.QueryVersion? ==> Encodable(c)
  {
  }

  lemma {:induction false} StructureOfRun(s: State, actions: seq<Action>)
    requires Structure(s) && Run(s, actions).Some?
    ensures Structure(Run(s, actions).value)
    decreases |actions|
  {
    hide Structure, Do, Enabled;
    if actions != [] {
      StructureKept(s, actions[0]);
      StructureOfRun(Do(s, actions[0]), actions[1..]);
    }
  }

  lemma InitStructure(n: nat, minVersion: nat)
    ensures Structure(Init(n, minVersion))
  {
    hide Encode, Encodable;
  }

  // ---- No lost wake-up ----

  predicate Outstanding(s: State) { exists t :: 0 <= t < |s.tasks| && !s.tasks[t].Idle? }

  /** What the requesters themselves do next; nothing here depends on the daemon, as long as
      the transport takes what is sent. */
  predicate OfRequester(a: Action) {
    a.Acquire? || a.Push? || a.SendReturns? || a.SendFails? || a.Resume?
  }

  function TaskWork(pendings: seq<Pending>, task: Task): nat {
    match task
    case Idle => 0
    case AwaitLock(_) => 1
    case Waiting(_) => 1
    case Sending(p, sent) =>
      if p < |pendings| && sent <= |PacketOf(pendings, p)| then 2 + |PacketOf(pendings, p)| - sent else 2
  }

  /** How much the requesters still have to do. */
  function Work(pendings: seq<Pending>, tasks: seq<Task>): nat {
    if tasks == [] then 0 else TaskWork(pendings, tasks[0]) + Work(pendings, tasks[1..])
  }

  function WorkOf(s: State): nat { Work(s.pendings, s.tasks) }

  /** Once the reader has ended, some outstanding request can always go on. The only
      failure used is that of a stream on which sending has already failed. */
  lemma SomeoneCanGoOn(s: State) returns (a: Action)
    requires Structure(s) && s.closed && Outstanding(s)
    ensures OfRequester(a) && Enabled(s, a)
    ensures a.SendFails? ==> s.sendBroken
  {
    hide Encode, Encodable, AllEncodable;
    if s.lock.None? {
      var t :| 0 <= t < |s.tasks| && !s.tasks[t].Idle?;
      a := Acquire(t);
    } else {
      var t := s.lock.value;
      match s.tasks[t]
      case Waiting(p) => a := Resume(t);
      case Sending(p, sent) =>
        if sent == |PacketOf(s.pendings, p)| {
          a := SendReturns(t);
        } else if s.sendBroken {
          a := SendFails(t);
        } else {
          a := Push(t, 1);
        }
    }
  }

  lemma {:induction false} WorkOfUpdate(pendings: seq<Pending>, tasks: seq<Task>, t: nat, task: Task)
    requires t < |tasks| && TaskWork(pendings, task) < TaskWork(pendings, tasks[t])
    ensures Work(pendings, tasks[t := task]) < Work(pendings, tasks)
    decreases |tasks|
  {
    hide TaskWork;
    if t == 0 {
      assert tasks[0 := task][1..] == tasks[1..];
    } else {
      assert tasks[t := task][1..] == tasks[1..][t - 1 := task];
      WorkOfUpdate(pendings, tasks[1..], t - 1, task);
    }
  }

  /** On a closed connection a step of a requester changes its own task only. */
  lemma ClosedStep(s: State, a: Action)
    requires Structure(s) && s.closed && OfRequester(a) && Enabled(s, a)
    ensures
      var s' := Do(s, a);
      && s'.closed && s'.pendings == s.pendings && Has(s, a.task) && |s'.tasks| == |s.tasks|
      && s'.tasks == s.tasks[a.task := s'.tasks[a.task]]
      && TaskWork(s.pendings, s'.tasks[a.task]) < TaskWork(s.pendings, s.tasks[a.task])
  {
    hide Encode, Encodable, AllEncodable;
  }

  /** Every step of a requester on a closed connection brings its request nearer to its end. */
  lemma WorkShrinks(s: State, a: Action)
    requires Structure(s) && s.closed && OfRequester(a) && Enabled(s, a)
    ensures Do(s, a).closed && WorkOf(Do(s, a)) < WorkOf(s)
  {
    hide Do, Enabled, Structure, TaskWork, Work;
    ClosedStep(s, a);
    WorkOfUpdate(s.pendings, s.tasks, a.task, Do(s, a).tasks[a.task]);
  }

  /** However the reader ended, once the connection is closed there is a way for every request
      in progress to come to its end. */
  lemma {:induction false} EveryRequestCanEnd(s: State) returns (actions: seq<Action>)
    requires Structure(s) && s.closed
    ensures |actions| <= WorkOf(s)
    ensures Run(s, actions).Some? && !Outstanding(Run(s, actions).value)
    ensures forall i | 0 <= i < |actions| :: OfRequester(actions[i])
    decreases WorkOf(s)
  {
    hide WorkOf, Enabled, Do, Structure;
    if Outstanding(s) {
      var a := SomeoneCanGoOn(s);
      StructureKept(s, a);
      WorkShrinks(s, a);
      var more := EveryRequestCanEnd(Do(s, a));
      actions := [a] + more;
      assert actions[1..] == more;
    } else {
      actions := [];
    }
  }

  /** And no way leads elsewhere: however the requesters are scheduled after the connection is
      closed, they take no more than `WorkOf` steps, and where none of them can take another
      one, no request is left. */
  lemma {:induction false} EveryRequestEnds(s: State, actions: seq<Action>)
    requires Structure(s) && s.closed && Run(s, actions).Some?
    requires forall i | 0 <= i < |actions| :: OfRequester(actions[i])
    ensures |actions| <= WorkOf(s)
    ensures
      var end := Run(s, actions).value;
      end.closed && ((forall a | OfRequester(a) :: !Enabled(end, a)) ==> !Outstanding(end))
    decreases |actions|
  {
    hide WorkOf, Enabled, Do, Structure;
    if actions == [] {
      if Outstanding(s) {
        var a := SomeoneCanGoOn(s);
      }
    } else {
      StructureKept(s, actions[0]);
      WorkShrinks(s, actions[0]);
      EveryRequestEnds(Do(s, actions[0]), actions[1..]);
    }
  }

  lemma ClosedStaysClosed(s: State, a: Action)
    requires s.closed && Enabled(s, a)
    ensures Do(s, a).closed
  {
    hide Encode, Encodable, CanAsk, CanTakeRequest, Parse, ReplyPackets;
  }

  lemma ClosedWakes(s: State)
    requires Structure(s) && s.closed
    ensures forall t | 0 <= t < |s.tasks| && s.tasks[t].Waiting? :: Enabled(s, Resume(t))
    ensures forall a | Enabled(s, a) && a.Acquire? :: Do(s, a) == s.(tasks := s.tasks[a.task := Idle])
  {
    hide Encode, Encodable, AllEncodable, CanAsk, CanTakeRequest;
  }

  /** In every run, against any bytes whatever: a closed connection has no request that
      waits for a reply that will not come, and no later request waits at all. */
  lemma NoLostWakeUp(n: nat, minVersion: nat, actions: seq<Action>)
    requires Run(Init(n, minVersion), actions).Some?
    ensures
      var s := Run(Init(n, minVersion), actions).value;
      s.closed ==>
        && (forall t | 0 <= t < |s.tasks| && s.tasks[t].Waiting? :: Enabled(s, Resume(t)))
        && (forall a | Enabled(s, a) && a.Acquire? :: Do(s, a) == s.(tasks := s.tasks[a.task := Idle]))
        && (forall a | Enabled(s, a) :: Do(s, a).closed)
  {
    hide Enabled, Do, Structure, Init;
    InitStructure(n, minVersion);
    StructureOfRun(Init(n, minVersion), actions);
    var s := Run(Init(n, minVersion), actions).value;
    if s.closed {
      ClosedWakes(s);
      forall a | Enabled(s, a)
        ensures Do(s, a).closed
      {
        ClosedStaysClosed(s, a);
      }
    }
  }
}
