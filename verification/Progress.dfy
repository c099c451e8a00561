// That requests come to their end against an honest daemon: some step towards it can always be
// taken, and only so many can be.

module Progress {
  import opened Prelude
  import opened Bytes
  import opened Protocol
  import opened Requests
  import opened Wire
  import opened Answers
  import opened Framing
  import opened Session
  import opened Synchrony
  import opened Matching

  // ---- Some step can be taken ----

  /** The steps that bring requests to their end: all but new requests, events and the end of
      the stream. */
  predicate Onward(a: Action) {
    OfRequester(a) || a.TakeRequest? || a.EmitReply? || a.Receive?
  }

  /** While a request is in progress some such step can be taken. The only failure used is that
      of a stream on which a send has failed already. */
  lemma SomeStep(s: State) returns (a: Action)
    requires Matched(s) && Outstanding(s)
    ensures Onward(a) && Enabled(s, a) && (a.SendFails? ==> s.sendBroken)
  {
    hide Enabled, Matched, Sound;
    SoundHasStructure(s) by {
      MatchedIsSound(s);
    }
    if s.closed {
      a := SomeoneCanGoOn(s);
    } else {
      a := HolderOrNext(s);
      if a.StreamEnds? {
        MatchedIsSound(s);
        WaitersAreWorking(s, s.lock.value);
        a := AnswerComes(s, s.lock.value);
      }
    }
  }

  lemma MatchedIsSound(s: State)
    requires Matched(s)
    ensures Sound(s)
  {
    hide Sound, Synchronised;
  }

  /** Somebody takes the lock, or whoever has it goes on sending; StreamEnds where the holder has
      to wait for its reply. */
  lemma HolderOrNext(s: State) returns (a: Action)
    requires Structure(s) && Outstanding(s) && !s.closed
    ensures
      if a.StreamEnds? then s.lock.Some? && Has(s, s.lock.value) && s.tasks[s.lock.value].Waiting?
      else Onward(a) && Enabled(s, a) && (a.SendFails? ==> s.sendBroken)
  {
    hide Encode, Encodable, AllEncodable;
    a := StreamEnds;
    if s.lock.None? {
      var t :| 0 <= t < |s.tasks| && !s.tasks[t].Idle?;
      a := Acquire(t);
    } else {
      var t := s.lock.value;
      match s.tasks[t]
      case Waiting(_) =>
      case Sending(p, sent) =>
        if sent == |PacketOf(s.pendings, p)| {
          a := SendReturns(t);
        } else if s.sendBroken {
          a := SendFails(t);
        } else {
          a := Push(t, 1);
        }
    }
  }

  lemma WaitersAreWorking(s: State, t: nat)
    requires Sound(s) && !s.closed && Has(s, t) && s.tasks[t].Waiting?
    ensures Working(s)
  {
    hide Structure, Versioned, AllOwn, AllExact;
  }

  /** The reply to a request that has been sent is under way, or the daemon can send it. */
  lemma AnswerComes(s: State, t: nat) returns (a: Action)
    requires Matched(s) && Structure(s) && Working(s) && Has(s, t) && s.tasks[t].Waiting?
    ensures Onward(a) && Enabled(s, a) && !a.SendFails?
  {
    hide Matched, Structure, CanReceive, CanTakeRequest, PacketOf, AllWellFormed, AnswerTo, Expected;
    HolderHasLock(s, t);
    var p := s.tasks[t].p;
    if s.pendings[p].outcome.Some? {
      a := Resume(t);
    } else if s.left != [] {
      a := EmitReply;
    } else if s.fromDaemon != [] {
      NotStuck(s);
      a := Receive(1);
    } else {
      if |s.answers| == |s.pendings| {
        NothingUnderWay(s);
        ArrivedIsDone(s, |s.emitted|);
        assert false;
      }
      RequestCanBeRead(s, t);
      a := TakeRequest(Done);
    }
  }

  lemma NothingUnderWay(s: State)
    requires s.fromDaemon == []
    ensures OnlyInfosUnderWay(s, |s.emitted|)
  {
    assert s.emitted[|s.emitted|..] == [];
  }

  /** A request that has been sent and not read yet lies before the daemon. */
  lemma RequestCanBeRead(s: State, t: nat)
    requires Matched(s) && Structure(s) && Working(s) && Has(s, t) && s.tasks[t].Waiting? && s.left == []
    requires s.pending == Some(s.tasks[t].p) && s.lock == Some(t) && s.tasks[t].p == |s.pendings| - 1
    requires |s.answers| != |s.pendings|
    ensures CanTakeRequest(s, Done)
  {
    hide Structure, Sound, InSync, HeardIn, PacketOf, Parse, AnswerTo;
    var ps, got :| InSync(s, ps, got) && HeardIn(s, ps, got);
    UnreadIsWhole(s, t, ps, got);
    PacketIsRead(s, t);
    AnythingCanBeAcknowledged(s.pendings[s.tasks[t].p].request);
  }

  lemma UnreadIsWhole(s: State, t: nat, ps: seq<Packet>, got: Octets)
    requires Structure(s) && InSync(s, ps, got) && Has(s, t) && s.tasks[t].Waiting?
    requires s.pending == Some(s.tasks[t].p) && s.lock == Some(t) && s.tasks[t].p == |s.pendings| - 1
    requires |s.answers| != |s.pendings|
    ensures s.toDaemon == PacketOf(s.pendings, s.tasks[t].p)
  {
    hide Slot, AllEncodable, PacketOf, AnswerTo, Expected, StreamBytes, AtTop, Replies, ReplyPackets;
    var packet := PacketOf(s.pendings, s.tasks[t].p);
    assert packet[..|packet|] == packet;
  }

  lemma PacketIsRead(s: State, t: nat)
    requires Structure(s) && Has(s, t) && s.tasks[t].Waiting? && s.tasks[t].p < |s.pendings|
    ensures
      var p := s.tasks[t].p;
      Parse(PacketOf(s.pendings, p)) == Some((s.pendings[p].request, []))
  {
    hide Slot, Parse, Encode, Encodable;
    var c := s.pendings[s.tasks[t].p].request;
    ParseOfEncode(c, []);
    assert Encode(c) + [] == Encode(c);
  }

  lemma AnythingCanBeAcknowledged(c: Request)
    ensures AnswerTo(c, Done)
  {
  }

  // ---- And only so many ----

  /** What is still to do: how far the requesters are, what the holder of the lock has not sent,
      what the daemon has not read, what it has not answered, and what is on its way back. */
  datatype Todo = Todo(stages: nat, unsent: nat, unread: nat, unanswered: nat, underWay: nat)

  predicate Less(x: Todo, y: Todo) {
    || x.stages < y.stages
    || (x.stages == y.stages &&
        (|| x.unsent < y.unsent
         || (x.unsent == y.unsent &&
             (|| x.unread < y.unread
              || (x.unread == y.unread &&
                  (|| x.unanswered < y.unanswered
                   || (x.unanswered == y.unanswered && x.underWay < y.underWay)))))))
  }

  function Stage(task: Task): nat {
    match task
    case Idle => 0
    case Waiting(_) => 1
    case Sending(_, _) => 2
    case AwaitLock(_) => 3
  }

  function Stages(tasks: seq<Task>): nat {
    if tasks == [] then 0 else Stage(tasks[0]) + Stages(tasks[1..])
  }

  function Unsent(tasks: seq<Task>, lock: Option<nat>, pendings: seq<Pending>): nat {
    if lock.None? || lock.value >= |tasks| then 0
    else
      match tasks[lock.value]
      case Sending(p, sent) =>
        if p < |pendings| && sent <= |PacketOf(pendings, p)| then |PacketOf(pendings, p)| - sent else 0
      case _ => 0
  }

  function TodoOf(s: State): Todo {
    Todo(Stages(s.tasks), Unsent(s.tasks, s.lock, s.pendings), |s.toDaemon|, |s.left|, |s.fromDaemon|)
  }

  lemma {:induction false} StagesOfUpdate(tasks: seq<Task>, t: nat, task: Task)
    requires t < |tasks|
    ensures Stages(tasks[t := task]) + Stage(tasks[t]) == Stages(tasks) + Stage(task)
    decreases |tasks|
  {
    hide Stage;
    if t == 0 {
      assert tasks[0 := task][1..] == tasks[1..];
    } else {
      assert tasks[t := task][1..] == tasks[1..][t - 1 := task] && tasks[t := task][0] == tasks[0];
      StagesOfUpdate(tasks[1..], t - 1, task);
    }
  }

  lemma StageShrinks(s: State, s': State, t: nat, task: Task)
    requires Has(s, t) && s'.tasks == s.tasks[t := task] && Stage(task) < Stage(s.tasks[t])
    ensures Less(TodoOf(s'), TodoOf(s))
  {
    hide Stage, Stages, Unsent;
    StagesOfUpdate(s.tasks, t, task);
  }

  lemma PushShrinks(s: State, t: nat, n: nat)
    requires Structure(s) && CanPush(s, t, n)
    ensures Less(TodoOf(DoPush(s, t, n)), TodoOf(s))
  {
    hide Structure, PacketOf, Stages;
    HolderHasLock(s, t);
    StagesOfUpdate(s.tasks, t, DoPush(s, t, n).tasks[t]);
  }

  /** A step of a requester brings it one stage on, or sends something. */
  lemma RequesterShrinks(s: State, a: Action)
    requires Structure(s) && OfRequester(a) && Enabled(s, a)
    ensures Less(TodoOf(Do(s, a)), TodoOf(s))
  {
    hide Structure, TodoOf, Less, PacketOf, HandlerOf, Accepts, DoPush;
    match a
    case Acquire(t) => StageShrinks(s, DoAcquire(s, t), t, DoAcquire(s, t).tasks[t]);
    case Push(t, n) => PushShrinks(s, t, n);
    case SendReturns(t) => StageShrinks(s, DoReturn(s, t), t, Waiting(s.tasks[t].p));
    case SendFails(t) => StageShrinks(s, DoFail(s, t), t, Idle);
    case Resume(t) => StageShrinks(s, DoResume(s, t), t, Idle);
  }

  lemma ParseTakes(s: Octets)
    ensures Parse(s).Some? ==> |Parse(s).value.1| < |s|
  {
  }

  lemma DaemonShrinks(s: State, a: Action)
    requires (a.TakeRequest? || a.EmitReply?) && Enabled(s, a)
    ensures Less(TodoOf(Do(s, a)), TodoOf(s))
  {
    hide Parse, AnswerTo, ReplyPackets, Unsent, Stages;
    ParseTakes(s.toDaemon);
  }

  /** `after` is `before` but for what the reader does: where it stands, the outcomes of requests,
      and the end of the connection. */
  predicate OnlyReads(before: State, after: State) {
    && after.pending == before.pending && after.returned == before.returned
    && after.sendBroken == before.sendBroken
    && after.tasks == before.tasks && after.lock == before.lock && after.toDaemon == before.toDaemon
    && after.left == before.left && after.fromDaemon == before.fromDaemon
    && |after.pendings| == |before.pendings|
    && forall p | 0 <= p < |before.pendings| :: after.pendings[p].request == before.pendings[p].request
  }

  lemma HandlerOnlyReads(s: State, p: nat, r: Reader)
    requires p < |s.pendings|
    ensures OnlyReads(s, InHandler(s, p, r))
  {
  }

  lemma ReadLoopOnlyReads(s: State, r: Reader)
    ensures OnlyReads(s, InReadLoop(s, r))
  {
    hide InHandler, Begin;
    if !r.At? && r.move.Reply? && s.pending.Some? && s.pending.value < |s.pendings| {
      HandlerOnlyReads(s, s.pending.value,
                       Enter(Begin(s.pendings[s.pending.value].handler, r.move.code), []));
    }
  }

  lemma OnlyReadsIsNothingDone(before: State, after: State)
    requires OnlyReads(before, after)
    ensures TodoOf(after) == TodoOf(before)
  {
    hide Encode, Encodable, Stages;
  }

  lemma ReceiveOnlyReads(s: State, n: nat)
    requires CanReceive(s, n)
    ensures n <= |s.fromDaemon| && Blocked(s.version, s.reader) && OnlyReads(Received(s, n), DoReceive(s, n))
  {
    hide Feed, Offer, Want, InHandler, InReadLoop, DoReceive, OnlyReads;
    CanReceiveBlocked(s, n);
    ReceiveIs(s, n);
    var r := Feed(s.version, s.reader, s.fromDaemon[..n]).reader;
    if s.bound.Some? && s.bound.value < |s.pendings| {
      HandlerOnlyReads(Received(s, n), s.bound.value, r);
    } else {
      ReadLoopOnlyReads(Received(s, n), r);
    }
  }

  lemma ReceiveShrinks(s: State, n: nat)
    requires CanReceive(s, n)
    ensures Less(TodoOf(DoReceive(s, n)), TodoOf(s))
  {
    hide Feed, Offer, Want, DoReceive, Unsent, Stages, OnlyReads;
    ReceiveOnlyReads(s, n);
    OnlyReadsIsNothingDone(Received(s, n), DoReceive(s, n));
  }

  /** Every step onward leaves less to do. */
  lemma StepShrinks(s: State, a: Action)
    requires Structure(s) && Onward(a) && Enabled(s, a)
    ensures Less(TodoOf(Do(s, a)), TodoOf(s))
  {
    hide Structure, CanReceive, DoReceive, CanTakeRequest, DoTakeRequest, TodoOf, Less;
    if OfRequester(a) {
      RequesterShrinks(s, a);
    } else if a.Receive? {
      ReceiveShrinks(s, a.count);
    } else {
      DaemonShrinks(s, a);
    }
  }

  // ---- Every request is accounted for ----

  /** Every request that was made is returned or in the slot. */
  ghost predicate Accounted(pendings: seq<Pending>, pending: Option<nat>, returned: map<nat, Outcome>) {
    forall p | 0 <= p < |pendings| :: p in returned || pending == Some(p)
  }

  ghost predicate AllAccounted(s: State) { Accounted(s.pendings, s.pending, s.returned) }

  lemma AccountedKept(s: State, a: Action)
    requires Structure(s) && AllAccounted(s) && Enabled(s, a)
    ensures AllAccounted(Do(s, a))
  {
    hide Structure, Accounted, CanReceive, DoReceive;
    if a.Receive? {
      ReceiveKeepsAccount(s, a.count);
    } else if OfRequester(a) {
      hide Do, Enabled;
      RequesterKeepsAccount(s, a);
    } else {
      hide CanAsk, CanTakeRequest, Parse, ReplyPackets, PacketBytes;
      SameAccount(s, Do(s, a));
    }
  }

  lemma SameAccount(s: State, s': State)
    requires AllAccounted(s) && |s'.pendings| == |s.pendings| && s'.pending == s.pending && s'.returned == s.returned
    ensures AllAccounted(s')
  {
  }

  lemma AcquireKeepsAccount(s: State, t: nat)
    requires Structure(s) && AllAccounted(s) && CanAcquire(s, t)
    ensures AllAccounted(DoAcquire(s, t))
  {
    hide HandlerOf;
    NoLockNoSlot(s);
    hide Structure;
  }

  lemma LeaveKeepsAccount(s: State, t: nat, outcome: Outcome)
    requires AllAccounted(s) && Has(s, t) && s.pending.Some?
    ensures AllAccounted(Leave(s, t, s.pending.value, outcome))
  {
  }

  lemma RequesterKeepsAccount(s: State, a: Action)
    requires Structure(s) && AllAccounted(s) && OfRequester(a) && Enabled(s, a)
    ensures AllAccounted(Do(s, a))
  {
    hide PacketOf, Accepts, DoAcquire, Structure, Accounted, Leave;
    match a
    case Acquire(t) => AcquireKeepsAccount(s, t);
    case SendFails(t) =>
      HolderHasLock(s, t);
      LeaveKeepsAccount(s, t, Closed);
    case Resume(t) =>
      HolderHasLock(s, t);
      LeaveKeepsAccount(s, t, s.pendings[s.tasks[t].p].outcome.value);
    case Push(t, n) => SameAccount(s, DoPush(s, t, n));
    case SendReturns(t) => SameAccount(s, DoReturn(s, t));
  }

  lemma ReceiveKeepsAccount(s: State, n: nat)
    requires AllAccounted(s) && CanReceive(s, n)
    ensures AllAccounted(DoReceive(s, n))
  {
    hide Feed, Offer, Want, DoReceive, Accounted;
    ReceiveOnlyReads(s, n);
    SameAccount(s, DoReceive(s, n));
  }

  // ---- Whole runs ----

  lemma {:induction false} RunOn(s: State, actions: seq<Action>, more: seq<Action>)
    requires Run(s, actions).Some?
    ensures Run(s, actions + more) == Run(Run(s, actions).value, more)
    decreases |actions|
  {
    hide Do, Enabled;
    if actions == [] {
      assert actions + more == more;
    } else {
      assert (actions + more)[0] == actions[0] && (actions + more)[1..] == actions[1..] + more;
      RunOn(Do(s, actions[0]), actions[1..], more);
    }
  }

  lemma {:induction false} AccountedOfRun(s: State, actions: seq<Action>)
    requires Structure(s) && AllAccounted(s) && Run(s, actions).Some?
    ensures AllAccounted(Run(s, actions).value)
    decreases |actions|
  {
    hide Structure, AllAccounted, Do, Enabled;
    if actions != [] {
      StructureKept(s, actions[0]);
      AccountedKept(s, actions[0]);
      AccountedOfRun(Do(s, actions[0]), actions[1..]);
    }
  }

  /** From any state that a run can come to, steps onward alone bring every request to its end. */
  lemma {:induction false} WayOut(s: State) returns (more: seq<Action>)
    requires Matched(s)
    ensures Run(s, more).Some? && !Outstanding(Run(s, more).value)
    ensures forall i | 0 <= i < |more| :: Onward(more[i])
    ensures !s.sendBroken ==> forall i | 0 <= i < |more| :: !more[i].SendFails?
    decreases TodoOf(s).stages, TodoOf(s).unsent, TodoOf(s).unread, TodoOf(s).unanswered, TodoOf(s).underWay
  {
    hide TodoOf, Enabled, Do, Matched;
    more := [];
    if Outstanding(s) {
      var a := SomeStep(s);
      MatchedKept(s, a);
      MatchedHasStructure(s);
      StepShrinks(s, a);
      if !s.sendBroken {
        SendsGoOn(s, a);
      }
      var rest := WayOut(Do(s, a));
      more := [a] + rest;
      assert more[1..] == rest;
    }
  }

  lemma MatchedHasStructure(s: State)
    requires Matched(s)
    ensures Structure(s)
  {
    hide Sound, Structure;
    MatchedIsSound(s);
    SoundHasStructure(s);
  }

  lemma SendsGoOn(s: State, a: Action)
    requires Onward(a) && Enabled(s, a) && !a.SendFails?
    ensures Do(s, a).sendBroken == s.sendBroken
  {
    hide Feed, Offer, Want, DoReceive, Parse, AnswerTo, ReplyPackets, PacketOf, Accepts, HandlerOf, CanReceive;
    if a.Receive? {
      ReceiveSendsNothing(s, a.count);
    }
  }

  lemma ReceiveSendsNothing(s: State, n: nat)
    requires CanReceive(s, n)
    ensures DoReceive(s, n).sendBroken == s.sendBroken
  {
    hide Feed, Offer, Want, DoReceive;
    ReceiveOnlyReads(s, n);
  }

  /** In every run against an honest daemon, however far it has come, every request can still come
      to its end: with steps onward alone, and without a failing send if none has failed before.
      Then every request ever made has returned; and while the connection works, each with the
      decoding of its own answer. */
  lemma EveryRequestIsAnswered(n: nat, minVersion: nat, actions: seq<Action>) returns (more: seq<Action>)
    requires HonestRun(n, minVersion, actions)
    ensures forall i | 0 <= i < |more| :: Onward(more[i])
    ensures !End(n, minVersion, actions).sendBroken ==> forall i | 0 <= i < |more| :: !more[i].SendFails?
    ensures HonestRun(n, minVersion, actions + more)
    ensures
      var s := End(n, minVersion, actions + more);
      && !Outstanding(s)
      && (forall p | 0 <= p < |s.pendings| ::
            && p in s.returned
            && (s.returned[p] == Closed || Exact(s.pendings, s.requests, s.answers, p, s.returned[p]))
            && (!s.closed && !s.sendBroken ==>
                  Exact(s.pendings, s.requests, s.answers, p, s.returned[p])))
  {
    hide Run, Matched, AllAccounted, Exact, Outstanding, Init, Structure;
    EndIsMatched(n, minVersion, actions);
    more := WayOut(End(n, minVersion, actions));
    RunOn(Init(n, minVersion), actions, more);
    var all := actions + more;
    EveryRequestGetsItsOwnAnswer(n, minVersion, all);
    InitStructure(n, minVersion);
    InitAccounted(n, minVersion);
    AccountedOfRun(Init(n, minVersion), all);
    EndIsMatched(n, minVersion, all);
    var s := End(n, minVersion, all);
    MatchedHasStructure(s);
    NobodyInTheSlot(s);
  }

  lemma InitAccounted(n: nat, minVersion: nat)
    ensures AllAccounted(Init(n, minVersion))
  {
  }

  lemma NobodyInTheSlot(s: State)
    requires Structure(s) && AllAccounted(s) && !Outstanding(s)
    ensures forall p | 0 <= p < |s.pendings| :: p in s.returned
  {
    NoLockNoSlot(s);
    hide Structure, Outstanding;
    if s.lock.Some? {
      HolderIsOutstanding(s);
    }
  }

  lemma HolderIsOutstanding(s: State)
    requires Structure(s) && s.lock.Some?
    ensures Outstanding(s)
  {
    hide AllEncodable;
  }

  /** And no way leads elsewhere: however steps onward are taken, each of them leaves less to do,
      and where none can be taken any more, no request is left. */
  lemma {:induction false} NoWayLeadsElsewhere(s: State, actions: seq<Action>)
    requires Matched(s) && Run(s, actions).Some?
    requires forall i | 0 <= i < |actions| :: Onward(actions[i])
    ensures
      var end := Run(s, actions).value;
      && (actions != [] ==> Less(TodoOf(end), TodoOf(s)))
      && ((forall a | Onward(a) :: !Enabled(end, a)) ==> !Outstanding(end))
    decreases |actions|
  {
    hide TodoOf, Enabled, Do, Matched;
    if actions == [] {
      if Outstanding(s) {
        var a := SomeStep(s);
      }
    } else {
      MatchedKept(s, actions[0]);
      MatchedHasStructure(s);
      StepShrinks(s, actions[0]);
      NoWayLeadsElsewhere(Do(s, actions[0]), actions[1..]);
    }
  }
}
