// What the session promises nothing about: a task that is cancelled inside a request releases the
// lock and leaves its _Pending in the slot. The next request then gets the answer to the cancelled
// one, or is swallowed by it.

module Cancellation {
  import opened Prelude
  import opened Bytes
  import opened Protocol
  import opened Requests
  import opened Wire
  import opened Answers
  import opened Framing
  import opened Session
  import opened Synchrony

  /** The task inside _request is cancelled, where it sends or where it waits for its reply. */
  function Cancel(s: State, t: nat): State
    requires Has(s, t)
  {
    s.(tasks := s.tasks[t := Idle], lock := None)
  }

  /** A connection at version 5 with its first request `c` in progress, `wire` of it sent, and
      another one waiting for the lock. */
  function InProgress(c: Request, task: Task, wire: Octets): State {
    Init(2, 1).(
      tasks := [task, AwaitLock(QueryLoadMech)], phase := Open, version := 5, lock := Some(0), pending := Some(0),
      pendings := [Pending(c, HandlerOf(5, c), None)], toDaemon := wire)
  }

  /** The other request is made; the daemon reads a request and rejects it; its reply is
      delivered and the other requester resumes. */
  const ACTIONS: seq<Action> :=
    [Acquire(1), Push(1, 1), SendReturns(1), TakeRequest(Refuse(Refused)), EmitReply, Receive(1), Resume(1)]

  function Next(c: Request, wire: Octets, task: Task, outcome: Option<Outcome>): State {
    InProgress(c, Idle, wire).(
      tasks := [Idle, task], lock := Some(1), pending := Some(1),
      pendings := [Pending(c, HandlerOf(5, c), None), Pending(QueryLoadMech, HLoader, outcome)])
  }

  function Read(c: Request, rest: Octets, outcome: Option<Outcome>): State {
    Next(c, rest, Waiting(1), outcome).(requests := [c], answers := [Refuse(Refused)])
  }

  function Stage(i: nat, c: Request, wire: Octets, rest: Octets): State
    requires i <= 7
  {
    match i
    case 0 => InProgress(c, Idle, wire).(lock := None)
    case 1 => Next(c, wire, Sending(1, 0), None)
    case 2 => Next(c, wire + [13], Sending(1, 1), None)
    case 3 => Next(c, wire + [13], Waiting(1), None)
    case 4 => Read(c, rest, None).(left := [[51]])
    case 5 => Read(c, rest, None).(fromDaemon := [51], emitted := [ReplyPacket([51])])
    case 6 => Read(c, rest, Some(Raises(CommandRejected))).(emitted := [ReplyPacket([51])])
    case _ =>
      Read(c, rest, Some(Raises(CommandRejected))).(
        emitted := [ReplyPacket([51])], tasks := [Idle, Idle], lock := None, pending := None,
        returned := map[1 := Raises(CommandRejected)])
  }

  ghost predicate Step(i: nat, c: Request, wire: Octets, rest: Octets)
    requires i < 7
  {
    && Enabled(Stage(i, c, wire, rest), ACTIONS[i])
    && Do(Stage(i, c, wire, rest), ACTIONS[i]) == Stage(i + 1, c, wire, rest)
  }

  lemma OtherAcquires(c: Request, wire: Octets, rest: Octets)
    ensures Step(0, c, wire, rest)
  {
    assert HandlerOf(5, QueryLoadMech) == HLoader;
    hide HandlerOf;
  }

  lemma OtherPushes(c: Request, wire: Octets, rest: Octets)
    ensures Step(1, c, wire, rest)
  {
    hide HandlerOf;
    OtherPacket(c, wire, Sending(1, 0));
    hide PacketOf;
    assert [13][0..1] == [13];
  }

  lemma OtherPacket(c: Request, wire: Octets, task: Task)
    ensures PacketOf(Next(c, wire, task, None).pendings, 1) == [13]
  {
  }

  lemma OtherWaits(c: Request, wire: Octets, rest: Octets)
    ensures Step(2, c, wire, rest)
  {
    hide HandlerOf;
    OtherPacket(c, wire + [13], Sending(1, 1));
    hide PacketOf;
  }

  lemma FirstIsRead(c: Request, wire: Octets, rest: Octets)
    requires Parse(wire + [13]) == Some((c, rest))
    ensures Step(3, c, wire, rest)
  {
    hide Parse, HandlerOf;
    assert [] + [c] == [c];
  }

  lemma ReplyIsSent(c: Request, wire: Octets, rest: Octets)
    ensures Step(4, c, wire, rest)
  {
    hide HandlerOf;
    assert [[51]][1..] == [] && [] + [51] == [51];
  }

  lemma ReplyIsFed()
    ensures Feed(5, TOP, [51]) == Fed(Stopped(Wire.Reply(51), []), [])
  {
    hide Feed;
    assert [51] + [] == [51];
    Take(5, Header(ReadLoop), [51], []);
    FeedStopped(5, Wire.Reply(51), [], []);
  }

  lemma ReplyIsTaken(c: Request, wire: Octets, rest: Octets)
    ensures Step(5, c, wire, rest)
  {
    hide HandlerOf, Feed, DoReceive, InReadLoop;
    var s := Stage(5, c, wire, rest);
    assert [51][..1] == [51] && [51][1..] == [];
    ReplyIsFed();
    ReceiveIs(s, 1);
    assert Offer([], []) == [];
    assert Received(s, 1) == s.(fromDaemon := []);
    ReplyRejects(c, rest);
  }

  lemma ReplyRejects(c: Request, rest: Octets)
    ensures
      InReadLoop(Read(c, rest, None).(emitted := [ReplyPacket([51])]), Stopped(Wire.Reply(51), []))
      == Read(c, rest, Some(Raises(CommandRejected))).(emitted := [ReplyPacket([51])])
  {
    hide HandlerOf;
  }

  lemma OtherResumes(c: Request, wire: Octets, rest: Octets)
    ensures Step(6, c, wire, rest)
  {
    hide HandlerOf;
  }

  lemma {:induction false} StagesRun(c: Request, wire: Octets, rest: Octets, i: nat)
    requires i <= 7 && forall j | i <= j < 7 :: Step(j, c, wire, rest)
    ensures Run(Stage(i, c, wire, rest), ACTIONS[i..]) == Some(Stage(7, c, wire, rest))
    decreases 7 - i
  {
    hide Do, Enabled, Stage;
    if i < 7 {
      assert Step(i, c, wire, rest);
      assert ACTIONS[i..][0] == ACTIONS[i] && ACTIONS[i..][1..] == ACTIONS[i + 1..];
      StagesRun(c, wire, rest, i + 1);
    }
  }

  lemma CancelledRuns(c: Request, task: Task, wire: Octets, rest: Octets)
    requires Parse(wire + [13]) == Some((c, rest))
    ensures Run(Cancel(InProgress(c, task, wire), 0), ACTIONS) == Some(Stage(7, c, wire, rest))
  {
    hide Run, Step, Parse, HandlerOf;
    OtherAcquires(c, wire, rest);
    OtherPushes(c, wire, rest);
    OtherWaits(c, wire, rest);
    FirstIsRead(c, wire, rest);
    ReplyIsSent(c, wire, rest);
    ReplyIsTaken(c, wire, rest);
    OtherResumes(c, wire, rest);
    StagesRun(c, wire, rest, 0);
    assert ACTIONS[0..] == ACTIONS;
    assert Cancel(InProgress(c, task, wire), 0) == Stage(0, c, wire, rest) by {
      assert [task, AwaitLock(QueryLoadMech)][0 := Idle] == [Idle, AwaitLock(QueryLoadMech)];
    }
  }

  /** The other request has returned with the rejection that was the answer to `c`, which is all
      that the daemon has read. */
  ghost predicate Misled(c: Request, unread: Octets, s: State) {
    && s.requests == [c] && s.answers == [Refuse(Refused)] && s.toDaemon == unread
    && |s.pendings| == 2 && s.pendings[1].request == QueryLoadMech
    && s.returned == map[1 := Expected(c, Refuse(Refused))]
    && !AllOwn(s.pendings, s.requests, s.answers, s.returned)
  }

  lemma EndIsMisled(c: Request, wire: Octets, rest: Octets)
    requires !c.QueryVersion?
    ensures Misled(c, rest, Stage(7, c, wire, rest))
  {
    hide HandlerOf;
    var s := Stage(7, c, wire, rest);
    var outcome := s.returned[1];
    assert !Exact(s.pendings, s.requests, s.answers, 1, outcome) && outcome != Closed;
    assert 1 in s.returned && !AllOwn(s.pendings, s.requests, s.answers, s.returned);
  }

  /** Whatever the first request is that an open connection makes: cancelled while it waits for
      its reply, it leaves the other one with the answer to itself, before the daemon has so much
      as read the other one. */
  lemma CancelledWaitMisleads(c: Request, packet: Octets)
    requires Issued(5, c) && !c.QueryVersion? && Encodable(c) && packet == Encode(c)
    ensures Matched(InProgress(c, Waiting(0), packet))
    ensures
      var r := Run(Cancel(InProgress(c, Waiting(0), packet), 0), ACTIONS);
      r.Some? && Misled(c, [13], r.value)
  {
    hide Matched, Run, Parse, HandlerOf, Issued, Encodable, Misled, Stage, Encode;
    InProgressIsMatched(c, Waiting(0), |packet|);
    assert packet[..|packet|] == packet;
    ParseOfEncode(c, [13]);
    CancelledRuns(c, Waiting(0), packet, [13]);
    EndIsMisled(c, packet, [13]);
  }

  /** Cancelled halfway through sending GETALLENV, which has two bytes, it makes the daemon take
      the other request for its second one. */
  lemma CancelledSendSwallows()
    ensures Matched(InProgress(GetAllEnv, Sending(0, 1), [24]))
    ensures
      var r := Run(Cancel(InProgress(GetAllEnv, Sending(0, 1), [24]), 0), ACTIONS);
      r.Some? && Misled(GetAllEnv, [], r.value)
  {
    assert Encode(GetAllEnv)[..1] == [24];
    assert Parse([24] + [13]) == Some((GetAllEnv, [])) by {
      assert ([24] + [13])[2..] == [];
    }
    InProgressIsMatched(GetAllEnv, Sending(0, 1), 1);
    hide Matched, Run, Parse, HandlerOf, Issued, Misled, Stage;
    CancelledRuns(GetAllEnv, Sending(0, 1), [24], []);
    EndIsMisled(GetAllEnv, [24], []);
  }

  // ---- Where it starts is a state like any other ----

  lemma InProgressIsMatched(c: Request, task: Task, sent: nat)
    requires Issued(5, c) && Encodable(c) && sent <= |Encode(c)|
    requires task == Sending(0, sent) || (task == Waiting(0) && sent == |Encode(c)|)
    ensures Matched(InProgress(c, task, Encode(c)[..sent]))
  {
    hide Structure, InSync, HeardIn, Versioned, HandlerOf, Encode, Encodable, Issued;
    var s := InProgress(c, task, Encode(c)[..sent]);
    InProgressHasStructure(c, task, sent);
    InProgressIsVersioned(c, task, Encode(c)[..sent]);
    InProgressIsInSync(c, task, sent);
    NothingHeard(s);
    assert InSync(s, [], []) && HeardIn(s, [], []);
  }

  lemma InProgressHasStructure(c: Request, task: Task, sent: nat)
    requires Encodable(c) && sent <= |Encode(c)|
    requires task == Sending(0, sent) || (task == Waiting(0) && sent == |Encode(c)|)
    ensures Structure(InProgress(c, task, Encode(c)[..sent]))
  {
    assert Encodable(QueryLoadMech);
    hide Encode, Encodable, HandlerOf;
  }

  lemma InProgressIsVersioned(c: Request, task: Task, wire: Octets)
    requires Issued(5, c) && !task.AwaitLock?
    ensures var s := InProgress(c, task, wire); Versioned(s.version, s.phase, s.pendings, s.tasks)
  {
    assert Issued(5, QueryLoadMech);
    hide Issued, HandlerOf;
  }

  lemma InProgressIsInSync(c: Request, task: Task, sent: nat)
    requires Encodable(c) && sent <= |Encode(c)|
    requires task == Sending(0, sent) || (task == Waiting(0) && sent == |Encode(c)|)
    requires Structure(InProgress(c, task, Encode(c)[..sent]))
    ensures InSync(InProgress(c, task, Encode(c)[..sent]), [], [])
  {
    hide Structure, Encode, Encodable, HandlerOf;
    var s := InProgress(c, task, Encode(c)[..sent]);
    assert PacketOf(s.pendings, 0) == Encode(c);
    assert [] + s.fromDaemon == [];
  }

  lemma NothingHeard(s: State)
    requires s.emitted == [] && s.offered == [] && s.version == 5
    ensures HeardIn(s, [], [])
  {
    assert Before(s.emitted, []) == [];
    assert HeardFrom([], [], 5, [], 0);
  }
}
