// What every step of a session keeps: which answer the bytes under way belong to, where the
// reader stands in them, and which events it has offered. A run may contain every action
// except EmitAnything: the daemon answers in order and puts information packets between any
// reply packets. No task is cancelled inside a request.

module Synchrony {
  import opened Prelude
  import opened Bytes
  import opened Protocol
  import opened Requests
  import opened Wire
  import opened Answers
  import opened Framing
  import opened Session

  // ---- The invariant ----

  /** The outcome of the p-th request is the decoding of the daemon's answer to the p-th
      request it read, which is that request. */
  ghost predicate Exact(pendings: seq<Pending>, requests: seq<Request>, answers: seq<Answer>, p: nat,
                        outcome: Outcome)
  {
    && p < |pendings| && p < |answers| && p < |requests|
    && requests[p] == pendings[p].request
    && AnswerTo(requests[p], answers[p])
    && outcome == Expected(requests[p], answers[p])
  }

  ghost predicate AllExact(pendings: seq<Pending>, requests: seq<Request>, answers: seq<Answer>,
                   returned: map<nat, Outcome>)
  {
    forall p | p in returned :: Exact(pendings, requests, answers, p, returned[p])
  }

  ghost predicate AllOwn(pendings: seq<Pending>, requests: seq<Request>, answers: seq<Answer>,
                   returned: map<nat, Outcome>)
  {
    forall p | p in returned :: returned[p] == Closed || Exact(pendings, requests, answers, p, returned[p])
  }

  /** Every request is laid out for the version its reply will be read at. */
  ghost predicate Versioned(version: nat, phase: Phase, pendings: seq<Pending>, tasks: seq<Task>) {
    && (forall p | 0 <= p < |pendings| ::
          Issued(version, pendings[p].request) && pendings[p].handler == HandlerOf(version, pendings[p].request))
    && (forall t | 0 <= t < |tasks| && tasks[t].AwaitLock? :: Issued(version, tasks[t].request))
    && (!phase.Open? ==>
          && version == 1
          && (forall p | 0 <= p < |pendings| :: pendings[p].request.QueryVersion?)
          && (forall t | 0 <= t < |tasks| && tasks[t].AwaitLock? :: tasks[t].request.QueryVersion?))
  }

  /** After a failed send nothing more is sent, and no task gets as far as waiting. */
  ghost predicate Broken(tasks: seq<Task>) {
    forall t | 0 <= t < |tasks| :: !tasks[t].Waiting? && (tasks[t].Sending? ==> tasks[t].sent == 0)
  }

  ghost predicate Dead(pending: Option<nat>, pendings: seq<Pending>) {
    pending.Some? && pending.value < |pendings| ==> pendings[pending.value].outcome == Some(Closed)
  }

  /** How much of the current request packet has been handed to the transport. */
  function Sent(s: State): nat
    requires Structure(s) && s.pending.Some?
  {
    match s.tasks[s.lock.value]
    case Sending(_, sent) => sent
    case _ => |PacketOf(s.pendings, s.pending.value)|
  }

  /** No part of an answer is on its way, and the reader is between packets or inside an
      information packet. */
  ghost predicate Quiet(s: State, ps: seq<Packet>, got: Octets) {
    s.left == [] && Replies(ps) == [] && s.bound.None? && AtTop(s.reader, got)
  }

  /** An answer is on its way, and the reader has not come to it or is in its handler. */
  ghost predicate Answering(s: State, p: nat, ps: seq<Packet>, got: Octets)
    requires p < |s.pendings| && p < |s.answers| && AnswerTo(s.pendings[p].request, s.answers[p])
    requires AllWellFormed(ps)
  {
    && Replies(ps) + s.left == ReplyPackets(s.pendings[p].request, s.answers[p])
    && if s.bound.None? then AtTop(s.reader, got)
       else
         && s.bound == Some(p)
         && got != [] && ps != [] && ps[0].ReplyPacket? && s.reader.At?
         && s.reader == HandlerFed(s.version, s.pendings[p].request, ps[0].bytes, got[1..]).reader
  }

  /** The bytes `got`, which the reader has taken, and those on the wire are the last
      packets `ps` of the daemon; reader, pending slot and daemon agree on which answer they belong to. */
  ghost predicate InSync(s: State, ps: seq<Packet>, got: Octets)
    requires Structure(s)
  {
    && AllWellFormed(ps) && got + s.fromDaemon == StreamBytes(ps) && Suffix(ps, s.emitted)
    && |s.requests| == |s.answers| <= |s.pendings|
    && (forall p | 0 <= p < |s.answers| :: s.requests[p] == s.pendings[p].request)
    && if s.pending.None? then
         Quiet(s, ps, got) && |s.answers| == |s.pendings| && s.toDaemon == []
       else
         var p := s.pending.value;
         if |s.answers| == p then
           Quiet(s, ps, got) && s.pendings[p].outcome.None? && s.toDaemon == PacketOf(s.pendings, p)[..Sent(s)]
         else
           && |s.answers| == p + 1 && s.toDaemon == [] && Sent(s) == |PacketOf(s.pendings, p)|
           && AnswerTo(s.pendings[p].request, s.answers[p])
           && match s.pendings[p].outcome
              case None => Answering(s, p, ps, got)
              case Some(o) => Quiet(s, ps, got) && o == Expected(s.pendings[p].request, s.answers[p])
  }

  // ---- The events so far ----

  /** The events offered are those of the packets taken, the first `m` of which were read
      before a version was agreed on, and then `inside`. */
  ghost predicate HeardFrom(offered: seq<Event>, taken: seq<Packet>, version: nat, inside: seq<Event>, m: nat) {
    && m <= |taken|
    && EventsOf(1, taken[..m]).Some? && EventsOf(version, taken[m..]).Some?
    && offered == EventsOf(1, taken[..m]).value + EventsOf(version, taken[m..]).value + inside
  }

  ghost predicate Heard(offered: seq<Event>, taken: seq<Packet>, version: nat, inside: seq<Event>) {
    exists m: nat :: HeardFrom(offered, taken, version, inside, m)
  }

  /** The packets before `ps`. */
  function Before(emitted: seq<Packet>, ps: seq<Packet>): seq<Packet>
    requires |ps| <= |emitted|
  {
    emitted[..|emitted| - |ps|]
  }

  /** What the handler of the request in progress has offered. */
  ghost function Inside(s: State, ps: seq<Packet>, got: Octets): seq<Event> {
    if && s.bound.Some? && s.bound.value < |s.pendings| && got != []
       && ps != [] && ps[0].ReplyPacket? && ps[0].bytes != []
    then
      HandlerFed(s.version, s.pendings[s.bound.value].request, ps[0].bytes, got[1..]).events
    else
      []
  }

  ghost predicate HeardIn(s: State, ps: seq<Packet>, got: Octets) {
    Suffix(ps, s.emitted) && Heard(s.offered, Before(s.emitted, ps), s.version, Inside(s, ps, got))
  }

  lemma {:induction false} EventsAppend(version: nat, a: seq<Packet>, b: seq<Packet>)
    requires EventsOf(version, a).Some? && EventsOf(version, b).Some?
    ensures EventsOf(version, a + b) == Some(EventsOf(version, a).value + EventsOf(version, b).value)
    decreases |a|
  {
    hide Dispatch;
    if a == [] {
      assert a + b == b && [] + EventsOf(version, b).value == EventsOf(version, b).value;
    } else {
      assert (a + b)[1..] == a[1..] + b && (a + b)[0] == a[0];
      EventsAppend(version, a[1..], b);
      if a[0].Info? {
        var first := Dispatch(version, a[0].kind, a[0].payload).value;
        var more, last := EventsOf(version, a[1..]).value, EventsOf(version, b).value;
        assert first + (more + last) == (first + more) + last;
      }
    }
  }

  lemma HeardMore(offered: seq<Event>, taken: seq<Packet>, version: nat, inside: seq<Event>, events: seq<Event>)
    requires Heard(offered, taken, version, inside)
    ensures Heard(offered + events, taken, version, inside + events)
  {
    hide EventsOf;
    var m: nat :| HeardFrom(offered, taken, version, inside, m);
    var one, two := EventsOf(1, taken[..m]).value, EventsOf(version, taken[m..]).value;
    assert (one + two + inside) + events == one + two + (inside + events);
    assert HeardFrom(offered + events, taken, version, inside + events, m);
  }

  lemma HeardWhole(offered: seq<Event>, taken: seq<Packet>, version: nat, inside: seq<Event>, ps: seq<Packet>)
    requires Heard(offered, taken, version, inside) && EventsOf(version, ps) == Some(inside)
    ensures Heard(offered, taken + ps, version, [])
  {
    hide EventsOf;
    var m: nat :| HeardFrom(offered, taken, version, inside, m);
    assert (taken + ps)[..m] == taken[..m] && (taken + ps)[m..] == taken[m..] + ps;
    EventsAppend(version, taken[m..], ps);
    var one, two := EventsOf(1, taken[..m]).value, EventsOf(version, taken[m..]).value;
    assert one + two + inside == one + (two + inside) + [];
    assert HeardFrom(offered, taken + ps, version, [], m);
  }

  lemma HeardAgreed(offered: seq<Event>, taken: seq<Packet>, version: nat)
    requires Heard(offered, taken, 1, [])
    ensures Heard(offered, taken, version, [])
  {
    hide Dispatch;
    var m: nat :| HeardFrom(offered, taken, 1, [], m);
    EventsAppend(1, taken[..m], taken[m..]);
    var all := |taken|;
    assert taken[..m] + taken[m..] == taken == taken[..all] && taken[all..] == [];
    assert EventsOf(version, []) == Some([]);
    assert HeardFrom(offered, taken, version, [], all);
  }

  // ---- The whole ----

  predicate Working(s: State) { !s.closed && !s.sendBroken }

  ghost predicate Synchronised(s: State)
    requires Structure(s)
  {
    exists ps, got :: InSync(s, ps, got) && HeardIn(s, ps, got)
  }

  /** Everything about a state that does not depend on where its reader stands. */
  ghost predicate Sound(s: State) {
    && Structure(s)
    && Versioned(s.version, s.phase, s.pendings, s.tasks)
    && AllOwn(s.pendings, s.requests, s.answers, s.returned)
    && (s.sendBroken ==> Broken(s.tasks))
    && (Working(s) ==> AllExact(s.pendings, s.requests, s.answers, s.returned))
  }

  ghost predicate Matched(s: State) {
    && Sound(s)
    && (s.closed ==> Dead(s.pending, s.pendings))
    && (Working(s) ==> Synchronised(s))
  }

  lemma SentIsBounded(s: State)
    requires Structure(s) && s.pending.Some?
    ensures Sent(s) <= |PacketOf(s.pendings, s.pending.value)|
  {
    hide AllEncodable;
  }

  // ---- Requesters ----

  lemma AskKeepsMatched(s: State, t: nat, c: Request)
    requires Matched(s) && CanAsk(s, t, c)
    ensures Matched(DoAsk(s, t, c))
  {
    hide Structure, Synchronised, Versioned, AllOwn, AllExact, Broken, Issued;
    AskKeepsStructure(s, t, c);
    AskKeepsVersioned(s, t, c);
    AskKeepsBroken(s, t, c);
    if Working(s) {
      AskKeepsSync(s, t, c);
    }
  }

  lemma AskKeepsVersioned(s: State, t: nat, c: Request)
    requires Versioned(s.version, s.phase, s.pendings, s.tasks) && CanAsk(s, t, c)
    ensures
      var s' := DoAsk(s, t, c);
      Versioned(s'.version, s'.phase, s'.pendings, s'.tasks)
  {
    QueryIsIssued(s.version);
    hide Issued, HandlerOf;
  }

  lemma AskKeepsBroken(s: State, t: nat, c: Request)
    requires CanAsk(s, t, c)
    ensures Broken(s.tasks) ==> Broken(DoAsk(s, t, c).tasks)
  {
    hide Issued;
  }

  lemma AskKeepsSync(s: State, t: nat, c: Request)
    requires Structure(s) && Synchronised(s) && CanAsk(s, t, c)
    requires Structure(DoAsk(s, t, c))
    ensures Synchronised(DoAsk(s, t, c))
  {
    hide Issued, PacketOf, AnswerTo, Expected, StreamBytes, HandlerFed, AtTop, Replies, ReplyPackets, Heard;
    hide AllEncodable;
    var ps, got :| InSync(s, ps, got) && HeardIn(s, ps, got);
    assert InSync(DoAsk(s, t, c), ps, got) && HeardIn(DoAsk(s, t, c), ps, got);
  }

  lemma QueryIsIssued(version: nat)
    ensures Issued(version, QueryVersion)
  {
  }

  lemma AcquireKeepsMatched(s: State, t: nat)
    requires Matched(s) && CanAcquire(s, t)
    ensures Matched(DoAcquire(s, t))
  {
    hide Structure, Synchronised, Versioned, AllOwn, AllExact, Broken, HandlerOf;
    AcquireKeepsStructure(s, t);
    AcquireKeepsVersioned(s, t);
    AcquireKeepsOthers(s, t);
    NoLockNoSlot(s);
    if Working(s) {
      AcquireKeepsSync(s, t);
    }
  }

  lemma NoLockNoSlot(s: State)
    requires Structure(s)
    ensures s.lock.None? <==> s.pending.None?
  {
    hide AllEncodable;
  }

  lemma AcquireKeepsVersioned(s: State, t: nat)
    requires Versioned(s.version, s.phase, s.pendings, s.tasks) && CanAcquire(s, t)
    ensures
      var s' := DoAcquire(s, t);
      Versioned(s'.version, s'.phase, s'.pendings, s'.tasks)
  {
    hide Issued, HandlerOf;
  }

  lemma AcquireKeepsOthers(s: State, t: nat)
    requires CanAcquire(s, t)
    ensures
      var s' := DoAcquire(s, t);
      && (Broken(s.tasks) ==> Broken(s'.tasks))
      && (AllOwn(s.pendings, s.requests, s.answers, s.returned)
          ==> AllOwn(s'.pendings, s'.requests, s'.answers, s'.returned))
      && (AllExact(s.pendings, s.requests, s.answers, s.returned)
          ==> AllExact(s'.pendings, s'.requests, s'.answers, s'.returned))
  {
    hide HandlerOf, AnswerTo, Expected;
  }

  lemma AcquireKeepsSync(s: State, t: nat)
    requires Structure(s) && Synchronised(s) && CanAcquire(s, t) && !s.closed
    requires Structure(DoAcquire(s, t))
    ensures Synchronised(DoAcquire(s, t))
  {
    hide Issued, HandlerOf, PacketOf, AnswerTo, Expected, StreamBytes, HandlerFed, AtTop, Replies, ReplyPackets, Heard;
    hide AllEncodable;
    var s' := DoAcquire(s, t);
    var ps, got :| InSync(s, ps, got) && HeardIn(s, ps, got);
    assert PacketOf(s'.pendings, |s.pendings|)[..0] == [];
    assert InSync(s', ps, got) && HeardIn(s', ps, got);
  }

  lemma PushKeepsMatched(s: State, t: nat, n: nat)
    requires Matched(s) && CanPush(s, t, n)
    ensures Matched(DoPush(s, t, n))
  {
    hide Structure, Synchronised, Versioned, AllOwn, AllExact, PacketOf;
    PushKeepsStructure(s, t, n);
    SendKeepsVersioned(s, t, DoPush(s, t, n).tasks[t]);
    if Working(s) {
      PushKeepsSync(s, t, n);
    }
  }

  /** A task that goes on sending, or on to wait, waits for no lock. */
  lemma SendKeepsVersioned(s: State, t: nat, task: Task)
    requires Versioned(s.version, s.phase, s.pendings, s.tasks) && Has(s, t) && !task.AwaitLock?
    ensures Versioned(s.version, s.phase, s.pendings, s.tasks[t := task])
  {
    hide Issued, HandlerOf;
  }

  lemma PushKeepsSync(s: State, t: nat, n: nat)
    requires Structure(s) && Synchronised(s) && CanPush(s, t, n)
    requires Structure(DoPush(s, t, n))
    ensures Synchronised(DoPush(s, t, n))
  {
    hide Issued, HandlerOf, PacketOf, AnswerTo, Expected, StreamBytes, HandlerFed, AtTop, Replies, ReplyPackets, Heard;
    hide AllEncodable;
    var s' := DoPush(s, t, n);
    var ps, got :| InSync(s, ps, got) && HeardIn(s, ps, got);
    HolderHasLock(s, t);
    var p, sent := s.tasks[t].p, s.tasks[t].sent;
    var packet := PacketOf(s.pendings, p);
    assert packet[..sent] + packet[sent..sent + n] == packet[..sent + n];
    assert InSync(s', ps, got) && HeardIn(s', ps, got);
  }

  lemma ReturnKeepsMatched(s: State, t: nat)
    requires Matched(s) && CanReturn(s, t)
    ensures Matched(DoReturn(s, t))
  {
    hide Structure, Synchronised, Versioned, AllOwn, AllExact, Encode;
    ReturnKeepsStructure(s, t);
    SendKeepsVersioned(s, t, DoReturn(s, t).tasks[t]);
    if s.sendBroken {
      NothingSent(s, t);
    }
    if Working(s) {
      ReturnKeepsSync(s, t);
    }
  }

  /** A packet is not empty, so nothing returns from a send on a broken stream. */
  lemma NothingSent(s: State, t: nat)
    requires Structure(s) && Broken(s.tasks) && InSend(s, t)
    ensures !CanReturn(s, t)
  {
    hide Encode, Encodable;
  }

  lemma ReturnKeepsSync(s: State, t: nat)
    requires Structure(s) && Synchronised(s) && CanReturn(s, t)
    requires Structure(DoReturn(s, t))
    ensures Synchronised(DoReturn(s, t))
  {
    hide Issued, HandlerOf, PacketOf, AnswerTo, Expected, StreamBytes, HandlerFed, AtTop, Replies, ReplyPackets, Heard;
    hide AllEncodable;
    var s' := DoReturn(s, t);
    var ps, got :| InSync(s, ps, got) && HeardIn(s, ps, got);
    HolderHasLock(s, t);
    assert InSync(s', ps, got) && HeardIn(s', ps, got);
  }

  lemma FailKeepsMatched(s: State, t: nat)
    requires Matched(s) && InSend(s, t)
    ensures Matched(DoFail(s, t))
  {
    hide Structure, Synchronised, Versioned, AllExact, AnswerTo, Expected;
    FailKeepsStructure(s, t);
    SendKeepsVersioned(s, t, Idle);
    OnlySender(s, t);
  }

  lemma OnlySender(s: State, t: nat)
    requires Structure(s) && Has(s, t) && (s.tasks[t].Sending? || s.tasks[t].Waiting?)
    ensures Broken(s.tasks[t := Idle])
  {
    hide AllEncodable;
  }

  lemma ResumeKeepsMatched(s: State, t: nat)
    requires Matched(s) && CanResume(s, t)
    ensures Matched(DoResume(s, t))
  {
    hide Structure, Synchronised, Versioned, AllOwn, AllExact;
    ResumeKeepsStructure(s, t);
    HolderHasLock(s, t);
    OnlySender(s, t);
    ResumeKeepsVersioned(s, t);
    if Working(s) {
      ResumeKeepsSync(s, t);
    } else if s.closed {
      ReturnsClosed(s, t);
    }
  }

  lemma ReturnsClosed(s: State, t: nat)
    requires AllOwn(s.pendings, s.requests, s.answers, s.returned) && CanResume(s, t)
    requires s.pendings[s.tasks[t].p].outcome == Some(Closed)
    ensures
      var s' := DoResume(s, t);
      AllOwn(s'.pendings, s'.requests, s'.answers, s'.returned)
  {
    hide AnswerTo, Expected;
  }

  lemma ResumeKeepsVersioned(s: State, t: nat)
    requires Structure(s) && Versioned(s.version, s.phase, s.pendings, s.tasks) && CanResume(s, t)
    ensures
      var s' := DoResume(s, t);
      Versioned(s'.version, s'.phase, s'.pendings, s'.tasks)
  {
    hide Structure;
    SendKeepsVersioned(s, t, Idle);
    var s' := DoResume(s, t);
    if s'.version != s.version {
      QueriesAreIssued(s.version, s'.version, s.pendings, s.tasks[t := Idle]);
    }
  }

  lemma QueriesAreIssued(version: nat, agreed: nat, pendings: seq<Pending>, tasks: seq<Task>)
    requires Versioned(version, Negotiating, pendings, tasks)
    ensures Versioned(agreed, Open, pendings, tasks)
  {
  }

  lemma ResumeKeepsSync(s: State, t: nat)
    requires Structure(s) && Versioned(s.version, s.phase, s.pendings, s.tasks) && Synchronised(s) && CanResume(s, t)
    requires AllExact(s.pendings, s.requests, s.answers, s.returned)
    requires AllOwn(s.pendings, s.requests, s.answers, s.returned)
    requires Structure(DoResume(s, t))
    ensures
      var s' := DoResume(s, t);
      && Synchronised(s')
      && AllExact(s'.pendings, s'.requests, s'.answers, s'.returned)
      && AllOwn(s'.pendings, s'.requests, s'.answers, s'.returned)
  {
    hide Structure, Versioned, AllOwn, AllExact, InSync, HeardIn;
    var ps, got :| InSync(s, ps, got) && HeardIn(s, ps, got);
    HolderHasLock(s, t);
    ResumeKeepsInSync(s, t, ps, got);
    ResumeKeepsHeard(s, t, ps, got);
    ReturnsExact(s, t);
  }

  lemma ResumeKeepsInSync(s: State, t: nat, ps: seq<Packet>, got: Octets)
    requires Structure(s) && InSync(s, ps, got) && CanResume(s, t) && s.pending == Some(s.tasks[t].p)
    requires s.tasks[t].p == |s.pendings| - 1
    requires Structure(DoResume(s, t))
    ensures InSync(DoResume(s, t), ps, got) && s.bound.None?
    ensures Exact(s.pendings, s.requests, s.answers, s.tasks[t].p, s.pendings[s.tasks[t].p].outcome.value)
  {
    hide PacketOf, AnswerTo, Expected, StreamBytes, HandlerFed, AtTop, Replies, ReplyPackets, AllEncodable, Slot;
  }

  lemma ResumeKeepsHeard(s: State, t: nat, ps: seq<Packet>, got: Octets)
    requires Versioned(s.version, s.phase, s.pendings, s.tasks) && HeardIn(s, ps, got) && CanResume(s, t)
    requires s.bound.None?
    ensures HeardIn(DoResume(s, t), ps, got)
  {
    hide Heard, HandlerFed, HandlerOf, Issued;
    var s' := DoResume(s, t);
    if s'.version != s.version {
      HeardAgreed(s.offered, Before(s.emitted, ps), s'.version);
    }
  }

  lemma ReturnsExact(s: State, t: nat)
    requires CanResume(s, t)
    requires AllExact(s.pendings, s.requests, s.answers, s.returned)
    requires AllOwn(s.pendings, s.requests, s.answers, s.returned)
    requires Exact(s.pendings, s.requests, s.answers, s.tasks[t].p, s.pendings[s.tasks[t].p].outcome.value)
    ensures
      var s' := DoResume(s, t);
      && AllExact(s'.pendings, s'.requests, s'.answers, s'.returned)
      && AllOwn(s'.pendings, s'.requests, s'.answers, s'.returned)
  {
    hide Exact;
  }

  // ---- Daemon and subscriber ----

  lemma TakeRequestKeepsMatched(s: State, answer: Answer)
    requires Matched(s) && CanTakeRequest(s, answer)
    ensures Matched(DoTakeRequest(s, answer))
  {
    hide Structure, Synchronised, Versioned, AllOwn, AllExact, CanTakeRequest, Dead, Broken;
    TakeRequestElsewhere(s, answer);
    if Working(s) {
      TakeRequestKeepsSync(s, answer);
    }
  }

  lemma TakeRequestElsewhere(s: State, answer: Answer)
    requires Structure(s) && CanTakeRequest(s, answer)
    ensures
      var s' := DoTakeRequest(s, answer);
      && Structure(s')
      && s'.version == s.version && s'.phase == s.phase && s'.pendings == s.pendings && s'.tasks == s.tasks
      && s'.closed == s.closed && s'.sendBroken == s.sendBroken && s'.pending == s.pending
      && (AllOwn(s.pendings, s.requests, s.answers, s.returned)
          ==> AllOwn(s'.pendings, s'.requests, s'.answers, s'.returned))
      && (AllExact(s.pendings, s.requests, s.answers, s.returned)
          ==> AllExact(s'.pendings, s'.requests, s'.answers, s'.returned))
  {
    hide Slot, AllEncodable, Parse, ReplyPackets, AnswerTo, Expected;
  }

  /** What the daemon reads is the request in the slot. */
  lemma ReadsTheSlot(pendings: seq<Pending>, p: nat, sent: nat)
    requires p < |pendings| && sent <= |PacketOf(pendings, p)|
    requires Parse(PacketOf(pendings, p)[..sent]).Some?
    ensures Parse(PacketOf(pendings, p)[..sent]).value == (pendings[p].request, []) && sent == |PacketOf(pendings, p)|
  {
    hide Parse, Encode;
    var c, packet := pendings[p].request, PacketOf(pendings, p);
    EmptyParses();
    assert packet != [];
    if sent < |packet| {
      ParseOfPrefix(c, sent);
    }
    assert packet[..|packet|] == packet == packet + [];
    ParseOfEncode(c, []);
  }

  lemma NothingToRead()
    ensures Parse([]).None?
  {
    EmptyParses();
  }

  lemma TakeRequestKeepsSync(s: State, answer: Answer)
    requires Structure(s) && Synchronised(s) && CanTakeRequest(s, answer)
    requires Structure(DoTakeRequest(s, answer))
    ensures Synchronised(DoTakeRequest(s, answer))
  {
    hide Issued, HandlerOf, PacketOf, AnswerTo, Expected, StreamBytes, HandlerFed, AtTop, Replies, ReplyPackets, Heard;
    hide AllEncodable, Parse;
    var s' := DoTakeRequest(s, answer);
    var ps, got :| InSync(s, ps, got) && HeardIn(s, ps, got);
    NothingToRead();
    var p := s.pending.value;
    SentIsBounded(s);
    ReadsTheSlot(s.pendings, p, Sent(s));
    assert Replies(ps) + s'.left == s'.left;
    assert InSync(s', ps, got) && HeardIn(s', ps, got);
  }

  lemma EmitKeepsMatched(s: State, s': State, packet: Packet)
    requires Matched(s) && WellFormed(packet)
    requires s' == if packet.Info? then DoEmitInfo(s, packet)
                   else s.(fromDaemon := s.fromDaemon + packet.bytes, left := s'.left, emitted := s.emitted + [packet])
    requires packet.ReplyPacket? ==> s.left != [] && s'.left == s.left[1..] && packet.bytes == s.left[0]
    requires Structure(s')
    ensures Matched(s')
  {
    hide Structure, Synchronised, Versioned, AllOwn, AllExact, Dead, Broken, PacketBytes;
    if Working(s) {
      EmitKeepsSync(s, s', packet);
    }
  }

  lemma EmitKeepsSync(s: State, s': State, packet: Packet)
    requires Structure(s) && Synchronised(s) && WellFormed(packet)
    requires s' == if packet.Info? then DoEmitInfo(s, packet)
                   else s.(fromDaemon := s.fromDaemon + packet.bytes, left := s'.left, emitted := s.emitted + [packet])
    requires packet.ReplyPacket? ==> s.left != [] && s'.left == s.left[1..] && packet.bytes == s.left[0]
    requires Structure(s')
    ensures Synchronised(s')
  {
    hide InSync, HeardIn, Structure, PacketBytes, WellFormed;
    var ps, got :| InSync(s, ps, got) && HeardIn(s, ps, got);
    EmitKeepsInSync(s, s', packet, ps, got);
    EmitKeepsHeard(s, s', packet, ps, got);
  }

  lemma EmitKeepsHeard(s: State, s': State, packet: Packet, ps: seq<Packet>, got: Octets)
    requires HeardIn(s, ps, got) && s'.emitted == s.emitted + [packet]
    requires s'.offered == s.offered && s'.version == s.version && s'.bound == s.bound && s'.pendings == s.pendings
    requires s.bound.Some? ==> ps != []
    ensures HeardIn(s', ps + [packet], got)
  {
    hide Heard, HandlerFed;
    SuffixGrows(ps, s.emitted, packet);
  }

  lemma EmitKeepsInSync(s: State, s': State, packet: Packet, ps: seq<Packet>, got: Octets)
    requires Structure(s) && InSync(s, ps, got) && WellFormed(packet) && Structure(s')
    requires s' == if packet.Info? then DoEmitInfo(s, packet)
                   else s.(fromDaemon := s.fromDaemon + packet.bytes, left := s'.left, emitted := s.emitted + [packet])
    requires packet.ReplyPacket? ==> s.left != [] && s'.left == s.left[1..] && packet.bytes == s.left[0]
    ensures InSync(s', ps + [packet], got) && (s.bound.Some? ==> ps != [])
  {
    hide InSync, Structure, WellFormed;
    if packet.Info? {
      InfoKeepsInSync(s, packet, ps, got);
    } else {
      ReplyKeepsInSync(s, s', packet, ps, got);
    }
  }

  lemma InfoKeepsInSync(s: State, packet: Packet, ps: seq<Packet>, got: Octets)
    requires Structure(s) && InSync(s, ps, got) && WellFormed(packet) && packet.Info?
    requires Structure(DoEmitInfo(s, packet))
    ensures InSync(DoEmitInfo(s, packet), ps + [packet], got) && (s.bound.Some? ==> ps != [])
  {
    hide PacketOf, PacketBytes, AnswerTo, Expected, StreamBytes, HandlerFed, AtTop, Replies, ReplyPackets, Structure;
    hide WellFormed;
    OneMore(ps, packet, got, s.fromDaemon);
    SuffixGrows(ps, s.emitted, packet);
    assert Replies(ps + [packet]) == Replies(ps);
  }

  lemma ReplyKeepsInSync(s: State, s': State, packet: Packet, ps: seq<Packet>, got: Octets)
    requires Structure(s) && InSync(s, ps, got) && WellFormed(packet) && packet.ReplyPacket? && s.left != []
    requires s' == s.(fromDaemon := s.fromDaemon + packet.bytes, left := s.left[1..], emitted := s.emitted + [packet])
    requires packet.bytes == s.left[0] && Structure(s')
    ensures InSync(s', ps + [packet], got) && (s.bound.Some? ==> ps != [])
  {
    hide PacketOf, AnswerTo, Expected, StreamBytes, HandlerFed, AtTop, Replies, ReplyPackets, Structure;
    hide WellFormed;
    OneMore(ps, packet, got, s.fromDaemon);
    SuffixGrows(ps, s.emitted, packet);
    OneLess(Replies(ps), s.left);
  }

  lemma OneLess(done: seq<Octets>, left: seq<Octets>)
    requires left != []
    ensures (done + [left[0]]) + left[1..] == done + left
  {
  }

  lemma SuffixGrows(ps: seq<Packet>, emitted: seq<Packet>, packet: Packet)
    requires Suffix(ps, emitted)
    ensures Suffix(ps + [packet], emitted + [packet])
    ensures Before(emitted + [packet], ps + [packet]) == Before(emitted, ps)
    ensures ps != [] ==> (ps + [packet])[0] == ps[0]
  {
  }

  lemma EmitReplyKeepsMatched(s: State)
    requires Matched(s) && s.left != []
    ensures Working(s) ==> Matched(DoEmitReply(s))
  {
    if Working(s) {
      hide Slot, AllEncodable, InSync, HeardIn, Versioned, AllOwn, AllExact, Dead, Broken;
      LeftFits(s);
      assert Structure(DoEmitReply(s));
      hide Structure, Matched;
      EmitKeepsMatched(s, DoEmitReply(s), ReplyPacket(s.left[0]));
    }
  }

  lemma EmitWhenNotWorking(s: State)
    requires Matched(s) && s.left != [] && !Working(s)
    ensures Matched(DoEmitReply(s))
  {
    hide Slot, AllEncodable, Synchronised, Versioned, AllOwn, AllExact, Dead, Broken;
  }

  lemma LeftFits(s: State)
    requires Structure(s) && Synchronised(s) && s.left != []
    ensures WellFormed(ReplyPacket(s.left[0]))
  {
    hide Issued, HandlerOf, PacketOf, AnswerTo, Expected, StreamBytes, HandlerFed, AtTop, Replies, ReplyPackets, Heard;
    hide AllEncodable, Slot, WellFormed;
    var ps, got :| InSync(s, ps, got) && HeardIn(s, ps, got);
    var c, a := s.pendings[s.pending.value].request, s.answers[s.pending.value];
    ReplyBytesFit(c, a);
    assert s.left[0] == ReplyPackets(c, a)[|Replies(ps)|];
  }

  lemma OneMore(ps: seq<Packet>, packet: Packet, got: Octets, wire: Octets)
    requires AllWellFormed(ps) && WellFormed(packet)
    requires got + wire == StreamBytes(ps)
    ensures AllWellFormed(ps + [packet])
    ensures got + (wire + PacketBytes(packet)) == StreamBytes(ps + [packet])
    ensures Replies(ps + [packet]) == Replies(ps) + if packet.ReplyPacket? then [packet.bytes] else []
  {
    hide StreamBytes, Replies, PacketBytes, WellFormed;
    StreamBytesAppend(ps, [packet]);
    RepliesAppend(ps, [packet]);
    Singleton(packet);
  }

  lemma Singleton(packet: Packet)
    requires WellFormed(packet)
    ensures StreamBytes([packet]) == PacketBytes(packet)
    ensures Replies([packet]) == if packet.ReplyPacket? then [packet.bytes] else []
  {
    hide PacketBytes;
    assert StreamBytes([packet]) == PacketBytes(packet) + [];
  }

  lemma EmitInfoKeepsMatched(s: State, packet: Packet)
    requires Matched(s) && WellFormed(packet) && packet.Info?
    ensures Matched(DoEmitInfo(s, packet))
  {
    hide Slot, AllEncodable, Synchronised, Versioned, AllOwn, AllExact, Dead, Broken, PacketBytes;
    assert Structure(DoEmitInfo(s, packet));
    hide Structure, Matched;
    EmitKeepsMatched(s, DoEmitInfo(s, packet), packet);
  }

  lemma TakeEventKeepsMatched(s: State)
    requires Matched(s) && s.buffer != []
    ensures Matched(DoTakeEvent(s))
  {
    hide PacketOf, AnswerTo, Expected, StreamBytes, HandlerFed, AtTop, Replies, ReplyPackets, Heard;
    hide Slot, AllEncodable, Versioned, AllOwn, AllExact, Dead, Broken;
    var s' := DoTakeEvent(s);
    assert Structure(s');
    if Working(s) {
      var ps, got :| InSync(s, ps, got) && HeardIn(s, ps, got);
      assert InSync(s', ps, got) && HeardIn(s', ps, got);
    }
  }

  // ---- Reader ----

  lemma DeadIsMatched(s: State)
    requires Sound(s)
    ensures Matched(Die(s))
  {
    hide Structure, Versioned, Broken, AllExact, AnswerTo, Expected, Issued, HandlerOf;
    DieKeepsStructure(s);
    if s.pending.Some? {
      SlotIsLast(s);
      OutcomeKeepsSound(s, s.pending.value, Closed);
    }
  }

  lemma OutcomeKeepsSound(s: State, p: nat, outcome: Outcome)
    requires Sound(s) && p < |s.pendings|
    ensures Sound(SetOutcome(s, p, outcome))
  {
    hide Structure, Broken, AnswerTo, Expected, Issued, HandlerOf;
    OutcomeKeepsSlot(s, p, outcome);
  }

  /** Where the reader stands is not part of being sound. */
  lemma ReaderKeepsSound(s: State, r: Reader, bound: Option<nat>)
    requires Sound(s) && (bound.Some? ==> bound.value < |s.pendings|)
    ensures Sound(s.(reader := r, bound := bound))
  {
    hide Structure, Versioned, AllOwn, AllExact, Broken;
    BoundKeepsStructure(s, r, bound);
  }

  /** After a broken send nothing needs to be in step: the reader may do anything. */
  lemma AnyHandlerAfterBrokenSend(s: State, p: nat, r: Reader)
    requires Sound(s) && !s.closed && s.sendBroken && p < |s.pendings|
    ensures Matched(InHandler(s, p, r))
  {
    hide Sound, SetOutcome, Die, Synchronised;
    if r.At? {
      ReaderKeepsSound(s, r, Some(p));
    } else {
      ReaderKeepsSound(s, TOP, None);
      if r.move.Finish? {
        OutcomeKeepsSound(s.(reader := TOP, bound := None), p, r.move.outcome);
        OutcomeOnly(s.(reader := TOP, bound := None), p, r.move.outcome);
      } else {
        DeadIsMatched(s.(reader := TOP, bound := None));
      }
    }
  }

  lemma OutcomeOnly(s: State, p: nat, outcome: Outcome)
    requires p < |s.pendings|
    ensures
      var s' := SetOutcome(s, p, outcome);
      s'.closed == s.closed && s'.sendBroken == s.sendBroken
  {
  }

  /** The handler of the request in the slot has received `got` of its answer. */
  ghost predicate Serving(s: State, p: nat, ps: seq<Packet>, got: Octets) {
    && Structure(s)
    && s.pending == Some(p) && |s.requests| == |s.answers| == p + 1 == |s.pendings|
    && s.toDaemon == [] && Sent(s) == |PacketOf(s.pendings, p)| && s.pendings[p].outcome.None?
    && (forall q | 0 <= q <= p :: s.requests[q] == s.pendings[q].request)
    && AnswerTo(s.requests[p], s.answers[p])
    && AllWellFormed(ps) && ps != [] && ps[0].ReplyPacket? && ps[0].bytes != [] && got != []
    && got + s.fromDaemon == StreamBytes(ps) && Suffix(ps, s.emitted)
    && Replies(ps) + s.left == ReplyPackets(s.requests[p], s.answers[p])
    && Heard(s.offered, Before(s.emitted, ps), s.version,
             HandlerFed(s.version, s.requests[p], ps[0].bytes, got[1..]).events)
  }

  /** A handler in step with the stream stays in step, finishes its own request with the
      decoding of its answer, or ends the reader. */
  lemma HandlerKeepsMatched(s: State, p: nat, ps: seq<Packet>, got: Octets, r: Reader)
    requires Sound(s) && Working(s) && Serving(s, p, ps, got)
    requires r == HandlerFed(s.version, s.requests[p], ps[0].bytes, got[1..]).reader
    requires r.Stopped? ==> r.rest == []
    ensures Matched(InHandler(s, p, r))
  {
    hide Structure, Versioned, AllOwn, AllExact, Broken, Issued, HandlerFed, Expected, ReplyPackets, AnswerTo;
    hide StreamBytes, AtTop, Replies, Synchronised, SetOutcome, Die, Heard, PacketOf, EventsOf;
    SlotIsIssued(s, p);
    var after := HandlerProgress(s.version, s.requests[p], s.answers[p], ps, s.left, got, s.fromDaemon);
    if r.At? {
      ReaderKeepsSound(s, r, Some(p));
      HandlerWaits(s, p, ps, got, r);
    } else if r.move == Raise {
      ReaderKeepsSound(s, TOP, None);
      DeadIsMatched(s.(reader := TOP, bound := None));
    } else {
      ReaderKeepsSound(s, TOP, None);
      OutcomeKeepsSound(s.(reader := TOP, bound := None), p, r.move.outcome);
      OutcomeOnly(s.(reader := TOP, bound := None), p, r.move.outcome);
      HandlerEnds(s, p, ps, got, after, r.move.outcome);
    }
  }

  lemma SlotIsIssued(s: State, p: nat)
    requires Sound(s) && p < |s.pendings|
    ensures Issued(s.version, s.pendings[p].request)
    ensures s.pendings[p].handler == HandlerOf(s.version, s.pendings[p].request)
  {
    hide Structure, AllOwn, AllExact, Broken, Issued, HandlerOf;
  }

  lemma HandlerWaits(s: State, p: nat, ps: seq<Packet>, got: Octets, r: Reader)
    requires Serving(s, p, ps, got)
    requires r.At? && r == HandlerFed(s.version, s.requests[p], ps[0].bytes, got[1..]).reader
    requires Structure(s.(reader := r, bound := Some(p)))
    ensures Synchronised(s.(reader := r, bound := Some(p)))
  {
    hide HandlerFed, Expected, ReplyPackets, AnswerTo, StreamBytes, AtTop, Replies, Heard, PacketOf, Slot, AllEncodable;
    var s' := s.(reader := r, bound := Some(p));
    assert InSync(s', ps, got);
    assert HeardIn(s', ps, got);
  }

  lemma HandlerEnds(s: State, p: nat, ps: seq<Packet>, got: Octets, after: seq<Packet>, outcome: Outcome)
    requires Serving(s, p, ps, got) && s.left == []
    requires outcome == Expected(s.requests[p], s.answers[p])
    requires AllWellFormed(after) && s.fromDaemon == StreamBytes(after) && Replies(after) == [] && Suffix(after, ps)
    requires EventsOf(s.version, ps[..|ps| - |after|])
             == Some(HandlerFed(s.version, s.requests[p], ps[0].bytes, got[1..]).events)
    requires Structure(SetOutcome(s.(reader := TOP, bound := None), p, outcome))
    ensures Synchronised(SetOutcome(s.(reader := TOP, bound := None), p, outcome))
  {
    hide Serving, Expected, StreamBytes, Replies, InSync, HeardIn, HandlerFed, Structure, EventsOf, SetOutcome;
    HandlerEndsInSync(s, p, ps, got, after, outcome);
    HandlerEndsHeard(s, p, ps, got, after, outcome);
  }

  lemma HandlerEndsHeard(s: State, p: nat, ps: seq<Packet>, got: Octets, after: seq<Packet>, outcome: Outcome)
    requires Serving(s, p, ps, got) && Suffix(after, ps)
    requires EventsOf(s.version, ps[..|ps| - |after|])
             == Some(HandlerFed(s.version, s.requests[p], ps[0].bytes, got[1..]).events)
    ensures HeardIn(SetOutcome(s.(reader := TOP, bound := None), p, outcome), after, [])
  {
    hide HandlerFed, AnswerTo, StreamBytes, Replies, ReplyPackets, Heard, EventsOf, Structure, PacketOf;
    SuffixOfSuffix(after, ps, s.emitted);
    HeardWhole(s.offered, Before(s.emitted, ps), s.version,
               HandlerFed(s.version, s.requests[p], ps[0].bytes, got[1..]).events, ps[..|ps| - |after|]);
  }

  lemma HandlerEndsInSync(s: State, p: nat, ps: seq<Packet>, got: Octets, after: seq<Packet>, outcome: Outcome)
    requires Serving(s, p, ps, got) && s.left == []
    requires outcome == Expected(s.requests[p], s.answers[p])
    requires AllWellFormed(after) && s.fromDaemon == StreamBytes(after) && Replies(after) == [] && Suffix(after, ps)
    requires Structure(SetOutcome(s.(reader := TOP, bound := None), p, outcome))
    ensures InSync(SetOutcome(s.(reader := TOP, bound := None), p, outcome), after, [])
  {
    hide HandlerFed, Expected, ReplyPackets, AnswerTo, StreamBytes, AtTop, Replies, Heard, Encode, Encodable;
    hide Slot, AllEncodable;
    TopIsAtTop();
    SuffixOfSuffix(after, ps, s.emitted);
    assert [] + s.fromDaemon == s.fromDaemon;
  }

  lemma SuffixOfSuffix(after: seq<Packet>, ps: seq<Packet>, emitted: seq<Packet>)
    requires Suffix(after, ps) && Suffix(ps, emitted)
    ensures Suffix(after, emitted) && Before(emitted, after) == Before(emitted, ps) + ps[..|ps| - |after|]
  {
  }

  lemma TopIsAtTop()
    ensures AtTop(TOP, [])
  {
  }

  lemma HandlerNotEntered(version: nat, c: Request, packet: Octets)
    requires packet != []
    ensures HandlerFed(version, c, packet, []) == Fed(Handling(HandlerOf(version, c), packet), [])
  {
  }

  lemma HandlerContinues(version: nat, c: Request, packet: Octets, taken: Octets, chunk: Octets)
    requires packet != []
    requires HandlerFed(version, c, packet, taken).reader.At?
    ensures
      var f := HandlerFed(version, c, packet, taken);
      var g := Feed(version, f.reader, chunk);
      HandlerFed(version, c, packet, taken + chunk) == Fed(g.reader, f.events + g.events)
  {
    hide Feed, HandlerOf, Begin;
    FeedCompose(version, Handling(HandlerOf(version, c), packet), taken, chunk);
  }

  lemma ReceivedIsSound(s: State, n: nat)
    requires Sound(s) && CanReceive(s, n)
    ensures Sound(Received(s, n))
  {
    hide Structure, Versioned, AllOwn, AllExact, Broken, CanReceive, Feed, Offer;
    ReceivedKeepsStructure(s, n);
    CanReceiveBlocked(s, n);
  }

  /** In the handler, before and after a chunk. */
  lemma ServingReceives(s: State, n: nat, ps: seq<Packet>, got: Octets)
    requires Structure(s) && InSync(s, ps, got) && HeardIn(s, ps, got) && CanReceive(s, n) && s.bound.Some?
    requires Structure(Received(s, n))
    ensures
      var p, s1, more := s.bound.value, Received(s, n), got + s.fromDaemon[..n];
      && s.pending == Some(p) && p < |s.pendings| && Serving(s1, p, ps, more)
      && var r := Feed(s.version, s.reader, s.fromDaemon[..n]).reader;
         r == HandlerFed(s1.version, s1.requests[p], ps[0].bytes, more[1..]).reader
  {
    hide HandlerFed, Expected, ReplyPackets, AnswerTo, StreamBytes, AtTop, Replies, Heard, PacketOf, Feed, Offer, Want;
    hide Slot, AllEncodable, WellFormed;
    var p, chunk, wire := s.bound.value, s.fromDaemon[..n], s.fromDaemon[n..];
    FirstHasBytes(ps);
    HandlerContinues(s.version, s.pendings[p].request, ps[0].bytes, got[1..], chunk);
    assert (got + chunk)[1..] == got[1..] + chunk;
    assert (got + chunk) + wire == got + s.fromDaemon;
    SlotIsLast(s);
    HeardMore(s.offered, Before(s.emitted, ps), s.version,
              HandlerFed(s.version, s.pendings[p].request, ps[0].bytes, got[1..]).events,
              Feed(s.version, s.reader, chunk).events);
  }

  lemma FirstHasBytes(ps: seq<Packet>)
    requires AllWellFormed(ps)
    ensures ps != [] && ps[0].ReplyPacket? ==> ps[0].bytes != []
  {
  }

  lemma ReceiveInHandler(s: State, n: nat)
    requires Matched(s) && CanReceive(s, n) && !s.sendBroken && s.bound.Some?
    ensures Matched(DoReceive(s, n))
  {
    hide Sound, InSync, HeardIn, Serving, CanReceive, Structure, Feed, InHandler, InReadLoop, HandlerFed, Received;
    hide Want;
    CanReceiveBlocked(s, n);
    SoundHasStructure(s);
    var ps, got :| InSync(s, ps, got) && HeardIn(s, ps, got);
    ReceivedIsSound(s, n);
    SoundHasStructure(Received(s, n));
    ServingReceives(s, n, ps, got);
    ChunkFits(s, n);
    ReceivedWorks(s, n);
    HandlerKeepsMatched(Received(s, n), s.bound.value, ps, got + s.fromDaemon[..n],
                        Feed(s.version, s.reader, s.fromDaemon[..n]).reader);
    ReceiveIs(s, n);
  }

  lemma SoundHasStructure(s: State)
    requires Sound(s)
    ensures Structure(s)
  {
    hide *;
    assert Structure(s) by {
      SoundParts(s);
    }
  }

  lemma SoundParts(s: State)
    requires Sound(s)
    ensures Structure(s)
  {
    hide Structure, Versioned, AllOwn, AllExact, Broken;
  }

  lemma ChunkFits(s: State, n: nat)
    requires CanReceive(s, n)
    ensures
      var r := Feed(s.version, s.reader, s.fromDaemon[..n]).reader;
      r.Stopped? ==> r.rest == []
  {
    hide Feed;
    NothingBeyond(s.version, s.reader, s.fromDaemon[..n]);
  }

  lemma ReceivedWorks(s: State, n: nat)
    requires n <= |s.fromDaemon| && Blocked(s.version, s.reader)
    ensures
      var s1 := Received(s, n);
      && Working(s1) == Working(s) && s1.pendings == s.pendings && s1.pending == s.pending
      && s1.closed == s.closed && s1.sendBroken == s.sendBroken && s1.bound == s.bound && s1.version == s.version
  {
    hide Feed, Offer, Want;
  }

  /** At the top, after a chunk that did not bring the header of a reply. */
  lemma TopKeepsSync(s: State, n: nat, ps: seq<Packet>, got: Octets, r: Reader, ps': seq<Packet>, got': Octets)
    requires Structure(s) && InSync(s, ps, got) && HeardIn(s, ps, got) && s.bound.None?
    requires n <= |s.fromDaemon| && Blocked(s.version, s.reader)
    requires AllWellFormed(ps') && Suffix(ps', ps) && got' + s.fromDaemon[n..] == StreamBytes(ps')
    requires AtTop(r, got') && Replies(ps') == Replies(ps)
    requires EventsOf(s.version, ps[..|ps| - |ps'|]) == Some(Feed(s.version, s.reader, s.fromDaemon[..n]).events)
    requires Structure(Received(s, n).(reader := r))
    ensures Synchronised(Received(s, n).(reader := r))
  {
    hide HandlerFed, Expected, ReplyPackets, AnswerTo, StreamBytes, AtTop, Replies, Heard, PacketOf, Feed, Offer, Want;
    hide Slot, AllEncodable, EventsOf;
    var s' := Received(s, n).(reader := r);
    var events := Feed(s.version, s.reader, s.fromDaemon[..n]).events;
    SuffixOfSuffix(ps', ps, s.emitted);
    HeardMore(s.offered, Before(s.emitted, ps), s.version, [], events);
    assert [] + events == events;
    HeardWhole(s.offered + events, Before(s.emitted, ps), s.version, events, ps[..|ps| - |ps'|]);
    assert InSync(s', ps', got');
    assert HeardIn(s', ps', got');
  }

  lemma ReceiveAtTop(s: State, n: nat)
    requires Matched(s) && CanReceive(s, n) && !s.sendBroken && s.bound.None?
    ensures Matched(DoReceive(s, n))
  {
    hide Sound, HeardIn, CanReceive, Structure, Feed, InReadLoop, Received, Want;
    hide Expected, ReplyPackets, AnswerTo, StreamBytes, AtTop, Replies, PacketOf, Answering, Dispatch;
    CanReceiveBlocked(s, n);
    SoundHasStructure(s);
    var ps: seq<Packet>, got: Octets :| InSync(s, ps, got) && HeardIn(s, ps, got);
    ReceivedIsSound(s, n);
    SoundHasStructure(Received(s, n));
    ReceivedWorks(s, n);
    ReceiveIs(s, n);
    var chunk, wire := s.fromDaemon[..n], s.fromDaemon[n..];
    assert (got + chunk) + wire == got + s.fromDaemon;
    SyncIsAtTop(s, ps, got);
    WantedChunk(s, n);
    TopChunk(s.version, s.reader, got, chunk, ps, wire);
    var f := Feed(s.version, s.reader, chunk);
    if AtTop(f.reader, got + chunk) {
      assert ps[..|ps| - |ps|] == [];
      NoEvents(s.version);
      AtTopWaits(f.reader, got + chunk);
      WaitsAtTop(s, n, ps, got, f.reader, ps, got + chunk);
    } else if ps[0].ReplyPacket? {
      ReplyBegins(s, n, ps);
    } else if f.reader.At? {
      InfoTakenAtTop(s.version, ps);
      TopIsAtTop();
      assert [] + wire == wire;
      WaitsAtTop(s, n, ps, got, f.reader, ps[1..], []);
    } else {
      RaisesAtTop(s, n);
    }
  }

  lemma SyncIsAtTop(s: State, ps: seq<Packet>, got: Octets)
    requires Structure(s) && InSync(s, ps, got) && s.bound.None?
    ensures AtTop(s.reader, got)
  {
    hide AtTop, StreamBytes, Replies, ReplyPackets, AnswerTo, Expected, PacketOf, Slot, AllEncodable;
  }

  lemma WantedChunk(s: State, n: nat)
    requires CanReceive(s, n)
    ensures 0 < |s.fromDaemon[..n]| <= Want(s.version, s.reader.pt) - |s.reader.acc|
  {
    hide Want;
  }

  lemma AtTopWaits(r: Reader, got: Octets)
    requires AtTop(r, got)
    ensures r.At?
  {
  }

  lemma NoEvents(version: nat)
    ensures EventsOf(version, []) == Some([])
  {
  }

  /** The first packet was an information packet that could be decoded. */
  lemma InfoTakenAtTop(version: nat, ps: seq<Packet>)
    requires AllWellFormed(ps) && ps != [] && ps[0].Info?
    ensures AllWellFormed(ps[1..]) && Suffix(ps[1..], ps) && Replies(ps[1..]) == Replies(ps)
    ensures EventsOf(version, ps[..|ps| - |ps[1..]|]) == Dispatch(version, ps[0].kind, ps[0].payload)
  {
    hide Dispatch;
    assert ps[..|ps| - |ps[1..]|] == [ps[0]] && [ps[0]][1..] == [];
    var first := Dispatch(version, ps[0].kind, ps[0].payload);
    assert first.Some? ==> first.value + [] == first.value;
  }

  lemma WaitsAtTop(s: State, n: nat, ps: seq<Packet>, got: Octets, r: Reader, ps': seq<Packet>, got': Octets)
    requires Sound(s) && Structure(s) && InSync(s, ps, got) && HeardIn(s, ps, got) && s.bound.None? && Working(s)
    requires n <= |s.fromDaemon| && Blocked(s.version, s.reader) && CanReceive(s, n)
    requires AllWellFormed(ps') && Suffix(ps', ps) && got' + s.fromDaemon[n..] == StreamBytes(ps')
    requires r.At? && AtTop(r, got') && Replies(ps') == Replies(ps)
    requires EventsOf(s.version, ps[..|ps| - |ps'|]) == Some(Feed(s.version, s.reader, s.fromDaemon[..n]).events)
    ensures Matched(InReadLoop(Received(s, n), r))
  {
    hide Sound, InSync, HeardIn, Structure, Feed, Received, Want, CanReceive, StreamBytes, AtTop, Replies, EventsOf;
    hide Synchronised;
    ReceivedIsSound(s, n);
    ReceivedWorks(s, n);
    var s1 := Received(s, n);
    ReaderKeepsSound(s1, r, s1.bound);
    assert s1.(reader := r, bound := s1.bound) == s1.(reader := r);
    SoundHasStructure(s1.(reader := r));
    TopKeepsSync(s, n, ps, got, r, ps', got');
  }

  lemma RaisesAtTop(s: State, n: nat)
    requires Sound(s) && CanReceive(s, n) && s.bound.None?
    requires Feed(s.version, s.reader, s.fromDaemon[..n]).reader == Stopped(Raise, [])
    ensures Matched(InReadLoop(Received(s, n), Stopped(Raise, [])))
  {
    hide Sound, Structure, Feed, Received, Want, CanReceive, Die;
    CanReceiveBlocked(s, n);
    ReceivedIsSound(s, n);
    ReceivedWorks(s, n);
    var s1 := Received(s, n);
    ReaderKeepsSound(s1, TOP, s1.bound);
    assert s1.(reader := TOP, bound := s1.bound) == s1.(reader := TOP);
    DeadIsMatched(s1.(reader := TOP));
  }

  /** The header of a reply: the handler of the request in the slot is called. */
  lemma ReplyBegins(s: State, n: nat, ps: seq<Packet>)
    requires Sound(s) && Structure(s) && InSync(s, ps, []) && HeardIn(s, ps, []) && s.bound.None? && Working(s)
    requires CanReceive(s, n) && n == 1 && ps != [] && ps[0].ReplyPacket?
    requires Feed(s.version, s.reader, s.fromDaemon[..n]) == Fed(Stopped(Reply(PacketBytes(ps[0])[0]), []), [])
    ensures Matched(InReadLoop(Received(s, n), Stopped(Reply(PacketBytes(ps[0])[0]), [])))
  {
    hide Sound, Structure, Feed, Received, Want, CanReceive, InHandler, Begin, HandlerFed, Serving, InSync, HeardIn;
    hide HandlerOf, Issued;
    CanReceiveBlocked(s, n);
    ReceivedIsSound(s, n);
    SoundHasStructure(Received(s, n));
    ReceivedWorks(s, n);
    ServingBegins(s, n, ps);
    var p := s.pending.value;
    SlotIsIssued(s, p);
    HandlerNotEntered(s.version, s.pendings[p].request, ps[0].bytes);
    var chunk := s.fromDaemon[..1];
    assert chunk[1..] == [];
    HandlerKeepsMatched(Received(s, n), p, ps, chunk,
                        Handling(HandlerOf(s.version, s.pendings[p].request), ps[0].bytes));
  }

  lemma ServingBegins(s: State, n: nat, ps: seq<Packet>)
    requires Structure(s) && InSync(s, ps, []) && HeardIn(s, ps, []) && s.bound.None? && CanReceive(s, n) && n == 1
    requires ps != [] && ps[0].ReplyPacket? && Structure(Received(s, n))
    requires Feed(s.version, s.reader, s.fromDaemon[..n]) == Fed(Stopped(Reply(PacketBytes(ps[0])[0]), []), [])
    ensures
      && s.pending.Some? && s.pending.value < |s.pendings| && ps[0].bytes != []
      && Serving(Received(s, n), s.pending.value, ps, s.fromDaemon[..1])
      && Received(s, n).requests[s.pending.value] == s.pendings[s.pending.value].request
      && PacketBytes(ps[0]) == ps[0].bytes
  {
    hide HandlerFed, Expected, ReplyPackets, AnswerTo, StreamBytes, AtTop, Replies, Heard, PacketOf, Feed, Offer, Want;
    hide Slot, AllEncodable;
    ReplyIsNotQuiet(ps);
    SlotIsLast(s);
    FirstHasBytes(ps);
    var p := s.pending.value;
    var chunk := s.fromDaemon[..1];
    HandlerNotEntered(s.version, s.pendings[p].request, ps[0].bytes);
    assert chunk[1..] == [];
    assert chunk + s.fromDaemon[1..] == s.fromDaemon == [] + s.fromDaemon;
    assert s.offered + [] == s.offered;
  }

  lemma ReplyIsNotQuiet(ps: seq<Packet>)
    requires ps != [] && ps[0].ReplyPacket?
    ensures Replies(ps) != []
  {
  }

  lemma ReceiveAfterBrokenSend(s: State, n: nat)
    requires Matched(s) && CanReceive(s, n) && s.sendBroken
    ensures Matched(DoReceive(s, n))
  {
    hide Sound, Structure, Feed, Received, Want, CanReceive, InHandler, Begin, Die, Synchronised;
    CanReceiveBlocked(s, n);
    ReceivedIsSound(s, n);
    ReceivedWorks(s, n);
    ReceiveIs(s, n);
    var r, s1 := Feed(s.version, s.reader, s.fromDaemon[..n]).reader, Received(s, n);
    if s.bound.Some? && s.bound.value < |s.pendings| {
      AnyHandlerAfterBrokenSend(s1, s.bound.value, r);
    } else if r.Stopped? && r.move.Reply? && s.pending.Some? && s.pending.value < |s.pendings| {
      AnyHandlerAfterBrokenSend(s1, s.pending.value,
                                Enter(Begin(s.pendings[s.pending.value].handler, r.move.code), []));
    } else {
      AnyTopAfterBrokenSend(s1, r);
    }
  }

  lemma AnyTopAfterBrokenSend(s: State, r: Reader)
    requires Sound(s) && !s.closed && s.sendBroken
    requires r.At? || !r.move.Reply? || s.pending.None? || s.pending.value >= |s.pendings|
    ensures Matched(InReadLoop(s, r))
  {
    hide Sound, Structure, InHandler, Begin, Die, Synchronised;
    BoundFits(s);
    if r.At? {
      ReaderKeepsSound(s, r, s.bound);
      assert s.(reader := r, bound := s.bound) == s.(reader := r);
    } else {
      ReaderKeepsSound(s, TOP, s.bound);
      assert s.(reader := TOP, bound := s.bound) == s.(reader := TOP);
      DeadIsMatched(s.(reader := TOP));
    }
  }

  lemma BoundFits(s: State)
    requires Sound(s)
    ensures s.bound.Some? ==> s.bound.value < |s.pendings|
  {
    hide Slot, AllEncodable, Versioned, AllOwn, AllExact, Broken;
  }

  // ---- Whole runs ----

  lemma MatchedKept(s: State, a: Action)
    requires Matched(s) && Enabled(s, a) && !a.EmitAnything?
    ensures Matched(Do(s, a))
  {
    hide Matched, CanAsk, CanAcquire, CanPush, CanReturn, CanResume, InSend, CanReceive, CanTakeRequest, WellFormed;
    hide DoAsk, DoAcquire, DoPush, DoReturn, DoFail, DoResume, DoReceive, Die, DoTakeRequest, DoEmitReply, DoEmitInfo;
    hide DoTakeEvent;
    match a
    case Ask(t, c) => AskKeepsMatched(s, t, c);
    case Acquire(t) => AcquireKeepsMatched(s, t);
    case Push(t, n) => PushKeepsMatched(s, t, n);
    case SendReturns(t) => ReturnKeepsMatched(s, t);
    case SendFails(t) => FailKeepsMatched(s, t);
    case Resume(t) => ResumeKeepsMatched(s, t);
    case Receive(n) => ReceiveKeepsMatched(s, n);
    case StreamEnds => EndKeepsMatched(s);
    case TakeRequest(answer) => TakeRequestKeepsMatched(s, answer);
    case EmitReply => ReplyKeepsMatched(s);
    case EmitInfo(kind, payload) => EmitInfoKeepsMatched(s, Info(kind, payload));
    case TakeEvent => TakeEventKeepsMatched(s);
  }

  lemma EndKeepsMatched(s: State)
    requires Matched(s)
    ensures Matched(Die(s))
  {
    hide Sound, Die, Synchronised;
    DeadIsMatched(s);
  }

  lemma ReplyKeepsMatched(s: State)
    requires Matched(s) && s.left != []
    ensures Matched(DoEmitReply(s))
  {
    hide Matched, DoEmitReply;
    if Working(s) {
      EmitReplyKeepsMatched(s);
    } else {
      EmitWhenNotWorking(s);
    }
  }

  lemma ReceiveKeepsMatched(s: State, n: nat)
    requires Matched(s) && CanReceive(s, n)
    ensures Matched(DoReceive(s, n))
  {
    hide Matched, CanReceive, DoReceive;
    if s.sendBroken {
      ReceiveAfterBrokenSend(s, n);
    } else if s.bound.Some? {
      ReceiveInHandler(s, n);
    } else {
      ReceiveAtTop(s, n);
    }
  }

  lemma {:induction false} MatchedOfRun(s: State, actions: seq<Action>)
    requires Matched(s) && Run(s, actions).Some?
    requires forall i | 0 <= i < |actions| :: !actions[i].EmitAnything?
    ensures Matched(Run(s, actions).value)
    decreases |actions|
  {
    hide Matched, Do, Enabled;
    if actions != [] {
      MatchedKept(s, actions[0]);
      MatchedOfRun(Do(s, actions[0]), actions[1..]);
    }
  }

  lemma InitMatched(n: nat, minVersion: nat)
    ensures Matched(Init(n, minVersion))
  {
    hide Structure, Issued, HandlerOf, HandlerFed, Expected, ReplyPackets, AnswerTo, PacketOf;
    var s := Init(n, minVersion);
    InitStructure(n, minVersion);
    assert InSync(s, [], []) && HeardIn(s, [], []) by {
      assert [] + s.fromDaemon == [] && Before(s.emitted, []) == [];
      assert HeardFrom([], [], 1, [], 0);
    }
  }
}
