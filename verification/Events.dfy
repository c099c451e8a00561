// The event buffer: bounded, dropping the newest, and never out of order.

module Events {
  import opened Prelude
  import opened Bytes
  import opened Protocol
  import opened Requests
  import opened Wire
  import opened Answers
  import opened Session
  import opened Framing
  import opened Synchrony
  import opened Matching

  /** `a` is what is left of `b` after some of its elements are taken out. */
  predicate Subsequence<T(==)>(a: seq<T>, b: seq<T>) {
    if a == [] then true
    else if b == [] then false
    else (a[|a| - 1] == b[|b| - 1] && Subsequence(a[..|a| - 1], b[..|b| - 1])) || Subsequence(a, b[..|b| - 1])
  }

  /** What a buffer keeps of the events offered to it is exactly the earliest ones that
      fit: one is dropped only when EVENT_BUFFER others are waiting. */
  lemma {:induction false} OfferKeepsEarliest(buffer: seq<Event>, events: seq<Event>)
    requires |buffer| <= EVENT_BUFFER
    ensures Offer(buffer, events) == buffer + events[..Min(|events|, EVENT_BUFFER - |buffer|)]
    decreases |events|
  {
    if events != [] {
      var next := if |buffer| < EVENT_BUFFER then buffer + [events[0]] else buffer;
      OfferKeepsEarliest(next, events[1..]);
      var n := Min(|events|, EVENT_BUFFER - |buffer|);
      if |buffer| < EVENT_BUFFER {
        assert [events[0]] + events[1..][..n - 1] == events[..n];
      }
    }
  }

  lemma {:induction false} SubsequenceSkips<T>(a: seq<T>, b: seq<T>, more: seq<T>)
    requires Subsequence(a, b)
    ensures Subsequence(a, b + more)
    decreases |more|
  {
    if more == [] {
      assert b + more == b;
    } else {
      SubsequenceSkips(a, b, more[..|more| - 1]);
      assert (b + more)[..|b + more| - 1] == b + more[..|more| - 1];
    }
  }

  lemma {:induction false} SubsequenceExtends<T>(a: seq<T>, b: seq<T>, more: seq<T>)
    requires Subsequence(a, b)
    ensures Subsequence(a + more, b + more)
    decreases |more|
  {
    if more == [] {
      assert a + more == a && b + more == b;
    } else {
      var init := more[..|more| - 1];
      SubsequenceExtends(a, b, init);
      assert (a + more)[..|a + more| - 1] == a + init && (b + more)[..|b + more| - 1] == b + init;
    }
  }

  ghost predicate InOrder(s: State) {
    |s.buffer| <= EVENT_BUFFER && Subsequence(s.received + s.buffer, s.offered)
  }

  lemma OfferKeepsOrder(received: seq<Event>, buffer: seq<Event>, offered: seq<Event>, events: seq<Event>)
    requires |buffer| <= EVENT_BUFFER && Subsequence(received + buffer, offered)
    ensures |Offer(buffer, events)| <= EVENT_BUFFER
    ensures Subsequence(received + Offer(buffer, events), offered + events)
  {
    hide Offer, Subsequence;
    OfferKeepsEarliest(buffer, events);
    var k := Min(|events|, EVENT_BUFFER - |buffer|);
    var kept, dropped := events[..k], events[k..];
    SubsequenceExtends(received + buffer, offered, kept);
    SubsequenceSkips(received + buffer + kept, offered + kept, dropped);
    assert received + (buffer + kept) == received + buffer + kept;
    assert offered + events == offered + kept + dropped;
  }

  lemma ReceiveKeepsOrder(s: State, n: nat)
    requires InOrder(s) && CanReceive(s, n)
    ensures InOrder(DoReceive(s, n))
  {
    hide Feed, Offer, Want, Subsequence, DoReceive;
    ReceiveOffers(s, n);
    OfferKeepsOrder(s.received, s.buffer, s.offered, Feed(s.version, s.reader, s.fromDaemon[..n]).events);
  }

  /** `after` has the same events as `before`, wherever they are. */
  predicate SameEvents(before: State, after: State) {
    after.received == before.received && after.buffer == before.buffer && after.offered == before.offered
  }

  lemma HandlerKeepsEvents(s: State, p: nat, r: Reader)
    requires p < |s.pendings|
    ensures SameEvents(s, InHandler(s, p, r))
  {
  }

  lemma ReadLoopKeepsEvents(s: State, r: Reader)
    ensures SameEvents(s, InReadLoop(s, r))
  {
    hide InHandler, Begin;
    if !r.At? && r.move.Reply? && s.pending.Some? && s.pending.value < |s.pendings| {
      HandlerKeepsEvents(s, s.pending.value,
                         Enter(Begin(s.pendings[s.pending.value].handler, r.move.code), []));
    }
  }

  /** What the read loop and the handlers do with the events they come by is to offer them. */
  lemma ReceiveOffers(s: State, n: nat)
    requires CanReceive(s, n)
    ensures n <= |s.fromDaemon| && Blocked(s.version, s.reader)
    ensures
      var s', events := DoReceive(s, n), Feed(s.version, s.reader, s.fromDaemon[..n]).events;
      && s'.received == s.received && s'.buffer == Offer(s.buffer, events) && s'.offered == s.offered + events
  {
    hide Feed, Offer, Want, InHandler, InReadLoop, DoReceive, CanReceive;
    CanReceiveBlocked(s, n);
    ReceiveIs(s, n);
    var r := Feed(s.version, s.reader, s.fromDaemon[..n]).reader;
    if s.bound.Some? && s.bound.value < |s.pendings| {
      HandlerKeepsEvents(Received(s, n), s.bound.value, r);
    } else {
      ReadLoopKeepsEvents(Received(s, n), r);
    }
  }

  lemma RequestersKeepEvents(s: State, a: Action)
    requires Enabled(s, a) && (a.Ask? || OfRequester(a))
    ensures SameEvents(s, Do(s, a))
  {
    hide CanAsk, PacketOf, HandlerOf, Accepts;
  }

  /** No other action than Receive offers anything, and none but TakeEvent takes anything. */
  lemma OthersOfferNothing(s: State, a: Action)
    requires Enabled(s, a) && !a.Receive?
    ensures
      var s' := Do(s, a);
      if a.TakeEvent? then
        && s.buffer != [] && s'.received == s.received + [s.buffer[0]] && s'.buffer == s.buffer[1..]
        && s'.offered == s.offered
      else
        SameEvents(s, s')
  {
    if a.Ask? || OfRequester(a) {
      hide Do, Enabled;
      RequestersKeepEvents(s, a);
    } else {
      hide CanTakeRequest, Parse, ReplyPackets, PacketBytes;
    }
  }

  lemma OrderKept(s: State, a: Action)
    requires InOrder(s) && Enabled(s, a)
    ensures InOrder(Do(s, a))
  {
    if a.Receive? {
      hide InOrder, CanReceive, DoReceive;
      ReceiveKeepsOrder(s, a.count);
    } else {
      hide Subsequence, Do, Enabled;
      OthersOfferNothing(s, a);
      if a.TakeEvent? {
        assert (s.received + [s.buffer[0]]) + s.buffer[1..] == s.received + s.buffer;
      }
    }
  }

  lemma {:induction false} OrderOfRun(s: State, actions: seq<Action>)
    requires InOrder(s) && Run(s, actions).Some?
    ensures InOrder(Run(s, actions).value)
    decreases |actions|
  {
    hide InOrder, Do, Enabled;
    if actions != [] {
      OrderKept(s, actions[0]);
      OrderOfRun(Do(s, actions[0]), actions[1..]);
    }
  }

  /** In every run, against any bytes whatever: what the subscriber has taken followed by
      what is buffered is a subsequence of the events offered, in order, and at most
      EVENT_BUFFER of them are waiting. */
  lemma EventStream(n: nat, minVersion: nat, actions: seq<Action>)
    requires Run(Init(n, minVersion), actions).Some?
    ensures
      var s := Run(Init(n, minVersion), actions).value;
      |s.buffer| <= EVENT_BUFFER && Subsequence(s.received + s.buffer, s.offered)
  {
    OrderOfRun(Init(n, minVersion), actions);
  }

  /** The buffer is not full, now and after each of the actions. */
  ghost predicate NeverFull(s: State, actions: seq<Action>)
    decreases |actions|
  {
    && |s.buffer| < EVENT_BUFFER
    && (actions != [] ==> Enabled(s, actions[0]) && NeverFull(Do(s, actions[0]), actions[1..]))
  }

  lemma NothingDroppedInStep(s: State, a: Action)
    requires Enabled(s, a) && s.received + s.buffer == s.offered
    requires |s.buffer| < EVENT_BUFFER && |Do(s, a).buffer| < EVENT_BUFFER
    ensures Do(s, a).received + Do(s, a).buffer == Do(s, a).offered
  {
    if a.Receive? {
      hide Feed, Offer, CanReceive, DoReceive;
      ReceiveOffers(s, a.count);
      AllIsKept(s.received, s.buffer, s.offered, Feed(s.version, s.reader, s.fromDaemon[..a.count]).events);
    } else {
      hide Do, Enabled;
      OthersOfferNothing(s, a);
      if a.TakeEvent? {
        assert (s.received + [s.buffer[0]]) + s.buffer[1..] == s.received + s.buffer;
      }
    }
  }

  lemma AllIsKept(received: seq<Event>, buffer: seq<Event>, offered: seq<Event>, events: seq<Event>)
    requires received + buffer == offered && |buffer| < EVENT_BUFFER && |Offer(buffer, events)| < EVENT_BUFFER
    ensures received + Offer(buffer, events) == offered + events
  {
    hide Offer;
    OfferKeepsEarliest(buffer, events);
    assert events[..|events|] == events;
    assert received + (buffer + events) == (received + buffer) + events;
  }

  lemma {:induction false} NothingDroppedInRun(s: State, actions: seq<Action>)
    requires NeverFull(s, actions) && s.received + s.buffer == s.offered && Run(s, actions).Some?
    ensures
      var end := Run(s, actions).value;
      end.received + end.buffer == end.offered
    decreases |actions|
  {
    hide Do, Enabled;
    if actions != [] {
      NothingDroppedInStep(s, actions[0]);
      NothingDroppedInRun(Do(s, actions[0]), actions[1..]);
    }
  }

  /** As long as the buffer has never been full, nothing that was offered is missing. */
  lemma NothingDropped(n: nat, minVersion: nat, actions: seq<Action>)
    requires Run(Init(n, minVersion), actions).Some? && NeverFull(Init(n, minVersion), actions)
    ensures
      var s := Run(Init(n, minVersion), actions).value;
      s.received + s.buffer == s.offered
  {
    hide Run, NeverFull;
    NothingDroppedInRun(Init(n, minVersion), actions);
  }

  /** Against an honest daemon, while the connection works and the buffer has never been full:
      what the subscriber has received and what is buffered for it are exactly the events of the
      information packets taken, in order. */
  lemma SubscriberHears(n: nat, minVersion: nat, actions: seq<Action>)
    returns (taken: nat, early: nat, part: Octets)
    requires HonestRun(n, minVersion, actions) && NeverFull(Init(n, minVersion), actions)
    requires var s := End(n, minVersion, actions); !s.closed && !s.sendBroken
    ensures
      var s := End(n, minVersion, actions);
      && Taken(s.emitted, s.fromDaemon, taken, part) && early <= taken
      && EventsOf(1, s.emitted[..early]).Some? && EventsOf(s.version, s.emitted[early..taken]).Some?
      && s.received + s.buffer
         == EventsOf(1, s.emitted[..early]).value + EventsOf(s.version, s.emitted[early..taken]).value
  {
    hide Run, NeverFull, EventsOf, StreamBytes, Init;
    taken, early, part := EventsAreHeard(n, minVersion, actions);
    NothingDropped(n, minVersion, actions);
  }

  // ---- What is offered ----

  /** The read loop takes any run of information packets whole and offers their events in
      order; an undecodable one ends the reader. */
  lemma {:induction false} InfosTaken(version: nat, ps: seq<Packet>, rest: Octets)
    requires AllWellFormed(ps) && forall i | 0 <= i < |ps| :: ps[i].Info?
    ensures
      var f := Feed(version, TOP, StreamBytes(ps) + rest);
      match EventsOf(version, ps)
      case None => f.reader.Stopped? && f.reader.move == Raise
      case Some(events) =>
        var g := Feed(version, TOP, rest);
        f == Fed(g.reader, events + g.events)
    decreases |ps|
  {
    hide Feed, Dispatch, WellFormed, PacketBytes;
    if ps == [] {
      assert StreamBytes(ps) + rest == rest;
      assert [] + Feed(version, TOP, rest).events == Feed(version, TOP, rest).events;
    } else {
      var tail := StreamBytes(ps[1..]) + rest;
      assert StreamBytes(ps) + rest == PacketBytes(ps[0]) + tail;
      InfoTaken(version, ReadLoop, ps[0], tail);
      InfosTaken(version, ps[1..], rest);
      if EventsOf(version, ps).Some? {
        var first, others := Dispatch(version, ps[0].kind, ps[0].payload).value, EventsOf(version, ps[1..]).value;
        var events := Feed(version, TOP, rest).events;
        assert first + (others + events) == (first + others) + events;
      }
    }
  }

  /** What a daemon announces: a change of a service, of a variable, or something that this
      client knows nothing of. A client of version 5 or more is told of a service in the old form,
      whatever its bytes, and in the new one, in either order; an older one in the old form. */
  datatype Notice =
    | Service(event: Event, pad: Padding, legacy: Octets, legacyFirst: bool)
    | Variable(name: Octets, overridden: Byte, nuls: nat)
    | Unknown(kind: Byte, payload: Octets)

  ghost predicate Announceable(version: nat, n: Notice) {
    match n
    case Service(event, _, legacy, _) =>
      event.ServiceChange? && Coherent(event.status, if version >= 5 then 5 else 4) && |legacy| <= 253
    case Variable(name, _, nuls) => |name| + nuls <= 250 && (name != [] ==> name[|name| - 1] != 0)
    case Unknown(kind, payload) => kind > 102 && |payload| <= 253
  }

  ghost function Announcement(version: nat, n: Notice): seq<Packet>
    requires Announceable(version, n)
  {
    match n
    case Service(event, pad, legacy, legacyFirst) =>
      if version < 5 then [Info(100, EncodeServiceEvent(event, 4, pad))]
      else
        var old_, new_ := Info(100, legacy), Info(101, EncodeServiceEvent(event, 5, pad));
        if legacyFirst then [old_, new_] else [new_, old_]
    case Variable(name, overridden, nuls) => [Info(102, EncodeEnvEvent(name, overridden, nuls))]
    case Unknown(kind, payload) => [Info(kind, payload)]
  }

  ghost function Announce(version: nat, ns: seq<Notice>): seq<Packet>
    requires forall i | 0 <= i < |ns| :: Announceable(version, ns[i])
  {
    if ns == [] then []
    else
      assert Announceable(version, ns[0]);
      Announcement(version, ns[0]) + Announce(version, ns[1..])
  }

  function EventsIn(ns: seq<Notice>): seq<Event> {
    if ns == [] then []
    else
      (match ns[0]
       case Service(event, _, _, _) => [event]
       case Variable(name, overridden, _) => [EnvChange(name, overridden != 0)]
       case Unknown(_, _) => [])
      + EventsIn(ns[1..])
  }

  lemma OnePacket(version: nat, p: Packet, events: seq<Event>)
    requires p.Info? && Dispatch(version, p.kind, p.payload) == Some(events)
    ensures EventsOf(version, [p]) == Some(events)
  {
    hide Dispatch;
    assert [p][1..] == [] && events + [] == events;
  }

  lemma TwoPackets(version: nat, p: Packet, q: Packet, events: seq<Event>, more: seq<Event>)
    requires p.Info? && Dispatch(version, p.kind, p.payload) == Some(events)
    requires q.Info? && Dispatch(version, q.kind, q.payload) == Some(more)
    ensures EventsOf(version, [p, q]) == Some(events + more)
  {
    hide Dispatch;
    assert [p, q][1..] == [q];
    OnePacket(version, q, more);
  }

  lemma NoticeOffered(version: nat, n: Notice)
    requires Announceable(version, n)
    ensures EventsOf(version, Announcement(version, n)) == Some(EventsIn([n]))
  {
    hide DecodeServiceEvent, EncodeServiceEvent, DecodeEnvEvent, EncodeEnvEvent, Coherent, EventsOf;
    assert [n][1..] == [] && EventsIn([]) == [];
    match n
    case Service(event, pad, legacy, legacyFirst) =>
      ServiceEventRoundTrip(event, if version >= 5 then 5 else 4, pad);
      assert [event] + [] == [event] == [] + [event];
      if version < 5 {
        OnePacket(version, Info(100, EncodeServiceEvent(event, 4, pad)), [event]);
      } else {
        var old_, new_ := Info(100, legacy), Info(101, EncodeServiceEvent(event, 5, pad));
        TwoPackets(version, old_, new_, [], [event]);
        TwoPackets(version, new_, old_, [event], []);
      }
    case Variable(name, overridden, nuls) =>
      EnvEventRoundTrip(name, overridden, nuls);
      OnePacket(version, Info(102, EncodeEnvEvent(name, overridden, nuls)), [EnvChange(name, overridden != 0)]);
      assert [EnvChange(name, overridden != 0)] + [] == [EnvChange(name, overridden != 0)];
    case Unknown(kind, payload) =>
      OnePacket(version, Info(kind, payload), []);
      assert EventsIn([n]) == [] + [];
  }

  /** At every version each announcement is offered once, decoded as what was announced, in the
      order of the announcements; what the client does not know is passed over. */
  lemma {:induction false} AnnouncedOnce(version: nat, ns: seq<Notice>)
    requires forall i | 0 <= i < |ns| :: Announceable(version, ns[i])
    ensures EventsOf(version, Announce(version, ns)) == Some(EventsIn(ns))
    decreases |ns|
  {
    hide EventsOf, Announceable, Announcement;
    if ns == [] {
      NoEvents(version);
    } else {
      NoticeOffered(version, ns[0]);
      AnnouncedOnce(version, ns[1..]);
      EventsAppend(version, Announcement(version, ns[0]), Announce(version, ns[1..]));
      FirstNotice(ns);
    }
  }

  lemma FirstNotice(ns: seq<Notice>)
    requires ns != []
    ensures EventsIn(ns) == EventsIn([ns[0]]) + EventsIn(ns[1..])
  {
    assert [ns[0]][1..] == [];
  }
}
