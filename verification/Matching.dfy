// The matching theorem: replies carry no request id, and still every request gets the
// answer to itself. All results are about whole runs against a daemon that answers in order
// and puts information packets between any reply packets, with no task cancelled inside a request.

module Matching {
  import opened Prelude
  import opened Bytes
  import opened Protocol
  import opened Requests
  import opened Wire
  import opened Answers
  import opened Framing
  import opened Session
  import opened Synchrony

  /** A run of such a daemon. */
  ghost predicate HonestRun(n: nat, minVersion: nat, actions: seq<Action>) {
    Run(Init(n, minVersion), actions).Some? && forall i | 0 <= i < |actions| :: !actions[i].EmitAnything?
  }

  ghost function End(n: nat, minVersion: nat, actions: seq<Action>): State
    requires HonestRun(n, minVersion, actions)
  {
    Run(Init(n, minVersion), actions).value
  }

  lemma EndIsMatched(n: nat, minVersion: nat, actions: seq<Action>)
    requires HonestRun(n, minVersion, actions)
    ensures Matched(End(n, minVersion, actions))
  {
    hide Matched, Do, Enabled, Init;
    InitMatched(n, minVersion);
    MatchedOfRun(Init(n, minVersion), actions);
  }

  // ---- Own answers ----

  /** In every run of any number of requesters each request ends with the decoding of the
      answer to that very request, or closed; and closed only once the reader has ended or a
      send has failed. Until then at most one request is without its answer, and what the
      daemon has not read yet is part of that one request. */
  lemma EveryRequestGetsItsOwnAnswer(n: nat, minVersion: nat, actions: seq<Action>)
    requires HonestRun(n, minVersion, actions)
    ensures
      var s := End(n, minVersion, actions);
      && (forall p | p in s.returned ::
            s.returned[p] == Closed || Exact(s.pendings, s.requests, s.answers, p, s.returned[p]))
      && (!s.closed && !s.sendBroken ==>
            && (forall p | p in s.returned :: Exact(s.pendings, s.requests, s.answers, p, s.returned[p]))
            && |s.requests| == |s.answers| <= |s.pendings| <= |s.answers| + 1
            && (forall p | 0 <= p < |s.answers| :: s.requests[p] == s.pendings[p].request)
            && (s.toDaemon != [] ==>
                  && |s.pendings| == |s.answers| + 1
                  && s.toDaemon <= PacketOf(s.pendings, |s.answers|)))
  {
    hide End, HonestRun, Matched;
    EndIsMatched(n, minVersion, actions);
    OwnAnswers(End(n, minVersion, actions));
  }

  lemma OwnAnswers(s: State)
    requires Matched(s)
    ensures AllOwn(s.pendings, s.requests, s.answers, s.returned)
    ensures
      Working(s) ==>
        && AllExact(s.pendings, s.requests, s.answers, s.returned)
        && |s.requests| == |s.answers| <= |s.pendings| <= |s.answers| + 1
        && (forall p | 0 <= p < |s.answers| :: s.requests[p] == s.pendings[p].request)
        && (s.toDaemon != [] ==>
              |s.pendings| == |s.answers| + 1 && s.toDaemon <= PacketOf(s.pendings, |s.answers|))
  {
    hide Structure, Versioned, AllOwn, AllExact, Broken, InSync, HeardIn;
    if Working(s) {
      var ps, got :| InSync(s, ps, got) && HeardIn(s, ps, got);
      OneUnanswered(s, ps, got);
    }
  }

  lemma OneUnanswered(s: State, ps: seq<Packet>, got: Octets)
    requires Structure(s) && InSync(s, ps, got)
    ensures
      && |s.requests| == |s.answers| <= |s.pendings| <= |s.answers| + 1
      && (forall p | 0 <= p < |s.answers| :: s.requests[p] == s.pendings[p].request)
      && (s.toDaemon != [] ==>
            |s.pendings| == |s.answers| + 1 && s.toDaemon <= PacketOf(s.pendings, |s.answers|))
  {
    hide PacketOf, AnswerTo, Expected, StreamBytes, HandlerFed, AtTop, Replies, ReplyPackets, Slot, AllEncodable;
    if s.pending.Some? {
      SlotIsLast(s);
      SentIsBounded(s);
    }
  }

  // ---- Nothing lost, nothing stuck ----

  /** What the transport has not delivered yet is no more than the information packets that
      the daemon has sent since its last reply packet, `k` and after. */
  ghost predicate OnlyInfosUnderWay(s: State, k: nat) {
    && k <= |s.emitted| && AllWellFormed(s.emitted[k..])
    && (forall i | k <= i < |s.emitted| :: s.emitted[i].Info?)
    && |s.fromDaemon| <= |StreamBytes(s.emitted[k..])|
  }

  /** No answer is lost: in every run, while the connection works, a request whose answer the
      daemon has sent and the transport has delivered is done, with that very answer, whatever
      information packets are still under way behind it. */
  lemma NoAnswerIsLost(n: nat, minVersion: nat, actions: seq<Action>, k: nat)
    requires HonestRun(n, minVersion, actions)
    requires
      var s := End(n, minVersion, actions);
      && !s.closed && !s.sendBroken
      && s.left == [] && s.pending.Some? && |s.answers| == |s.pendings| && OnlyInfosUnderWay(s, k)
    ensures
      var s := End(n, minVersion, actions);
      var p := s.pending.value;
      && p < |s.pendings| && p < |s.answers| && AnswerTo(s.pendings[p].request, s.answers[p])
      && s.pendings[p].outcome == Some(Expected(s.pendings[p].request, s.answers[p]))
  {
    hide End, HonestRun, Matched;
    EndIsMatched(n, minVersion, actions);
    ArrivedIsDone(End(n, minVersion, actions), k);
  }

  lemma ArrivedIsDone(s: State, k: nat)
    requires Matched(s) && Working(s)
    requires s.left == [] && s.pending.Some? && |s.answers| == |s.pendings| && OnlyInfosUnderWay(s, k)
    ensures
      var p := s.pending.value;
      && p < |s.pendings| && p < |s.answers| && AnswerTo(s.pendings[p].request, s.answers[p])
      && s.pendings[p].outcome == Some(Expected(s.pendings[p].request, s.answers[p]))
  {
    hide Structure, Versioned, AllOwn, AllExact, Broken, InSync, HeardIn, OnlyInfosUnderWay, AnswerTo, Expected;
    SlotIsLast(s);
    SlotIsIssued(s, s.pending.value);
    var ps, got :| InSync(s, ps, got) && HeardIn(s, ps, got);
    ArrivedInSync(s, ps, got, k);
  }

  lemma ArrivedInSync(s: State, ps: seq<Packet>, got: Octets, k: nat)
    requires Structure(s) && InSync(s, ps, got)
    requires s.left == [] && s.pending == Some(|s.pendings| - 1) && |s.answers| == |s.pendings|
    requires Issued(s.version, s.pendings[s.pending.value].request)
    requires OnlyInfosUnderWay(s, k)
    ensures
      var p := s.pending.value;
      && AnswerTo(s.pendings[p].request, s.answers[p])
      && s.pendings[p].outcome == Some(Expected(s.pendings[p].request, s.answers[p]))
  {
    hide PacketOf, Issued, AnswerTo, Expected, StreamBytes, HandlerFed, AtTop, Replies, ReplyPackets, RepliesTaken;
    hide Slot, AllEncodable, OnlyInfosUnderWay, UpToReply;
    var p := s.pending.value;
    if s.pendings[p].outcome.None? {
      var c, a := s.pendings[p].request, s.answers[p];
      assert Replies(ps) + [] == Replies(ps) == ReplyPackets(c, a);
      InfosBehind(s, ps, k);
      if s.bound.None? {
        TopIsShort(s.reader, got, ps, s.fromDaemon);
      } else {
        FullAnswerStops(s.version, c, a, ps, got, s.fromDaemon);
      }
      assert false;
    }
  }

  /** The last reply of the stream lies before `k`, so its bytes have been taken. */
  lemma InfosBehind(s: State, ps: seq<Packet>, k: nat)
    requires AllWellFormed(ps) && Suffix(ps, s.emitted) && Replies(ps) != [] && OnlyInfosUnderWay(s, k)
    ensures RepliesTaken(ps, s.fromDaemon)
  {
    hide StreamBytes, Replies, WellFormed;
    var whole := UpToReply(ps);
    var start := |s.emitted| - |ps|;
    assert forall i | 0 <= i < |ps| :: ps[i] == s.emitted[start + i];
    if whole == [] {
      InfosHaveNoReplies(ps);
    }
    assert s.emitted[start + |whole| - 1] == ps[|whole| - 1] == whole[|whole| - 1];
    assert start + |whole| <= k;
    var between, infos := ps[|whole|..k - start], s.emitted[k..];
    assert ps[|whole|..] == between + infos;
    StreamBytesAppend(between, infos);
  }

  /** The reader is never stuck: in every run, while the connection works, bytes that are under
      way can be received. */
  lemma ReaderIsNeverStuck(n: nat, minVersion: nat, actions: seq<Action>)
    requires HonestRun(n, minVersion, actions)
    requires
      var s := End(n, minVersion, actions);
      !s.closed && !s.sendBroken && s.fromDaemon != []
    ensures Enabled(End(n, minVersion, actions), Receive(1))
  {
    hide End, HonestRun, Matched, Enabled;
    EndIsMatched(n, minVersion, actions);
    NotStuck(End(n, minVersion, actions));
  }

  lemma NotStuck(s: State)
    requires Matched(s) && Working(s) && s.fromDaemon != []
    ensures Enabled(s, Receive(1))
  {
    hide Structure, Versioned, AllOwn, AllExact, Broken, InSync, HeardIn, CanReceive;
    var ps, got :| InSync(s, ps, got) && HeardIn(s, ps, got);
    NotStuckInSync(s, ps, got);
  }

  lemma NotStuckInSync(s: State, ps: seq<Packet>, got: Octets)
    requires Structure(s) && InSync(s, ps, got) && s.fromDaemon != [] && !s.closed
    ensures CanReceive(s, 1)
  {
    hide PacketOf, AnswerTo, Expected, StreamBytes, Replies, ReplyPackets, Slot, AllEncodable, Feed;
    if s.bound.None? {
      TopWants(s.version, s.reader, got);
    } else {
      FirstHasBytes(ps);
    }
  }

  lemma TopWants(version: nat, r: Reader, got: Octets)
    requires AtTop(r, got)
    ensures Blocked(version, r)
  {
  }

  // ---- Framing ----

  /** In every run, while the connection works: when the reader waits for a header byte, in the
      read loop or inside a listing, the bytes on the wire are the last packets the daemon
      sent, each of them whole. No byte of a payload is ever read as a header. */
  lemma NoPayloadReadAsHeader(n: nat, minVersion: nat, actions: seq<Action>) returns (k: nat)
    requires HonestRun(n, minVersion, actions)
    requires
      var s := End(n, minVersion, actions);
      && !s.closed && !s.sendBroken
      && s.reader.At? && s.reader.pt.Header? && s.reader.acc == []
    ensures
      var s := End(n, minVersion, actions);
      k <= |s.emitted| && AllWellFormed(s.emitted[k..]) && s.fromDaemon == StreamBytes(s.emitted[k..])
  {
    hide End, HonestRun, Matched;
    EndIsMatched(n, minVersion, actions);
    k := AlignedHeader(End(n, minVersion, actions));
  }

  lemma AlignedHeader(s: State) returns (k: nat)
    requires Matched(s) && Working(s)
    requires s.reader.At? && s.reader.pt.Header? && s.reader.acc == []
    ensures k <= |s.emitted| && AllWellFormed(s.emitted[k..]) && s.fromDaemon == StreamBytes(s.emitted[k..])
  {
    hide Structure, Versioned, AllOwn, AllExact, Broken, InSync, HeardIn, StreamBytes;
    var ps, got :| InSync(s, ps, got) && HeardIn(s, ps, got);
    if s.bound.Some? {
      BoundFits(s);
      SlotIsIssued(s, s.bound.value);
    }
    k := AlignedInSync(s, ps, got);
  }

  lemma AlignedInSync(s: State, ps: seq<Packet>, got: Octets) returns (k: nat)
    requires Structure(s) && InSync(s, ps, got)
    requires s.bound.Some? ==> s.bound.value < |s.pendings| && Issued(s.version, s.pendings[s.bound.value].request)
    requires s.reader.At? && s.reader.pt.Header? && s.reader.acc == []
    ensures k <= |s.emitted| && AllWellFormed(s.emitted[k..]) && s.fromDaemon == StreamBytes(s.emitted[k..])
  {
    hide PacketOf, Issued, AnswerTo, Expected, StreamBytes, HandlerFed, Replies, ReplyPackets, Slot, AllEncodable;
    k := |s.emitted| - |ps|;
    if s.bound.None? {
      assert got == [];
      assert [] + s.fromDaemon == s.fromDaemon;
    } else {
      var p := s.bound.value;
      var j, part := HandlerStands(s.version, s.pendings[p].request, s.answers[p], ps, s.left, got, s.fromDaemon);
      assert s.emitted[k..][j..] == s.emitted[k + j..];
      assert part == [] && [] + s.fromDaemon == s.fromDaemon;
      k := k + j;
    }
  }

  // ---- Events ----

  /** The daemon's first `taken` packets have been taken whole, and `part` of the next one. */
  ghost predicate Taken(emitted: seq<Packet>, wire: Octets, taken: nat, part: Octets) {
    && taken <= |emitted| && AllWellFormed(emitted[taken..])
    && part + wire == StreamBytes(emitted[taken..])
    && |part| < (if taken < |emitted| then |PacketBytes(emitted[taken])| else 1)
  }

  /** In every run, while the connection works, wherever the reader stands: the events offered
      are exactly those of the information packets taken, in the order in which the daemon sent
      them, each decoded at the version agreed on when it was taken. */
  lemma EventsAreHeard(n: nat, minVersion: nat, actions: seq<Action>)
    returns (taken: nat, early: nat, part: Octets)
    requires HonestRun(n, minVersion, actions)
    requires var s := End(n, minVersion, actions); !s.closed && !s.sendBroken
    ensures
      var s := End(n, minVersion, actions);
      && Taken(s.emitted, s.fromDaemon, taken, part) && early <= taken
      && EventsOf(1, s.emitted[..early]).Some? && EventsOf(s.version, s.emitted[early..taken]).Some?
      && s.offered == EventsOf(1, s.emitted[..early]).value + EventsOf(s.version, s.emitted[early..taken]).value
  {
    hide End, HonestRun, Matched, Taken;
    EndIsMatched(n, minVersion, actions);
    taken, early, part := HeardSoFar(End(n, minVersion, actions));
  }

  lemma HeardSoFar(s: State) returns (taken: nat, early: nat, part: Octets)
    requires Matched(s) && Working(s)
    ensures
      && Taken(s.emitted, s.fromDaemon, taken, part) && early <= taken <= |s.emitted|
      && EventsOf(1, s.emitted[..early]).Some? && EventsOf(s.version, s.emitted[early..taken]).Some?
      && s.offered == EventsOf(1, s.emitted[..early]).value + EventsOf(s.version, s.emitted[early..taken]).value
  {
    hide Structure, Versioned, AllOwn, AllExact, Broken, InSync, HeardFrom, EventsOf, StreamBytes, Inside, Stands;
    hide Taken;
    var ps: seq<Packet>, got: Octets :| InSync(s, ps, got) && HeardIn(s, ps, got);
    BoundFits(s);
    if s.bound.Some? {
      SlotIsIssued(s, s.bound.value);
    }
    var k: nat;
    k, part := StandsInSync(s, ps, got);
    HeardWhole(s.offered, Before(s.emitted, ps), s.version, Inside(s, ps, got), ps[..k]);
    taken := |s.emitted| - |ps| + k;
    TakenFrom(s.emitted, ps, s.fromDaemon, k, part);
    early := HeardUpTo(s.offered, s.emitted[..taken], s.version);
    assert s.emitted[..taken][..early] == s.emitted[..early];
    assert s.emitted[..taken][early..] == s.emitted[early..taken];
  }

  lemma HeardUpTo(offered: seq<Event>, taken: seq<Packet>, version: nat) returns (early: nat)
    requires Heard(offered, taken, version, [])
    ensures early <= |taken| && EventsOf(1, taken[..early]).Some? && EventsOf(version, taken[early..]).Some?
    ensures offered == EventsOf(1, taken[..early]).value + EventsOf(version, taken[early..]).value
  {
    hide EventsOf;
    early :| HeardFrom(offered, taken, version, [], early);
    var events := EventsOf(1, taken[..early]).value + EventsOf(version, taken[early..]).value;
    assert events + [] == events;
  }

  lemma TakenFrom(emitted: seq<Packet>, ps: seq<Packet>, wire: Octets, k: nat, part: Octets)
    requires Suffix(ps, emitted) && AllWellFormed(ps) && k <= |ps|
    requires part + wire == StreamBytes(ps[k..]) && |part| < (if k < |ps| then |PacketBytes(ps[k])| else 1)
    ensures Taken(emitted, wire, |emitted| - |ps| + k, part)
    ensures Before(emitted, ps) + ps[..k] == emitted[..|emitted| - |ps| + k]
  {
    hide StreamBytes, PacketBytes;
    var start := |emitted| - |ps|;
    assert emitted[start + k..] == ps[k..];
    assert emitted == emitted[..start] + ps;
    assert k < |ps| ==> emitted[start + k] == ps[k];
  }

  /** Where the reader stands, and the events it has offered since the packets before `ps`. */
  lemma StandsInSync(s: State, ps: seq<Packet>, got: Octets) returns (k: nat, part: Octets)
    requires Structure(s) && InSync(s, ps, got)
    requires s.bound.Some? ==> s.bound.value < |s.pendings| && Issued(s.version, s.pendings[s.bound.value].request)
    ensures Suffix(ps, s.emitted) && AllWellFormed(ps) && k <= |ps|
    ensures part + s.fromDaemon == StreamBytes(ps[k..]) && |part| < (if k < |ps| then |PacketBytes(ps[k])| else 1)
    ensures EventsOf(s.version, ps[..k]) == Some(Inside(s, ps, got))
  {
    hide PacketOf, Issued, AnswerTo, Expected, StreamBytes, HandlerFed, Replies, ReplyPackets, Slot, AllEncodable;
    hide PacketBytes, AtTop;
    k, part := 0, got;
    if s.bound.None? {
      TopIsPart(s.reader, got, ps, s.fromDaemon);
      assert ps[0..] == ps && ps[..0] == [];
    } else {
      var p := s.bound.value;
      k, part := HandlerStands(s.version, s.pendings[p].request, s.answers[p], ps, s.left, got, s.fromDaemon);
      FirstHasBytes(ps);
    }
  }
}
