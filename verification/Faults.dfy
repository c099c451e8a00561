// What a daemon that does not keep to the protocol can do to a session: end it, and no more.

module Faults {
  import opened Prelude
  import opened Bytes
  import opened Protocol
  import Requests
  import opened Wire
  import opened Answers
  import opened Session

  /** The session has ended: closed for good, and a request in the slot has got to know. */
  ghost predicate Ended(before: State, after: State) {
    && after.closed && after.tasks == before.tasks && after.lock == before.lock && after.pending == before.pending
    && |after.pendings| == |before.pendings|
    && forall p | 0 <= p < |before.pendings| ::
         after.pendings[p] == if before.pending == Some(p) then before.pendings[p].(outcome := Some(Closed))
                              else before.pendings[p]
  }

  lemma RaisingEnds(s: State, n: nat, events: seq<Event>)
    requires n <= |s.fromDaemon| && Blocked(s.version, s.reader) && s.bound.None?
    requires Feed(s.version, s.reader, s.fromDaemon[..n]) == Fed(Stopped(Raise, []), events)
    ensures Ended(s, DoReceive(s, n))
  {
    hide Feed, Offer, Want;
  }

  /** A reply when no request is in progress. */
  lemma StrayReplyEnds(s: State)
    requires s.reader == TOP && s.bound.None? && s.pending.None?
    requires s.fromDaemon != [] && s.fromDaemon[0] < 100
    ensures Blocked(s.version, s.reader) && Ended(s, DoReceive(s, 1))
  {
    hide Feed, Offer;
    var code := s.fromDaemon[0];
    assert s.fromDaemon[..1] == [code] == [code] + [];
    Take(s.version, Header(ReadLoop), [code], []);
    FeedStopped(s.version, Reply(code), [], []);
  }

  /** An information packet that says it is shorter than its own header. */
  lemma ShortPacketEnds(s: State, kind: Byte)
    requires s.reader == At(InfoLength(kind, ReadLoop), []) && s.bound.None?
    requires s.fromDaemon != [] && s.fromDaemon[0] < 2
    ensures Blocked(s.version, s.reader) && Ended(s, DoReceive(s, 1))
  {
    hide Feed;
    var length := s.fromDaemon[0];
    assert s.fromDaemon[..1] == [length] == [length] + [];
    Take(s.version, InfoLength(kind, ReadLoop), [length], []);
    FeedStopped(s.version, Raise, [], []);
    RaisingEnds(s, 1, []);
  }

  /** An information packet that cannot be decoded. */
  lemma UndecodableEventEnds(s: State, kind: Byte, payload: Octets)
    requires s.reader == At(InfoPayload(kind, |payload|, ReadLoop), []) && s.bound.None? && payload != []
    requires payload <= s.fromDaemon && Dispatch(s.version, kind, payload).None?
    ensures Blocked(s.version, s.reader) && Ended(s, DoReceive(s, |payload|))
  {
    hide Feed, Dispatch;
    assert s.fromDaemon[..|payload|] == payload == payload + [];
    Take(s.version, InfoPayload(kind, |payload|, ReadLoop), payload, []);
    FeedStopped(s.version, Raise, [], []);
    RaisingEnds(s, |payload|, []);
  }

  /** A reply code that is not defined, to any request but the version query. */
  lemma UndefinedCodeEnds(s: State, c: Requests.Request)
    requires s.reader == TOP && s.bound.None? && s.pending.Some? && s.pending.value < |s.pendings|
    requires s.pendings[s.pending.value].handler == HandlerOf(s.version, c) && !c.QueryVersion?
    requires s.fromDaemon != []
    requires
      var code := s.fromDaemon[0];
      code < 50 || code == 56 || code == 57 || 79 < code < 100
    ensures Blocked(s.version, s.reader) && Ended(s, DoReceive(s, 1))
  {
    hide Feed, Offer, HandlerOf, Begin;
    var code := s.fromDaemon[0];
    assert s.fromDaemon[..1] == [code] == [code] + [];
    Take(s.version, Header(ReadLoop), [code], []);
    FeedStopped(s.version, Reply(code), [], []);
    UndefinedCodeEndsReader(s.version, c, code);
  }
}
