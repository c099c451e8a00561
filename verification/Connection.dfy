// The reader side of client.py in its own form: loops over a stream that arrives in
// chunks, handlers that read a reply body, and a bounded event buffer. Each method is
// proved to do what the reader machine does on the same bytes, so nothing it returns
// depends on how the transport cuts the stream.

module Connection {
  import opened Prelude
  import opened Bytes
  import opened Protocol
  import opened Requests
  import opened Wire
  import opened Answers
  import opened Framing
  import opened Session
  import opened Events

  /** A coroutine returned a value, met the end of the stream, or raised. */
  datatype Io<+T> = Got(value: T) | Ended | Raised

  /** A handler that started at `start` on the bytes `before` ended with `r`, having left
      `after` unread and offered `events`. */
  predicate Ran(version: nat, start: Reader, before: Octets, after: Octets, events: seq<Event>, r: Io<Outcome>)
    requires Ready(version, start)
  {
    var f := Feed(version, start, before);
    && f.events == events
    && match r
       case Got(outcome) => f.reader == Stopped(Finish(outcome), after)
       case Ended => f.reader.At? && after == []
       case Raised => f.reader == Stopped(Raise, after)
  }

  /** How a caller of _next_reply goes on from what it returned. */
  predicate RanToReply(version: nat, caller: Caller, before: Octets, after: Octets, events: seq<Event>, r: Io<Byte>) {
    var f := Feed(version, At(Header(caller), []), before);
    match r
    case Got(code) =>
      var g := Feed(version, Enter(Returned(caller, code), []), after);
      code < 100 && f == Fed(g.reader, events + g.events)
    case Ended => f.reader.At? && after == [] && f.events == events
    case Raised => f == Fed(Stopped(Raise, after), events)
  }

  lemma {:induction false} OfferCompose(buffer: seq<Event>, a: seq<Event>, b: seq<Event>)
    ensures Offer(Offer(buffer, a), b) == Offer(buffer, a + b)
    decreases |a|
  {
    if a == [] {
      assert a + b == b;
    } else {
      assert (a + b)[1..] == a[1..] + b;
      OfferCompose(if |buffer| < EVENT_BUFFER then buffer + [a[0]] else buffer, a[1..], b);
    }
  }

  lemma OfferNothing(buffer: seq<Event>)
    ensures Offer(buffer, []) == buffer
  {
  }

  /** The outcome of a move that ends a handler. */
  function Final(m: Move): Io<Outcome>
    requires m.Finish? || m.Raise?
  {
    if m.Finish? then Got(m.outcome) else Raised
  }

  lemma RanFinal(version: nat, m: Move, rest: Octets)
    requires m.Finish? || m.Raise?
    ensures Ran(version, Enter(m, []), rest, rest, [], Final(m))
  {
    assert [] + rest == rest;
  }

  /** A call of `exactly` in the middle of a handler. */
  lemma RanAfter(version: nat, pt: Point, before: Octets, bs: Octets, middle: Octets, after: Octets,
                 events: seq<Event>, r: Io<Outcome>)
    requires before == bs + middle
    requires |bs| == if Want(version, pt) <= 0 then 0 else Want(version, pt)
    requires Offers(version, pt, bs) == []
    requires Ran(version, Enter(After(version, pt, bs), []), middle, after, events, r)
    ensures Ran(version, At(pt, []), before, after, events, r)
  {
    hide Feed, After;
    Take(version, pt, bs, middle);
    assert [] + events == events;
  }

  lemma RanShort(version: nat, pt: Point, before: Octets)
    requires |before| < Want(version, pt)
    ensures Ran(version, At(pt, []), before, [], [], Ended)
  {
    Short(version, pt, before);
  }

  /** A handler that started at `start` on `before` has offered `events` and now stands at
      `r` with `now` unread: however it ends from here, it ends from the start. */
  ghost predicate Continues(version: nat, start: Reader, before: Octets, events: seq<Event>, r: Reader, now: Octets)
    requires Ready(version, start) && Ready(version, r)
  {
    forall after, more, end | Ran(version, r, now, after, more, end) ::
      Ran(version, start, before, after, events + more, end)
  }

  lemma ContinuesStarts(version: nat, start: Reader, before: Octets)
    requires Ready(version, start)
    ensures Continues(version, start, before, [], start, before)
  {
    hide Ran;
    forall after, more: seq<Event>, end | Ran(version, start, before, after, more, end)
      ensures Ran(version, start, before, after, [] + more, end)
    {
      assert [] + more == more;
    }
  }

  lemma ContinuesAfter(version: nat, start: Reader, before: Octets, events: seq<Event>, pt: Point, bs: Octets,
                       now: Octets)
    requires Ready(version, start)
    requires |bs| == if Want(version, pt) <= 0 then 0 else Want(version, pt)
    requires Offers(version, pt, bs) == []
    requires Continues(version, start, before, events, At(pt, []), bs + now)
    ensures Continues(version, start, before, events, Enter(After(version, pt, bs), []), now)
  {
    hide Ran, After, Want;
    forall after, more, end | Ran(version, Enter(After(version, pt, bs), []), now, after, more, end)
      ensures Ran(version, start, before, after, events + more, end)
    {
      RanAfter(version, pt, bs + now, bs, now, after, more, end);
    }
  }

  lemma ContinuesReply(version: nat, start: Reader, before: Octets, events: seq<Event>, caller: Caller, now: Octets,
                       code: Byte, left: Octets, taken: seq<Event>)
    requires Ready(version, start)
    requires Continues(version, start, before, events, At(Header(caller), []), now)
    requires RanToReply(version, caller, now, left, taken, Got(code))
    ensures Continues(version, start, before, events + taken, Enter(Returned(caller, code), []), left)
  {
    forall after, more, end | Ran(version, Enter(Returned(caller, code), []), left, after, more, end)
      ensures Ran(version, start, before, after, (events + taken) + more, end)
    {
      RanReply(version, caller, now, code, left, taken, after, more, end);
      assert events + (taken + more) == (events + taken) + more;
    }
  }

  lemma RanReply(version: nat, caller: Caller, now: Octets, code: Byte, left: Octets, taken: seq<Event>,
                 after: Octets, more: seq<Event>, end: Io<Outcome>)
    requires RanToReply(version, caller, now, left, taken, Got(code))
    requires Ran(version, Enter(Returned(caller, code), []), left, after, more, end)
    ensures Ran(version, At(Header(caller), []), now, after, taken + more, end)
  {
    hide Feed;
  }

  lemma ContinuesEnds(version: nat, start: Reader, before: Octets, events: seq<Event>, r: Reader, now: Octets,
                      after: Octets, more: seq<Event>, end: Io<Outcome>)
    requires Ready(version, start) && Ready(version, r)
    requires Continues(version, start, before, events, r, now) && Ran(version, r, now, after, more, end)
    ensures Ran(version, start, before, after, events + more, end)
  {
  }

  /** One stretch of a handler after another. */
  lemma ContinuesThen(version: nat, start: Reader, before: Octets, events: seq<Event>, r: Reader, middle: Octets,
                      last: Reader, now: Octets)
    requires Ready(version, start) && Ready(version, r) && Ready(version, last)
    requires Continues(version, start, before, events, r, middle) && Continues(version, r, middle, [], last, now)
    ensures Continues(version, start, before, events, last, now)
  {
    hide Ran, Ready;
    forall after, more: seq<Event>, end | Ran(version, last, now, after, more, end)
      ensures Ran(version, start, before, after, events + more, end)
    {
      assert Ran(version, r, middle, after, [] + more, end);
      assert [] + more == more;
    }
  }

  /** _next_reply met the end of the stream or raised, and so does its caller. */
  lemma RanNoReply(version: nat, caller: Caller, now: Octets, after: Octets, taken: seq<Event>, r: Io<Byte>)
    requires RanToReply(version, caller, now, after, taken, r) && !r.Got?
    ensures Ran(version, At(Header(caller), []), now, after, taken, if r.Ended? then Ended else Raised)
  {
    hide Feed;
  }

  // ---- One turn of the read loop ----

  /** _read_loop from the top until the handler `h` of the pending request is through. */
  function Turn(version: nat, h: Handler, s: Octets): Fed {
    var f := Feed(version, TOP, s);
    if f.reader.Stopped? && f.reader.move.Reply? then
      var g := Feed(version, Enter(Begin(h, f.reader.move.code), []), f.reader.rest);
      Fed(g.reader, f.events + g.events)
    else
      f
  }

  predicate TurnRan(version: nat, h: Handler, before: Octets, after: Octets, events: seq<Event>, r: Io<Outcome>) {
    var f := Turn(version, h, before);
    && f.events == events
    && match r
       case Got(outcome) => f.reader == Stopped(Finish(outcome), after)
       case Ended => f.reader.At? && after == []
       case Raised => f.reader == Stopped(Raise, after)
  }

  lemma TurnToHandler(version: nat, h: Handler, before: Octets, code: Byte, middle: Octets, taken: seq<Event>,
                      after: Octets, more: seq<Event>, r: Io<Outcome>)
    requires RanToReply(version, ReadLoop, before, middle, taken, Got(code))
    requires Ran(version, Enter(Begin(h, code), []), middle, after, more, r)
    ensures TurnRan(version, h, before, after, taken + more, r)
  {
    hide Feed, Begin;
    FeedStopped(version, Reply(code), [], middle);
    assert taken + [] == taken && [] + middle == middle;
  }

  lemma TurnNoReply(version: nat, h: Handler, before: Octets, after: Octets, taken: seq<Event>, r: Io<Byte>)
    requires RanToReply(version, ReadLoop, before, after, taken, r) && !r.Got?
    ensures TurnRan(version, h, before, after, taken, if r.Ended? then Ended else Raised)
  {
    hide Feed, Begin;
  }

  lemma TurnThroughInfos(version: nat, h: Handler, infos: seq<Packet>, code: Byte, tail: Octets)
    requires AllWellFormed(infos) && forall i | 0 <= i < |infos| :: infos[i].Info?
    requires EventsOf(version, infos).Some? && code < 100
    ensures
      var g := Feed(version, Enter(Begin(h, code), []), tail);
      Turn(version, h, StreamBytes(infos) + ([code] + tail)) == Fed(g.reader, EventsOf(version, infos).value + g.events)
  {
    hide Feed, Begin, EventsOf;
    InfosTaken(version, infos, [code] + tail);
    Take(version, Header(ReadLoop), [code], tail);
    FeedStopped(version, Reply(code), [], tail);
    assert [] + tail == tail;
    var events := EventsOf(version, infos).value;
    assert events + ([] + []) == events;
  }

  /** On a stream of information packets followed by an answer, with information packets
      between its parts, one turn gives the decoding of that answer, offers every event in
      the order of arrival, and leaves what follows the answer. */
  lemma TurnAnswers(version: nat, c: Request, a: Answer, infos: seq<Packet>, ps: seq<Packet>, rest: Octets)
    requires Issued(version, c) && AnswerTo(c, a) && Carries(ps, c, a)
    requires AllWellFormed(infos) && forall i | 0 <= i < |infos| :: infos[i].Info?
    requires EventsOf(version, infos).Some? && EventsOf(version, ps).Some?
    ensures Turn(version, HandlerOf(version, c), StreamBytes(infos) + StreamBytes(ps) + rest)
         == Fed(Stopped(Finish(Expected(c, a)), rest), EventsOf(version, infos).value + EventsOf(version, ps).value)
  {
    hide Turn, Feed, Begin, HandlerOf, Expected, Issued, AnswerTo, ReplyPackets, EventsOf, StreamBytes, Replies;
    FirstCode(ps);
    var code, body := ps[0].bytes[0], StreamBytes(ps)[1..];
    assert StreamBytes(infos) + StreamBytes(ps) + rest == StreamBytes(infos) + ([code] + (body + rest));
    TurnThroughInfos(version, HandlerOf(version, c), infos, code, body + rest);
    ServeAnswer(version, c, a, ps, rest);
  }

  lemma FirstCode(ps: seq<Packet>)
    requires AllWellFormed(ps) && ps != [] && ps[0].ReplyPacket?
    ensures ps[0].bytes != [] && ps[0].bytes[0] < 100 && StreamBytes(ps) != []
    ensures StreamBytes(ps) == [ps[0].bytes[0]] + StreamBytes(ps)[1..]
  {
  }

  // ---- Steps of _next_reply ----

  /** _next_reply, called on `before`, has dispatched `events` and has `now` still to read. */
  predicate Progress(version: nat, caller: Caller, before: Octets, now: Octets, events: seq<Event>) {
    var f := Feed(version, At(Header(caller), []), now);
    Feed(version, At(Header(caller), []), before) == Fed(f.reader, events + f.events)
  }

  lemma ProgressStarts(version: nat, caller: Caller, before: Octets)
    ensures Progress(version, caller, before, before, [])
  {
    hide Feed;
    var f := Feed(version, At(Header(caller), []), before);
    assert [] + f.events == f.events;
  }

  lemma ProgressReplies(version: nat, caller: Caller, before: Octets, code: Byte, after: Octets, events: seq<Event>)
    requires Progress(version, caller, before, [code] + after, events) && code < 100
    ensures RanToReply(version, caller, before, after, events, Got(code))
  {
    hide Feed;
    Take(version, Header(caller), [code], after);
    var g := Feed(version, Enter(Returned(caller, code), []), after);
    assert [] + g.events == g.events;
  }

  lemma ProgressInforms(version: nat, caller: Caller, before: Octets, p: Packet, after: Octets, events: seq<Event>)
    requires p.Info? && WellFormed(p) && Progress(version, caller, before, PacketBytes(p) + after, events)
    ensures match Dispatch(version, p.kind, p.payload)
            case None => RanToReply(version, caller, before, after, events, Raised)
            case Some(more) => Progress(version, caller, before, after, events + more)
  {
    hide Feed, Dispatch, PacketBytes;
    InfoTaken(version, caller, p, after);
    if Dispatch(version, p.kind, p.payload).Some? {
      var more, g := Dispatch(version, p.kind, p.payload).value, Feed(version, At(Header(caller), []), after);
      assert events + (more + g.events) == (events + more) + g.events;
    } else {
      assert events + [] == events;
    }
  }

  lemma ProgressFails(version: nat, caller: Caller, before: Octets, kind: Byte, length: Byte, after: Octets,
                      events: seq<Event>)
    requires kind >= 100 && length < 2 && Progress(version, caller, before, [kind] + ([length] + after), events)
    ensures RanToReply(version, caller, before, after, events, Raised)
  {
    hide Feed;
    Take(version, Header(caller), [kind], [length] + after);
    Take(version, InfoLength(kind, caller), [length], after);
    FeedStopped(version, Raise, [], after);
    assert events + ([] + ([] + [])) == events;
  }

  /** The stream ends inside an information packet, or before a header. */
  lemma ProgressEnds(version: nat, caller: Caller, before: Octets, now: Octets, events: seq<Event>)
    requires Progress(version, caller, before, now, events)
    requires |now| > 0 ==> now[0] >= 100
    requires |now| > 1 ==> now[1] >= 2 && |now| < now[1]
    ensures RanToReply(version, caller, before, [], events, Ended)
  {
    hide Feed;
    if now == [] {
      Short(version, Header(caller), now);
    } else {
      assert now == [now[0]] + now[1..];
      Take(version, Header(caller), [now[0]], now[1..]);
      if |now| == 1 {
        Short(version, InfoLength(now[0], caller), now[1..]);
      } else {
        assert now[1..] == [now[1]] + now[2..];
        Take(version, InfoLength(now[0], caller), [now[1]], now[2..]);
        Short(version, InfoPayload(now[0], now[1] - 2, caller), now[2..]);
      }
    }
    assert events + ([] + ([] + [])) == events;
  }

  lemma OneByte(bs: Octets)
    requires |bs| == 1
    ensures bs == [bs[0]]
  {
  }

  lemma InfoBytes(kind: Byte, length: Byte, payload: Octets, rest: Octets)
    requires kind >= 100 && |payload| == length - 2
    ensures WellFormed(Info(kind, payload))
    ensures PacketBytes(Info(kind, payload)) + rest == [kind] + ([length] + (payload + rest))
  {
  }

  // ---- The points of the longer handlers ----

  lemma RejectEnds(code: Byte)
    ensures Reject(code).Finish? || Reject(code).Raise?
  {
  }

  lemma EnvBegins(version: nat, code: Byte)
    ensures Begin(HEnv, code) == if code == ALLENV then Goto(EnvHead) else Reject(code)
    ensures Want(version, EnvHead) == SIZE_T
  {
    hide Reject;
  }

  lemma EnvHeadTaken(version: nat, head: Octets)
    requires |head| == SIZE_T
    ensures UnsignedAt(head, 0, SIZE_T).Some? && UnsignedAt(head, 0, SIZE_T).value >= 0
    ensures
      var length := UnsignedAt(head, 0, SIZE_T).value;
      && Want(version, EnvHead) == SIZE_T && Offers(version, EnvHead, head) == []
      && After(version, EnvHead, head) == Goto(EnvData(head, length)) && Want(version, EnvData(head, length)) == length
  {
  }

  lemma EnvTaken(version: nat, head: Octets, length: nat, block: Octets)
    requires |block| == length
    ensures Want(version, EnvData(head, length)) == length
    ensures Offers(version, EnvData(head, length), block) == []
    ensures
      After(version, EnvData(head, length), block)
      == FinishWith(if EnvOf(head + block).Some? then Some(OfEnv(EnvOf(head + block).value)) else None)
  {
    hide EnvOf;
  }

  lemma LoaderBegins(version: nat, code: Byte)
    ensures Begin(HLoader, code) == if code == LOADER_MECH then Goto(LoaderStart) else Reject(code)
    ensures Want(version, LoaderStart) == 5
  {
    hide Reject;
  }

  lemma LoaderHeadTaken(version: nat, head: Octets)
    requires |head| == 5
    ensures UnsignedAt(head, 1, 4).Some?
    ensures
      var wanted := UnsignedAt(head, 1, 4).value - 6;
      && Want(version, LoaderStart) == 5 && Offers(version, LoaderStart, head) == []
      && After(version, LoaderStart, head) == Goto(LoaderData(head, wanted))
      && Want(version, LoaderData(head, wanted)) == wanted
  {
  }

  lemma LoaderTaken(version: nat, head: Octets, wanted: int, body: Octets)
    requires |body| == if wanted <= 0 then 0 else wanted
    ensures Want(version, LoaderData(head, wanted)) == wanted
    ensures Offers(version, LoaderData(head, wanted), body) == []
    ensures
      var packet := [LOADER_MECH] + head + body;
      After(version, LoaderData(head, wanted), body)
      == FinishWith(if LoaderOf(packet).Some? then Some(OfLoader(LoaderOf(packet).value)) else None)
  {
    hide LoaderOf;
  }

  lemma ListStarts(version: nat, code: Byte)
    ensures Begin(HList, code) == if code == SVCINFO then Goto(NameLength(map[])) else Reject(code)
  {
    hide Reject;
  }

  lemma EntryPoints(version: nat, items: Listing, length: Byte)
    ensures Want(version, NameLength(items)) == 1
    ensures Want(version, EntryStatus(items, length)) == ListStatusSize(version)
    ensures Offers(version, NameLength(items), [length]) == []
    ensures After(version, NameLength(items), [length]) == Goto(EntryStatus(items, length))
    ensures forall status :: Want(version, EntryName(items, length, status)) == length
  {
  }

  lemma EntryRead(version: nat, items: Listing, length: Byte, body: Octets)
    requires |body| == ListStatusSize(version)
    ensures Want(version, EntryStatus(items, length)) == ListStatusSize(version) > 0
    ensures Offers(version, EntryStatus(items, length), body) == []
    ensures
      After(version, EntryStatus(items, length), body) ==
      match DecodeStatus(body, Min(version, 5))
      case None => Raise
      case Some(status) => Goto(EntryName(items, length, status))
  {
    hide DecodeStatus;
  }

  lemma NameRead(version: nat, items: Listing, name: Octets, status: ServiceStatus)
    requires |name| < 256
    ensures
      var pt := EntryName(items, |name|, status);
      && Want(version, pt) == |name| && Offers(version, pt, name) == []
      && After(version, pt, name) == Goto(Header(InList(items[name := status])))
  {
  }

  lemma NamesAreReady(version: nat)
    ensures forall items :: Ready(version, At(NameLength(items), [])) && Ready(version, At(Header(InList(items)), []))
  {
  }

  lemma NextInList(items: Listing, code: Byte)
    ensures
      Returned(InList(items), code) ==
      if code == LISTDONE then Finish(Result(OfListing(items)))
      else if code == SVCINFO then Goto(NameLength(items)) else Reject(code)
  {
    hide Reject;
  }

  lemma StopStarts(version: nat, code: Byte)
    ensures Begin(HStop, code) == if code == DEPENDENTS then Goto(DependentCount) else Begin(HAck, code)
    ensures Want(version, DependentCount) == SIZE_T
  {
  }

  lemma CountRead(version: nat, head: Octets)
    requires |head| == SIZE_T
    ensures UnsignedAt(head, 0, SIZE_T).Some? && UnsignedAt(head, 0, SIZE_T).value >= 0
    ensures
      var count := UnsignedAt(head, 0, SIZE_T).value;
      && Want(version, DependentCount) == SIZE_T && Offers(version, DependentCount, head) == []
      && After(version, DependentCount, head) == CollectDependents(count, [])
  {
    hide CollectDependents;
  }

  lemma HandleTaken(version: nat, left: nat, collected: seq<U32>, item: Octets)
    requires |item| == 4 && left > 0
    ensures UnsignedAt(item, 0, 4).Some? && 0 <= UnsignedAt(item, 0, 4).value < 0x1_0000_0000
    ensures
      var pt := DependentHandle(left, collected);
      && Want(version, pt) == 4 && Offers(version, pt, item) == []
      && After(version, pt, item) == CollectDependents(left - 1, collected + [UnsignedAt(item, 0, 4).value])
      && CollectDependents(left, collected) == Goto(pt)
  {
    Widths();
  }

  lemma EnvWants(version: nat, head: Octets, length: nat)
    ensures Want(version, EnvData(head, length)) == length
  {
  }

  lemma LoaderWants(version: nat, head: Octets, wanted: int)
    ensures Want(version, LoaderData(head, wanted)) == wanted
  {
  }

  lemma HandleWanted(version: nat, left: nat, collected: seq<U32>)
    requires left > 0
    ensures Want(version, DependentHandle(left, collected)) == 4
    ensures CollectDependents(left, collected) == Goto(DependentHandle(left, collected))
  {
  }

  lemma CollectEnds(collected: seq<U32>)
    ensures CollectDependents(0, collected) == Finish(Raises(Dependents(collected)))
  {
  }

  // ---- Decoders with loops ----

  method DecodeLoaderMech(packet: Octets) returns (r: Option<LoaderMech>)
    ensures r == LoaderOf(packet)
  {
    var count := UnsignedAt(packet, 6, 4);
    var cwdLength := UnsignedAt(packet, 10, 4);
    if cwdLength.None? {
      return None;
    }
    var start := 14 + cwdLength.value;
    var pos := start;
    var dirs: seq<Octets> := [];
    ghost var all := LoaderDirs(packet, start, count.value);
    assert all.Some? ==> [] + all.value == all.value;
    for i := 0 to count.value
      invariant pos >= 0
      invariant
        var rest := LoaderDirs(packet, pos, count.value - i);
        LoaderDirs(packet, start, count.value) == if rest.Some? then Some(dirs + rest.value) else None
    {
      var length := UnsignedAt(packet, pos, 4);
      if length.None? {
        return None;
      }
      var dir := Slice(packet, pos + 4, pos + 4 + length.value);
      ghost var rest := LoaderDirs(packet, pos + 4 + length.value, count.value - i - 1);
      if rest.Some? {
        assert dirs + ([dir] + rest.value) == (dirs + [dir]) + rest.value;
      }
      dirs := dirs + [dir];
      pos := pos + 4 + length.value;
    }
    assert dirs + [] == dirs;
    if packet[1] > 1 {
      return None;
    }
    return Some(LoaderMech(packet[1], Slice(packet, 14, start), dirs));
  }

  method DecodeAllEnv(payload: Octets) returns (r: Option<Environment>)
    ensures r == EnvOf(payload)
  {
    var length := UnsignedAt(payload, 0, SIZE_T);
    if length.None? {
      return None;
    }
    var block := Slice(payload, SIZE_T, SIZE_T + length.value);
    var result: Environment := map[];
    var more := true;
    while more
      invariant more ==> EnvOfBlock(block, result) == EnvOf(payload).value
      invariant !more ==> result == EnvOf(payload).value
      decreases |block|, more
    {
      var at := Find(block, NUL);
      result := AddEntry(result, block[..at]);
      if at == |block| {
        more := false;
      } else {
        block := block[at + 1..];
      }
    }
    return Some(result);
  }

  class Connection {
    var incoming: Octets      // all the daemon will have written when the stream ends, minus what is taken
    var version: nat
    var buffer: seq<Event>
    ghost var offered: seq<Event>

    constructor (stream: Octets)
      ensures incoming == stream && version == 1 && buffer == [] && offered == []
    {
      incoming, version, buffer, offered := stream, 1, [], [];
    }

    /** The transport's receive: some of what is there, at least one byte. */
    method Receive(most: nat) returns (chunk: Io<Octets>)
      requires most > 0
      modifies this`incoming
      ensures match chunk
              case Got(c) => 0 < |c| <= most && old(incoming) == c + incoming
              case _ => chunk.Ended? && old(incoming) == incoming == []
    {
      if incoming == [] {
        return Ended;
      }
      var n :| 0 < n <= most && n <= |incoming|;
      chunk := Got(incoming[..n]);
      incoming := incoming[n..];
    }

    /** _Reader.exactly: however the bytes arrive, it takes `count` of them and no more. */
    method Exactly(count: int) returns (bytes: Io<Octets>)
      modifies this`incoming
      ensures count <= |old(incoming)| <==> bytes.Got?
      ensures match bytes
              case Got(bs) => |bs| == (if count <= 0 then 0 else count) && old(incoming) == bs + incoming
              case _ => bytes.Ended? && incoming == []
    {
      var parts: Octets := [];
      var remaining := count;
      assert old(incoming) == parts + incoming;
      while remaining > 0
        invariant remaining == count - |parts|
        invariant count <= 0 ==> parts == []
        invariant count > 0 ==> remaining >= 0
        invariant old(incoming) == parts + incoming
        decreases remaining
      {
        var chunk := Receive(remaining);
        if !chunk.Got? {
          return Ended;
        }
        parts := parts + chunk.value;
        remaining := remaining - |chunk.value|;
      }
      return Got(parts);
    }

    /** _dispatch_info; false when a decoder raises. */
    method DispatchInfo(kind: Byte, payload: Octets) returns (ok: bool)
      modifies this`buffer, this`offered
      ensures ok <==> Dispatch(version, kind, payload).Some?
      ensures
        var events := if ok then Dispatch(version, kind, payload).value else [];
        offered == old(offered) + events && buffer == Offer(old(buffer), events)
    {
      var event;
      if kind == SERVICEEVENT5 {
        event := DecodeServiceEvent(payload, 5);
      } else if kind == SERVICEEVENT && version < 5 {
        event := DecodeServiceEvent(payload, 4);
      } else if kind == ENVEVENT {
        event := DecodeEnvEvent(payload);
      } else {
        return true;
      }
      if event.None? {
        return false;
      }
      offered := offered + [event.value];
      if |buffer| < EVENT_BUFFER {
        buffer := buffer + [event.value];
      }
      assert Offer(old(buffer), [event.value]) == buffer;
      return true;
    }

    /** _next_reply: information packets are dispatched until a reply header comes. */
    method NextReply(ghost caller: Caller) returns (r: Io<Byte>, ghost events: seq<Event>)
      modifies this`incoming, this`buffer, this`offered
      ensures RanToReply(version, caller, old(incoming), incoming, events, r)
      ensures offered == old(offered) + events && buffer == Offer(old(buffer), events)
      ensures r.Raised? || r.Ended? || r.value < 100
      ensures |incoming| <= |old(incoming)| && (r.Got? ==> |incoming| < |old(incoming)|)
    {
      hide Progress, RanToReply, Dispatch, Offer, PacketBytes, WellFormed;
      events := [];
      OfferNothing(buffer);
      ProgressStarts(version, caller, incoming);
      while true
        invariant Progress(version, caller, old(incoming), incoming, events)
        invariant offered == old(offered) + events && buffer == Offer(old(buffer), events)
        invariant |incoming| <= |old(incoming)|
        decreases |incoming|
      {
        ghost var now := incoming;
        var header := Exactly(1);
        if !header.Got? {
          ProgressEnds(version, caller, old(incoming), now, events);
          return Ended, events;
        }
        var code := header.value[0];
        OneByte(header.value);
        if code < 100 {
          ProgressReplies(version, caller, old(incoming), code, incoming, events);
          return Got(code), events;
        }
        var lengthByte := Exactly(1);
        if !lengthByte.Got? {
          ProgressEnds(version, caller, old(incoming), now, events);
          return Ended, events;
        }
        var length := lengthByte.value[0];
        OneByte(lengthByte.value);
        if length < 2 {
          ProgressFails(version, caller, old(incoming), code, length, incoming, events);
          return Raised, events;
        }
        var payload := Exactly(length - 2);
        if !payload.Got? {
          ProgressEnds(version, caller, old(incoming), now, events);
          return Ended, events;
        }
        InfoBytes(code, length, payload.value, incoming);
        ProgressInforms(version, caller, old(incoming), Info(code, payload.value), incoming, events);
        var ok := DispatchInfo(code, payload.value);
        if !ok {
          OfferNothing(Offer(old(buffer), events));
          assert offered == old(offered) + events;
          return Raised, events;
        }
        ghost var more := Dispatch(version, code, payload.value).value;
        OfferCompose(old(buffer), events, more);
        assert (old(offered) + events) + more == old(offered) + (events + more);
        events := events + more;
      }
    }
  
    // ---- Reply handlers ----

    /** _reject and the acknowledgement test before it. */
    method AckHandler(code: Byte) returns (r: Io<Outcome>)
      ensures Ran(version, Enter(Begin(HAck, code), []), incoming, incoming, [], r)
    {
      RanFinal(version, Acknowledge(code), incoming);
      if code == ACK || code == ALREADYSS {
        return Got(Result(Nothing));
      }
      r := Rejected(code);
    }

    method Rejected(code: Byte) returns (r: Io<Outcome>)
      ensures (Reject(code).Finish? || Reject(code).Raise?) && r == Final(Reject(code))
    {
      if !DefinedReply(code) {
        return Raised;
      }
      var error := SimpleError(code);
      if error.Some? {
        return Got(Raises(error.value));
      }
      return Got(Raises(UnexpectedReply(code)));
    }

    method VersionHandler(code: Byte) returns (r: Io<Outcome>)
      modifies this`incoming
      ensures Ran(version, Enter(Begin(HVersion, code), []), old(incoming), incoming, [], r)
    {
      hide Ran, After;
      if code != CPVERSION {
        RanFinal(version, Begin(HVersion, code), incoming);
        return Got(Raises(UnexpectedReply(code)));
      }
      r := Body(VersionBody);
    }

    method RecordHandler(code: Byte) returns (r: Io<Outcome>)
      modifies this`incoming
      ensures Ran(version, Enter(Begin(HRecord, code), []), old(incoming), incoming, [], r)
    {
      hide Ran, After;
      if code != SERVICERECORD {
        RanFinal(version, Reject(code), incoming);
        r := Rejected(code);
        return;
      }
      r := Body(RecordBody);
    }

    /** The last `exactly` of a handler and the decoding of what it returns. */
    method Body(pt: Point) returns (r: Io<Outcome>)
      requires pt.VersionBody? || pt.RecordBody? || pt.StatusBody? || pt.LogData?
      modifies this`incoming
      ensures Ran(version, At(pt, []), old(incoming), incoming, [], r)
    {
      hide Ran;
      var bs := Exactly(Want(version, pt));
      if !bs.Got? {
        RanShort(version, pt, old(incoming));
        return Ended;
      }
      var value;
      match pt {
        case VersionBody =>
          var v := DecodeVersion(bs.value);
          value := if v.Some? then Some(OfVersion(v.value)) else None;
        case RecordBody =>
          var record := DecodeServiceRecord(bs.value);
          value := if record.Some? then Some(OfRecord(record.value)) else None;
        case StatusBody(_) =>
          var status := DecodeStatus(bs.value, version);
          value := if status.Some? then Some(OfStatus(status.value)) else None;
        case LogData(_) =>
          value := Some(OfLog(bs.value));
      }
      RanFinal(version, FinishWith(value), incoming);
      RanAfter(version, pt, old(incoming), bs.value, incoming, incoming, [], Final(FinishWith(value)));
      r := if value.Some? then Got(Result(value.value)) else Raised;
    }

    method StatusHandler(code: Byte, size: nat) returns (r: Io<Outcome>)
      modifies this`incoming
      ensures Ran(version, Enter(Begin(HStatus(size), code), []), old(incoming), incoming, [], r)
    {
      hide Ran;
      if code != SERVICESTATUS {
        RanFinal(version, Reject(code), incoming);
        r := Rejected(code);
        return;
      }
      var reserved := Exactly(1);
      if !reserved.Got? {
        RanShort(version, Reserved(size), old(incoming));
        return Ended;
      }
      ghost var middle := incoming;
      r := Body(StatusBody(size));
      RanAfter(version, Reserved(size), old(incoming), reserved.value, middle, incoming, [], r);
    }

    method LogHandler(code: Byte) returns (r: Io<Outcome>)
      modifies this`incoming
      ensures Ran(version, Enter(Begin(HLog, code), []), old(incoming), incoming, [], r)
    {
      hide Ran;
      if code != SERVICE_LOG {
        RanFinal(version, Reject(code), incoming);
        r := Rejected(code);
        return;
      }
      var head := Exactly(5);
      if !head.Got? {
        RanShort(version, LogHead, old(incoming));
        return Ended;
      }
      var length := UnsignedAt(head.value, 1, 4).value;
      ghost var middle := incoming;
      r := Body(LogData(length));
      RanAfter(version, LogHead, old(incoming), head.value, middle, incoming, [], r);
    }

    method EnvHandler(code: Byte) returns (r: Io<Outcome>)
      modifies this`incoming
      ensures Ran(version, Enter(Begin(HEnv, code), []), old(incoming), incoming, [], r)
    {
      hide Ran, EnvOf, After, Want, Offers, Begin, Reject, UnsignedAt;
      EnvBegins(version, code);
      if code != ALLENV {
        RejectEnds(code);
        RanFinal(version, Reject(code), incoming);
        r := Rejected(code);
        return;
      }
      var head := Exactly(SIZE_T);
      if !head.Got? {
        RanShort(version, EnvHead, old(incoming));
        return Ended;
      }
      EnvHeadTaken(version, head.value);
      var length := UnsignedAt(head.value, 0, SIZE_T).value;
      ghost var middle := incoming;
      r := EnvBody(head.value, length);
      RanAfter(version, EnvHead, old(incoming), head.value, middle, incoming, [], r);
    }

    /** The rest of the handler, once the length is known. */
    method EnvBody(head: Octets, length: nat) returns (r: Io<Outcome>)
      modifies this`incoming
      ensures Ran(version, At(EnvData(head, length), []), old(incoming), incoming, [], r)
    {
      hide Ran, EnvOf, After, Want, Offers;
      var block := Exactly(length);
      if !block.Got? {
        EnvWants(version, head, length);
        RanShort(version, EnvData(head, length), old(incoming));
        return Ended;
      }
      EnvTaken(version, head, length, block.value);
      var env := DecodeAllEnv(head + block.value);
      r := if env.Some? then Got(Result(OfEnv(env.value))) else Raised;
      RanFinal(version, After(version, EnvData(head, length), block.value), incoming);
      RanAfter(version, EnvData(head, length), old(incoming), block.value, incoming, incoming, [], r);
    }

    method LoaderHandler(code: Byte) returns (r: Io<Outcome>)
      modifies this`incoming
      ensures Ran(version, Enter(Begin(HLoader, code), []), old(incoming), incoming, [], r)
    {
      hide Ran, LoaderOf, After, Want, Offers, Begin, Reject, UnsignedAt;
      LoaderBegins(version, code);
      if code != LOADER_MECH {
        RejectEnds(code);
        RanFinal(version, Reject(code), incoming);
        r := Rejected(code);
        return;
      }
      var head := Exactly(5);
      if !head.Got? {
        RanShort(version, LoaderStart, old(incoming));
        return Ended;
      }
      LoaderHeadTaken(version, head.value);
      var size := UnsignedAt(head.value, 1, 4).value;
      ghost var middle := incoming;
      r := LoaderRest(head.value, size - 6);
      RanAfter(version, LoaderStart, old(incoming), head.value, middle, incoming, [], r);
    }

    /** The rest of the handler, once the size is known, which may be less than its own field. */
    method LoaderRest(head: Octets, wanted: int) returns (r: Io<Outcome>)
      requires |head| == 5
      modifies this`incoming
      ensures Ran(version, At(LoaderData(head, wanted), []), old(incoming), incoming, [], r)
    {
      hide Ran, LoaderOf, After, Want, Offers;
      var body := Exactly(wanted);
      if !body.Got? {
        LoaderWants(version, head, wanted);
        RanShort(version, LoaderData(head, wanted), old(incoming));
        return Ended;
      }
      LoaderTaken(version, head, wanted, body.value);
      var loader := DecodeLoaderMech([LOADER_MECH] + head + body.value);
      r := if loader.Some? then Got(Result(OfLoader(loader.value))) else Raised;
      RanFinal(version, After(version, LoaderData(head, wanted), body.value), incoming);
      RanAfter(version, LoaderData(head, wanted), old(incoming), body.value, incoming, incoming, [], r);
    }

    method StopHandler(code: Byte) returns (r: Io<Outcome>)
      modifies this`incoming
      ensures Ran(version, Enter(Begin(HStop, code), []), old(incoming), incoming, [], r)
    {
      hide Ran, After, Want, Offers, Begin, UnsignedAt, CollectDependents;
      StopStarts(version, code);
      if code != DEPENDENTS {
        r := AckHandler(code);
        return;
      }
      var head := Exactly(SIZE_T);
      if !head.Got? {
        RanShort(version, DependentCount, old(incoming));
        return Ended;
      }
      CountRead(version, head.value);
      var count := UnsignedAt(head.value, 0, SIZE_T).value;
      ghost var middle := incoming;
      r := Collect(count);
      RanAfter(version, DependentCount, old(incoming), head.value, middle, incoming, [], r);
    }

    /** The loop over the handles. */
    method Collect(count: nat) returns (r: Io<Outcome>)
      modifies this`incoming
      ensures Ran(version, Enter(CollectDependents(count, []), []), old(incoming), incoming, [], r)
    {
      hide Ran, After, Want, Offers, CollectDependents, UnsignedAt;
      var collected: seq<U32> := [];
      // The bytes read so far are behind us: whatever the rest of the loop ends with,
      // the handler ends with.
      ghost var start := Enter(CollectDependents(count, []), []);
      for i := 0 to count
        invariant |collected| == i
        invariant forall after, end ::
          Ran(version, Enter(CollectDependents(count - i, collected), []), incoming, after, [], end)
          ==> Ran(version, start, old(incoming), after, [], end)
      {
        ghost var before, pt := incoming, DependentHandle(count - i, collected);
        var item := Exactly(4);
        HandleWanted(version, count - i, collected);
        if !item.Got? {
          RanShort(version, pt, before);
          return Ended;
        }
        HandleTaken(version, count - i, collected, item.value);
        var handle := UnsignedAt(item.value, 0, 4).value;
        forall after, end |
          Ran(version, Enter(CollectDependents(count - i - 1, collected + [handle]), []), incoming, after, [], end)
          ensures Ran(version, start, old(incoming), after, [], end)
        {
          RanAfter(version, pt, before, item.value, incoming, after, [], end);
        }
        collected := collected + [handle];
      }
      CollectEnds(collected);
      RanFinal(version, CollectDependents(0, collected), incoming);
      return Got(Raises(Dependents(collected)));
    }

    /** One entry of a listing, after its packet's reply code. */
    method ReadEntry(items: Listing) returns (r: Io<Listing>)
      modifies this`incoming
      ensures
        match r
        case Got(more) =>
          Continues(version, At(NameLength(items), []), old(incoming), [], At(Header(InList(more)), []), incoming)
        case Ended => Ran(version, At(NameLength(items), []), old(incoming), incoming, [], Ended)
        case Raised => Ran(version, At(NameLength(items), []), old(incoming), incoming, [], Raised)
      ensures |incoming| <= |old(incoming)|
    {
      hide Ran, Continues, After, Want, Offers, DecodeStatus, ListStatusSize;
      ghost var start := At(NameLength(items), []);
      EntryPoints(version, items, 0);
      var length := Exactly(1);
      if !length.Got? {
        RanShort(version, NameLength(items), old(incoming));
        return Ended;
      }
      var n := length.value[0];
      OneByte(length.value);
      EntryPoints(version, items, n);
      ContinuesStarts(version, start, old(incoming));
      ContinuesAfter(version, start, old(incoming), [], NameLength(items), length.value, incoming);
      ghost var now := incoming;
      var body := Exactly(ListStatusSize(version));
      if !body.Got? {
        RanShort(version, EntryStatus(items, n), now);
        ContinuesEnds(version, start, old(incoming), [], At(EntryStatus(items, n), []), now, [], [], Ended);
        return Ended;
      }
      EntryRead(version, items, n, body.value);
      ContinuesAfter(version, start, old(incoming), [], EntryStatus(items, n), body.value, incoming);
      var status := DecodeStatus(body.value, Min(version, 5));
      if status.None? {
        RanFinal(version, Raise, incoming);
        ContinuesEnds(version, start, old(incoming), [], Enter(Raise, []), incoming, incoming, [], Raised);
        return Raised;
      }
      ghost var pt := EntryName(items, n, status.value);
      now := incoming;
      var name := Exactly(n);
      if !name.Got? {
        RanShort(version, pt, now);
        ContinuesEnds(version, start, old(incoming), [], At(pt, []), now, [], [], Ended);
        return Ended;
      }
      NameRead(version, items, name.value, status.value);
      ContinuesAfter(version, start, old(incoming), [], pt, name.value, incoming);
      return Got(items[name.value := status.value]);
    }

    /** The handler of list_services: entries are read until LISTDONE, and information
        packets between them are dispatched on the way. */
    method ListHandler(code: Byte) returns (r: Io<Outcome>, ghost events: seq<Event>)
      modifies this`incoming, this`buffer, this`offered
      ensures Ran(version, Enter(Begin(HList, code), []), old(incoming), incoming, events, r)
      ensures offered == old(offered) + events && buffer == Offer(old(buffer), events)
    {
      hide Ran, RanToReply, Continues, Offer, After, Want, Begin, Returned, Reject;
      events := [];
      OfferNothing(buffer);
      ListStarts(version, code);
      if code != SVCINFO {
        RejectEnds(code);
        RanFinal(version, Reject(code), incoming);
        r := Rejected(code);
        return;
      }
      var items: Listing := map[];
      ghost var start := At(NameLength(items), []);
      NamesAreReady(version);
      ContinuesStarts(version, start, incoming);
      while true
        invariant Continues(version, start, old(incoming), events, At(NameLength(items), []), incoming)
        invariant offered == old(offered) + events && buffer == Offer(old(buffer), events)
        decreases |incoming|
      {
        ghost var now := incoming;
        var entry := ReadEntry(items);
        if !entry.Got? {
          r := if entry.Ended? then Ended else Raised;
          ContinuesEnds(version, start, old(incoming), events, At(NameLength(items), []), now, incoming, [], r);
          assert events + [] == events;
          return;
        }
        ContinuesThen(version, start, old(incoming), events, At(NameLength(items), []), now,
                      At(Header(InList(entry.value)), []), incoming);
        items := entry.value;
        now := incoming;
        var reply, taken := NextReply(InList(items));
        OfferCompose(old(buffer), events, taken);
        assert (old(offered) + events) + taken == old(offered) + (events + taken);
        if !reply.Got? {
          r := if reply.Ended? then Ended else Raised;
          RanNoReply(version, InList(items), now, incoming, taken, reply);
          ContinuesEnds(version, start, old(incoming), events, At(Header(InList(items)), []), now, incoming, taken, r);
          events := events + taken;
          return;
        }
        ContinuesReply(version, start, old(incoming), events, InList(items), now, reply.value, incoming, taken);
        events := events + taken;
        NextInList(items, reply.value);
        if reply.value != SVCINFO {
          RejectEnds(reply.value);
          ghost var m := Returned(InList(items), reply.value);
          RanFinal(version, m, incoming);
          ContinuesEnds(version, start, old(incoming), events, Enter(m, []), incoming, incoming, [], Final(m));
          assert events + [] == events;
          if reply.value == LISTDONE {
            r := Got(Result(OfListing(items)));
          } else {
            r := Rejected(reply.value);
          }
          return;
        }
      }
    }

    /** One turn of _read_loop for the request whose handler is `h`. */
    method ServeNext(h: Handler) returns (r: Io<Outcome>, ghost events: seq<Event>)
      modifies this`incoming, this`buffer, this`offered
      ensures TurnRan(version, h, old(incoming), incoming, events, r)
      ensures offered == old(offered) + events && buffer == Offer(old(buffer), events)
    {
      hide Ran, RanToReply, Offer, TurnRan, Begin;
      var code, taken := NextReply(ReadLoop);
      if !code.Got? {
        TurnNoReply(version, h, old(incoming), incoming, taken, code);
        return if code.Ended? then Ended else Raised, taken;
      }
      ghost var middle, more := incoming, [];
      OfferNothing(buffer);
      match h {
        case HVersion => r := VersionHandler(code.value);
        case HRecord => r := RecordHandler(code.value);
        case HAck => r := AckHandler(code.value);
        case HStop => r := StopHandler(code.value);
        case HList => r, more := ListHandler(code.value);
        case HStatus(size) => r := StatusHandler(code.value, size);
        case HLog => r := LogHandler(code.value);
        case HEnv => r := EnvHandler(code.value);
        case HLoader => r := LoaderHandler(code.value);
      }
      OfferCompose(old(buffer), taken, more);
      TurnToHandler(version, h, old(incoming), code.value, middle, taken, incoming, more, r);
      events := taken + more;
      assert (old(offered) + taken) + more == old(offered) + events;
    }
  }
}
