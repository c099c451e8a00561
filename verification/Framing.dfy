// The reader against a stream of whole packets that it has received in part: where it
// can stand, and what it does with the next chunk.

module Framing {
  import opened Prelude
  import opened Bytes
  import opened Protocol
  import opened Requests
  import opened Wire
  import opened Answers

  /** In the read loop's _next_reply, having taken the bytes `got` of the current packet. */
  predicate AtTop(r: Reader, got: Octets) {
    if got == [] then r == At(Header(ReadLoop), [])
    else if |got| == 1 then got[0] >= 100 && r == At(InfoLength(got[0], ReadLoop), [])
    else
      && got[0] >= 100 && 2 <= got[1] && |got| < got[1]
      && r == At(InfoPayload(got[0], got[1] - 2, ReadLoop), got[2..])
  }

  lemma PrefixOfFirst(ps: seq<Packet>, got: Octets, wire: Octets)
    requires AllWellFormed(ps) && got + wire == StreamBytes(ps) && got != []
    ensures ps != []
    ensures got[0] == PacketBytes(ps[0])[0]
    ensures |got| <= |PacketBytes(ps[0])| ==>
      && got == PacketBytes(ps[0])[..|got|]
      && wire == PacketBytes(ps[0])[|got|..] + StreamBytes(ps[1..])
  {
    assert StreamBytes(ps)[0] == got[0];
    var p := PacketBytes(ps[0]);
    assert StreamBytes(ps) == p + StreamBytes(ps[1..]);
    if |got| <= |p| {
      assert got == StreamBytes(ps)[..|got|] == p[..|got|];
      assert wire == StreamBytes(ps)[|got|..];
    }
  }

  lemma EmptyStream(ps: seq<Packet>)
    requires AllWellFormed(ps)
    ensures StreamBytes(ps) == [] <==> ps == []
  {
  }

  lemma Short(version: nat, pt: Point, s: Octets)
    requires |s| < Want(version, pt)
    ensures Feed(version, At(pt, []), s) == Fed(At(pt, s), [])
  {
    hide Want, After, Offers;
    assert [] + s == s;
  }

  /** The reader at the top is one that has been fed the bytes `got` since the last packet. */
  lemma TopIsFed(version: nat, r: Reader, got: Octets)
    requires AtTop(r, got)
    ensures Feed(version, At(Header(ReadLoop), []), got) == Fed(r, [])
  {
    hide Feed, Dispatch;
    if got == [] {
      Short(version, Header(ReadLoop), []);
    } else {
      assert got == [got[0]] + got[1..];
      Take(version, Header(ReadLoop), [got[0]], got[1..]);
      if |got| == 1 {
        Short(version, InfoLength(got[0], ReadLoop), []);
      } else {
        assert got[1..] == [got[1]] + got[2..];
        Take(version, InfoLength(got[0], ReadLoop), [got[1]], got[2..]);
        Short(version, InfoPayload(got[0], got[1] - 2, ReadLoop), got[2..]);
      }
    }
  }

  /** Part of an information packet leaves the reader at the top. */
  lemma PartAtTop(version: nat, p: Packet, n: nat)
    requires WellFormed(p) && p.Info? && 0 < n < |PacketBytes(p)|
    ensures
      var f := Feed(version, At(Header(ReadLoop), []), PacketBytes(p)[..n]);
      AtTop(f.reader, PacketBytes(p)[..n]) && f.events == []
  {
    hide Feed;
    var got := PacketBytes(p)[..n];
    var r := if n == 1 then At(InfoLength(got[0], ReadLoop), [])
             else At(InfoPayload(got[0], got[1] - 2, ReadLoop), got[2..]);
    assert AtTop(r, got);
    TopIsFed(version, r, got);
  }

  /** What `exactly` still wants at the top is no more than the rest of the packet. */
  lemma TopFits(version: nat, r: Reader, got: Octets, chunk: Octets, ps: seq<Packet>, wire: Octets)
    requires AllWellFormed(ps) && AtTop(r, got) && got + chunk + wire == StreamBytes(ps)
    requires 0 < |chunk| <= Want(version, r.pt) - |r.acc|
    ensures ps != [] && |got + chunk| <= |PacketBytes(ps[0])|
    ensures ps[0].ReplyPacket? ==> got == [] && |chunk| == 1
    ensures got + chunk == PacketBytes(ps[0])[..|got + chunk|]
    ensures wire == PacketBytes(ps[0])[|got + chunk|..] + StreamBytes(ps[1..])
  {
    hide StreamBytes;
    PrefixOfFirst(ps, got + chunk, wire);
    SecondByte(ps, got + chunk, wire);
    assert got != [] ==> (got + chunk)[0] == got[0];
    assert |got| > 1 ==> (got + chunk)[1] == got[1];
  }

  lemma SecondByte(ps: seq<Packet>, got: Octets, wire: Octets)
    requires AllWellFormed(ps) && ps != [] && got + wire == StreamBytes(ps)
    ensures ps[0].Info? && |got| > 1 ==> got[1] == |PacketBytes(ps[0])|
  {
    if ps[0].Info? && |got| > 1 {
      assert StreamBytes(ps)[1] == PacketBytes(ps[0])[1] == got[1];
    }
  }

  /** The next chunk at the top: either the packet is still incomplete, or it was an
      information packet, its event is offered and the next one begins, or it is the header
      of a reply. */
  lemma TopChunk(version: nat, r: Reader, got: Octets, chunk: Octets, ps: seq<Packet>, wire: Octets)
    requires AllWellFormed(ps) && AtTop(r, got)
    requires got + chunk + wire == StreamBytes(ps)
    requires 0 < |chunk| <= Want(version, r.pt) - |r.acc|
    ensures ps != []
    ensures
      var f := Feed(version, r, chunk);
      if AtTop(f.reader, got + chunk) then f.events == []
      else if ps[0].Info? then
        && wire == StreamBytes(ps[1..])
        && f == match Dispatch(version, ps[0].kind, ps[0].payload)
                case None => Fed(Stopped(Raise, []), [])
                case Some(events) => Fed(At(Header(ReadLoop), []), events)
      else
        got == [] && |chunk| == 1 && f == Fed(Stopped(Reply(PacketBytes(ps[0])[0]), []), [])
  {
    hide Feed, Dispatch, StreamBytes, PacketBytes, AtTop, Want;
    TopFits(version, r, got, chunk, ps, wire);
    TopGoesOn(version, r, got, chunk);
    var all, bytes := got + chunk, PacketBytes(ps[0]);
    NotAtTop(all);
    if ps[0].ReplyPacket? {
      CodeTaken(version, ps[0]);
    } else if |all| < |bytes| {
      PartAtTop(version, ps[0], |all|);
    } else {
      assert all == bytes && wire == StreamBytes(ps[1..]);
      InfoAtTop(version, ps[0]);
    }
  }

  /** The reader at the top goes on as if it got all of its packet at once. */
  lemma TopGoesOn(version: nat, r: Reader, got: Octets, chunk: Octets)
    requires AtTop(r, got) && Ready(version, r)
    ensures Feed(version, At(Header(ReadLoop), []), got + chunk) == Feed(version, r, chunk)
  {
    hide Feed, Want, AtTop;
    TopIsReady(version);
    TopIsFed(version, r, got);
    FeedCompose(version, At(Header(ReadLoop), []), got, chunk);
    var f := Feed(version, r, chunk);
    assert [] + f.events == f.events;
  }

  lemma NotAtTop(got: Octets)
    requires got != []
    ensures forall r: Reader | r.Stopped? || r == At(Header(ReadLoop), []) :: !AtTop(r, got)
  {
  }

  lemma InfoAtTop(version: nat, p: Packet)
    requires WellFormed(p) && p.Info?
    ensures
      Feed(version, At(Header(ReadLoop), []), PacketBytes(p)) ==
      match Dispatch(version, p.kind, p.payload)
      case None => Fed(Stopped(Raise, []), [])
      case Some(events) => Fed(At(Header(ReadLoop), []), events)
  {
    hide Feed, Dispatch, PacketBytes;
    var bytes := PacketBytes(p);
    assert bytes + [] == bytes;
    InfoTaken(version, ReadLoop, p, []);
    Short(version, Header(ReadLoop), []);
    if Dispatch(version, p.kind, p.payload).Some? {
      var events := Dispatch(version, p.kind, p.payload).value;
      assert events + [] == events;
    }
  }

  lemma TopIsReady(version: nat)
    ensures Want(version, Header(ReadLoop)) == 1 && Ready(version, At(Header(ReadLoop), []))
  {
  }

  lemma CodeTaken(version: nat, p: Packet)
    requires WellFormed(p) && p.ReplyPacket?
    ensures
      Feed(version, At(Header(ReadLoop), []), PacketBytes(p)[..1])
      == Fed(Stopped(Reply(PacketBytes(p)[0]), []), [])
  {
    hide Feed;
    var code := p.bytes[0];
    assert PacketBytes(p)[..1] == [code] == [code] + [];
    Take(version, Header(ReadLoop), [code], []);
    FeedStopped(version, Reply(code), [], []);
  }

  lemma ReplyBytesFit(c: Request, a: Answer)
    requires AnswerTo(c, a)
    ensures forall i | 0 <= i < |ReplyPackets(c, a)| :: WellFormed(ReplyPacket(ReplyPackets(c, a)[i]))
  {
    hide EncodeStatus, EncodeEnv, EncodeVersion, EncodeServiceRecord, Coherent;
    if a.AListing? {
      assert forall e <- a.entries :: |e.0| <= 255;
      ListingBytesFit(a.entries, Layout(c));
    }
  }

  lemma {:induction false} ListingBytesFit(entries: seq<Entry>, layout: nat)
    requires forall e <- entries :: |e.0| <= 255
    ensures forall i | 0 <= i < |ListingPackets(entries, layout)| ::
        WellFormed(ReplyPacket(ListingPackets(entries, layout)[i]))
  {
    hide EncodeStatus;
    if entries != [] {
      ListingBytesFit(entries[1..], layout);
    }
  }

  predicate Suffix<T(==)>(a: seq<T>, b: seq<T>) { |a| <= |b| && a == b[|b| - |a|..] }

  function AsPackets(left: seq<Octets>): (ps: seq<Packet>)
    ensures |ps| == |left| && forall i | 0 <= i < |left| :: ps[i] == ReplyPacket(left[i])
  {
    seq(|left|, i requires 0 <= i < |left| => ReplyPacket(left[i]))
  }

  lemma {:induction false} RepliesOfAsPackets(left: seq<Octets>)
    ensures Replies(AsPackets(left)) == left
  {
    if left != [] {
      assert AsPackets(left)[1..] == AsPackets(left[1..]);
      RepliesOfAsPackets(left[1..]);
    }
  }

  /** Where the last reply packet of a stream ends. */
  function LastReply(ps: seq<Packet>): (k: nat)
    ensures k <= |ps|
    ensures k > 0 ==> ps[k - 1].ReplyPacket?
    ensures forall i | k <= i < |ps| :: ps[i].Info?
  {
    if ps == [] then 0 else if ps[|ps| - 1].ReplyPacket? then |ps| else LastReply(ps[..|ps| - 1])
  }

  lemma {:induction false} InfosHaveNoReplies(ps: seq<Packet>)
    requires forall i | 0 <= i < |ps| :: ps[i].Info?
    ensures Replies(ps) == []
  {
    if ps != [] {
      InfosHaveNoReplies(ps[1..]);
    }
  }

  /** A handler that stops part of the way into a stream stops where it does on the whole. */
  lemma StoppedEarly(version: nat, c: Request, a: Answer, whole: seq<Packet>, beyond: Octets,
                     taken: Octets, future: Octets)
    requires Issued(version, c) && AnswerTo(c, a) && Carries(whole, c, a)
    requires StreamBytes(whole)[1..] + beyond == taken + future
    requires
      var f := HandlerFed(version, c, whole[0].bytes, taken);
      f.reader.Stopped? && f.reader.rest == []
    ensures
      var f := HandlerFed(version, c, whole[0].bytes, taken);
      f.reader.move == Raise
      || (f.reader.move == Finish(Expected(c, a)) && future == beyond && EventsOf(version, whole) == Some(f.events))
  {
    hide Feed, Issued, HandlerOf, AnswerTo, ReplyPackets, Expected, Begin, EventsOf;
    var start := Handling(HandlerOf(version, c), whole[0].bytes);
    ServeAnswer(version, c, a, whole, beyond);
    FeedCompose(version, start, taken, future);
    var f := HandlerFed(version, c, whole[0].bytes, taken);
    FeedStopped(version, f.reader.move, [], future);
    assert [] + future == future && f.events + [] == f.events;
  }

  /** A handler that has received `got` of the packets `ps`, while `left` is still to come,
      has not finished, or has raised, or has finished with the decoding of the answer, has
      offered the events of the packets up to there, and only information packets are left on
      the wire. */
  lemma HandlerProgress(version: nat, c: Request, a: Answer, ps: seq<Packet>, left: seq<Octets>,
                        got: Octets, wire: Octets)
    returns (after: seq<Packet>)
    requires Issued(version, c) && AnswerTo(c, a)
    requires AllWellFormed(ps) && ps != [] && ps[0].ReplyPacket?
    requires Replies(ps) + left == ReplyPackets(c, a)
    requires got != [] && got + wire == StreamBytes(ps)
    requires
      var f := HandlerFed(version, c, ps[0].bytes, got[1..]);
      f.reader.Stopped? ==> f.reader.rest == []
    ensures
      var f := HandlerFed(version, c, ps[0].bytes, got[1..]);
      f.reader.At? || f.reader.move == Raise
      || (&& f.reader.move == Finish(Expected(c, a)) && left == []
          && AllWellFormed(after) && wire == StreamBytes(after) && Replies(after) == [] && Suffix(after, ps)
          && EventsOf(version, ps[..|ps| - |after|]) == Some(f.events))
  {
    hide HandlerFed, Issued, AnswerTo, ReplyPackets, Expected, EventsOf;
    after := [];
    if HandlerFed(version, c, ps[0].bytes, got[1..]).reader.Stopped? {
      if left == [] {
        after := ProgressComplete(version, c, a, ps, got, wire);
      } else {
        ProgressPartial(version, c, a, ps, left, got, wire);
      }
    }
  }

  lemma ProgressComplete(version: nat, c: Request, a: Answer, ps: seq<Packet>, got: Octets, wire: Octets)
    returns (after: seq<Packet>)
    requires Issued(version, c) && AnswerTo(c, a)
    requires AllWellFormed(ps) && ps != [] && ps[0].ReplyPacket? && Replies(ps) == ReplyPackets(c, a)
    requires got != [] && got + wire == StreamBytes(ps)
    requires
      var f := HandlerFed(version, c, ps[0].bytes, got[1..]);
      f.reader.Stopped? && f.reader.rest == []
    ensures
      var f := HandlerFed(version, c, ps[0].bytes, got[1..]);
      f.reader.move == Raise
      || (f.reader.move == Finish(Expected(c, a))
          && AllWellFormed(after) && wire == StreamBytes(after) && Replies(after) == [] && Suffix(after, ps)
          && EventsOf(version, ps[..|ps| - |after|]) == Some(f.events))
  {
    hide HandlerFed, Issued, AnswerTo, ReplyPackets, Expected, Replies, StreamBytes, WellFormed, LastReply, EventsOf;
    var k := LastReply(ps);
    assert k > 0;
    after := ps[k..];
    var whole := ps[..k];
    assert whole + after == ps;
    StreamBytesAppend(whole, after);
    RepliesAppend(whole, after);
    InfosHaveNoReplies(after);
    EmptyStream(whole);
    assert whole[0] == ps[0];
    assert StreamBytes(whole)[1..] + StreamBytes(after) == StreamBytes(ps)[1..] == got[1..] + wire;
    StoppedEarly(version, c, a, whole, StreamBytes(after), got[1..], wire);
  }

  /** The packets of a stream up to its last reply. */
  function UpToReply(ps: seq<Packet>): (whole: seq<Packet>)
    ensures |whole| <= |ps| && whole == ps[..|whole|]
    ensures forall i | |whole| <= i < |ps| :: ps[i].Info?
    ensures whole != [] ==> whole[|whole| - 1].ReplyPacket?
  {
    ps[..LastReply(ps)]
  }

  /** Of a stream that holds a reply, no more is still on the wire than comes behind its last. */
  ghost predicate RepliesTaken(ps: seq<Packet>, wire: Octets)
    requires AllWellFormed(ps)
  {
    |wire| <= |StreamBytes(ps[|UpToReply(ps)|..])|
  }

  lemma TakenSplits(ps: seq<Packet>, got: Octets, wire: Octets) returns (more: Octets)
    requires AllWellFormed(ps) && Replies(ps) != [] && got + wire == StreamBytes(ps) && RepliesTaken(ps, wire)
    ensures
      var whole := UpToReply(ps);
      && whole != [] && AllWellFormed(whole) && StreamBytes(whole) != []
      && got == StreamBytes(whole) + more && Replies(whole) == Replies(ps)
  {
    hide StreamBytes, Replies, WellFormed;
    var whole := UpToReply(ps);
    var after := ps[|whole|..];
    assert whole + after == ps;
    StreamBytesAppend(whole, after);
    RepliesAppend(whole, after);
    InfosHaveNoReplies(after);
    assert ps[0..] == ps;
    EmptyStream(whole);
    var n := |StreamBytes(whole)|;
    more := got[n..];
    assert got[..n] == (got + wire)[..n] == (StreamBytes(whole) + StreamBytes(after))[..n] == StreamBytes(whole);
  }

  /** A handler that has been given all the packets of its answer has stopped. */
  lemma FullAnswerStops(version: nat, c: Request, a: Answer, ps: seq<Packet>, got: Octets, wire: Octets)
    requires Issued(version, c) && AnswerTo(c, a)
    requires AllWellFormed(ps) && ps != [] && ps[0].ReplyPacket? && Replies(ps) == ReplyPackets(c, a)
    requires got != [] && got + wire == StreamBytes(ps) && RepliesTaken(ps, wire)
    ensures HandlerFed(version, c, ps[0].bytes, got[1..]).reader.Stopped?
  {
    hide HandlerFed, Issued, AnswerTo, ReplyPackets, Expected, Replies, StreamBytes, WellFormed, UpToReply;
    hide RepliesTaken;
    var whole := UpToReply(ps);
    var more := TakenSplits(ps, got, wire);
    assert whole[0] == ps[0];
    assert StreamBytes(whole)[1..] + more == got[1..];
    ServeAnswer(version, c, a, whole, more);
  }

  /** The read loop has not come past a reply. */
  lemma TopIsShort(r: Reader, got: Octets, ps: seq<Packet>, wire: Octets)
    requires AllWellFormed(ps) && Replies(ps) != [] && AtTop(r, got) && got + wire == StreamBytes(ps)
    ensures !RepliesTaken(ps, wire)
  {
    hide UpToReply, RepliesTaken, Replies, StreamBytes;
    if RepliesTaken(ps, wire) {
      var more := TakenSplits(ps, got, wire);
      FirstIsPart(UpToReply(ps));
      PrefixOfFirst(ps, got, wire);
      SecondByte(ps, got, wire);
      assert false;
    }
  }

  /** At the top no whole packet has been taken. */
  lemma TopIsPart(r: Reader, got: Octets, ps: seq<Packet>, wire: Octets)
    requires AllWellFormed(ps) && AtTop(r, got) && got + wire == StreamBytes(ps)
    ensures |got| < (if ps != [] then |PacketBytes(ps[0])| else 1)
  {
    hide StreamBytes;
    EmptyStream(ps);
    if got != [] {
      PrefixOfFirst(ps, got, wire);
      SecondByte(ps, got, wire);
    }
  }

  lemma FirstIsPart(ps: seq<Packet>)
    requires ps != [] && AllWellFormed(ps)
    ensures |PacketBytes(ps[0])| <= |StreamBytes(ps)|
    ensures ps[0].Info? ==> PacketBytes(ps[0])[0] >= 100 && |PacketBytes(ps[0])| >= 2
    ensures ps[0].ReplyPacket? ==> PacketBytes(ps[0])[0] < 100
  {
  }

  lemma ProgressPartial(version: nat, c: Request, a: Answer, ps: seq<Packet>, left: seq<Octets>,
                        got: Octets, wire: Octets)
    requires Issued(version, c) && AnswerTo(c, a)
    requires AllWellFormed(ps) && ps != [] && ps[0].ReplyPacket? && left != []
    requires Replies(ps) + left == ReplyPackets(c, a)
    requires got != [] && got + wire == StreamBytes(ps)
    requires
      var f := HandlerFed(version, c, ps[0].bytes, got[1..]);
      f.reader.Stopped? && f.reader.rest == []
    ensures HandlerFed(version, c, ps[0].bytes, got[1..]).reader.move == Raise
  {
    hide HandlerFed, Issued, AnswerTo, ReplyPackets, Expected, Replies, StreamBytes, WellFormed;
    var more := MorePackets(c, a, ps, left);
    EmptyStream(more);
    var whole, future := ps + more, wire + StreamBytes(more);
    assert got + future == StreamBytes(whole);
    assert StreamBytes(whole)[1..] + [] == got[1..] + future;
    assert whole[0] == ps[0];
    StoppedEarly(version, c, a, whole, [], got[1..], future);
  }

  /** The stream once the rest of the answer has been sent and nothing else. */
  lemma MorePackets(c: Request, a: Answer, ps: seq<Packet>, left: seq<Octets>) returns (more: seq<Packet>)
    requires AnswerTo(c, a)
    requires AllWellFormed(ps) && ps != [] && ps[0].ReplyPacket? && left != []
    requires Replies(ps) + left == ReplyPackets(c, a)
    ensures more != [] && AllWellFormed(more) && Carries(ps + more, c, a)
    ensures StreamBytes(ps + more) == StreamBytes(ps) + StreamBytes(more)
  {
    hide AnswerTo, ReplyPackets;
    more := AsPackets(left);
    ReplyBytesFit(c, a);
    RepliesAppend(ps, more);
    RepliesOfAsPackets(left);
    forall i | 0 <= i < |left|
      ensures WellFormed(more[i])
    {
      assert left[i] == ReplyPackets(c, a)[|Replies(ps)| + i];
    }
    StreamBytesAppend(ps, more);
  }

  // ---- Headers inside a listing ----

  /** Points of the list handler: the only handler that calls _next_reply. */
  predicate ListPoint(pt: Point) {
    match pt
    case Header(caller) => caller.InList?
    case InfoLength(_, caller) => caller.InList?
    case InfoPayload(_, _, caller) => caller.InList?
    case NameLength(_) => true
    case EntryStatus(_, _) => true
    case EntryName(_, _, _) => true
    case _ => false
  }

  predicate BodyPoint(pt: Point) { !ListPoint(pt) && !pt.Header? && !pt.InfoLength? && !pt.InfoPayload? }

  lemma {:induction false} BodiesNeverReadHeaders(version: nat, r: Reader, s: Octets)
    requires Ready(version, r) && (r.At? ==> BodyPoint(r.pt))
    ensures
      var f := Feed(version, r, s);
      f.events == [] && (f.reader.At? ==> BodyPoint(f.reader.pt))
    decreases |s|, if r.At? && Want(version, r.pt) <= 0 then 1 else 0
  {
    hide After, Offers;
    if r.At? && |r.acc| + |s| >= Want(version, r.pt) {
      var n := if Want(version, r.pt) <= 0 then 0 else Want(version, r.pt) - |r.acc|;
      var bs := r.acc + s[..n];
      FeedStep(version, r, s);
      BodyLeadsToBody(version, r.pt, bs);
      if n == 0 {
        OneEmptyCall(version, r.pt);
        assert bs == [];
      }
      hide Feed, Want;
      BodiesNeverReadHeaders(version, Enter(After(version, r.pt, bs), []), s[n..]);
    }
  }

  lemma BodyLeadsToBody(version: nat, pt: Point, bs: Octets)
    requires BodyPoint(pt) && |bs| == if Want(version, pt) <= 0 then 0 else Want(version, pt)
    ensures var m := After(version, pt, bs); m.Goto? ==> BodyPoint(m.next)
    ensures Offers(version, pt, bs) == []
  {
    hide DecodeStatus, DecodeVersion, DecodeServiceRecord, EnvOf, LoaderOf, Dispatch;
  }

  /** Part of an information packet, or of an entry of a listing, leaves the reader short
      of the next header. */
  lemma PartialPacket(version: nat, items: Listing, p: Packet, n: nat)
    requires WellFormed(p) && 0 < n < |PacketBytes(p)|
    requires p.ReplyPacket? ==> exists e: Entry ::
      && |e.0| <= 255 && Coherent(e.1, if version >= 5 then 5 else 4)
      && p.bytes == EntryPacket(e, if version >= 5 then 5 else 4)
    ensures
      var f := Feed(version, At(Header(InList(items)), []), PacketBytes(p)[..n]);
      f.reader.At? && !f.reader.pt.Header? && f.events == []
  {
    hide Feed, Dispatch, DecodeStatus, EncodeStatus, Coherent;
    var got := PacketBytes(p)[..n];
    if p.Info? {
      PartialInfo(version, items, p, n);
    } else {
      var e: Entry :| |e.0| <= 255 && Coherent(e.1, if version >= 5 then 5 else 4)
        && p.bytes == EntryPacket(e, if version >= 5 then 5 else 4);
      PartialEntry(version, items, e, n);
    }
  }

  lemma PartialInfo(version: nat, items: Listing, p: Packet, n: nat)
    requires WellFormed(p) && p.Info? && 0 < n < |PacketBytes(p)|
    ensures
      var f := Feed(version, At(Header(InList(items)), []), PacketBytes(p)[..n]);
      f.reader.At? && !f.reader.pt.Header? && f.events == []
  {
    hide Feed, Dispatch;
    var caller, length: Byte := InList(items), |p.payload| + 2;
    if n == 1 {
      assert PacketBytes(p)[..n] == [p.kind] + [];
      Take(version, Header(caller), [p.kind], []);
      Short(version, InfoLength(p.kind, caller), []);
    } else {
      var part := p.payload[..n - 2];
      assert PacketBytes(p)[..n] == [p.kind] + ([length] + part);
      Take(version, Header(caller), [p.kind], [length] + part);
      Take(version, InfoLength(p.kind, caller), [length], part);
      Short(version, InfoPayload(p.kind, |p.payload|, caller), part);
    }
  }

  lemma PartialEntry(version: nat, items: Listing, e: Entry, n: nat)
    requires |e.0| <= 255 && Coherent(e.1, if version >= 5 then 5 else 4)
    requires 0 < n < |EntryPacket(e, if version >= 5 then 5 else 4)|
    ensures
      var f := Feed(version, At(Header(InList(items)), []), EntryPacket(e, if version >= 5 then 5 else 4)[..n]);
      f.reader.At? && !f.reader.pt.Header? && f.events == []
  {
    hide Feed, DecodeStatus, EncodeStatus, Coherent;
    var layout := if version >= 5 then 5 else 4;
    var p, length: Byte := EntryPacket(e, layout), |e.0|;
    var body := EncodeStatus(e.1, layout, e.2);
    StatusRoundTrip(e.1, layout, e.2);
    SameLayout(body, Min(version, 5), layout);
    var size := |body|;
    if n == 1 {
      assert p[..n] == [SVCINFO] + [];
      Take(version, Header(InList(items)), [SVCINFO], []);
      Short(version, NameLength(items), []);
    } else {
      var tail := p[2..n];
      assert p[..n] == [SVCINFO] + ([length] + tail);
      Take(version, Header(InList(items)), [SVCINFO], [length] + tail);
      Take(version, NameLength(items), [length], tail);
      if n - 2 < size {
        Short(version, EntryStatus(items, length), tail);
      } else {
        var name := e.0[..n - 2 - size];
        assert tail == body + name;
        Take(version, EntryStatus(items, length), body, name);
        Short(version, EntryName(items, length, e.1), name);
      }
    }
  }

  /** A reader that has taken the first `k` of the packets `ps` and `part` of the next one,
      nothing of it where it waits for a header, and has offered the events of those `k`. */
  ghost predicate Stands(version: nat, ps: seq<Packet>, wire: Octets, k: nat, part: Octets, f: Fed)
    requires AllWellFormed(ps)
  {
    && k <= |ps| && f.reader.At?
    && part + wire == StreamBytes(ps[k..])
    && |part| < (if k < |ps| then |PacketBytes(ps[k])| else 1)
    && (f.reader.pt.Header? && f.reader.acc == [] ==> part == [])
    && EventsOf(version, ps[..k]) == Some(f.events)
  }

  lemma StandsInFirst(version: nat, ps: seq<Packet>, got: Octets, wire: Octets, f: Fed)
    requires AllWellFormed(ps) && got + wire == StreamBytes(ps) && f.reader.At? && f.events == []
    requires got != [] ==> ps != [] && |got| < |PacketBytes(ps[0])| && !f.reader.pt.Header?
    ensures Stands(version, ps, wire, 0, got, f)
  {
    assert ps[0..] == ps && ps[..0] == [];
  }

  lemma StandsBehindFirst(version: nat, ps: seq<Packet>, wire: Octets, k: nat, part: Octets, g: Fed, f: Fed)
    requires AllWellFormed(ps) && ps != [] && AllWellFormed(ps[1..]) && Stands(version, ps[1..], wire, k, part, g)
    requires f.reader == g.reader
    requires
      if ps[0].ReplyPacket? then f.events == g.events
      else
        var first := Dispatch(version, ps[0].kind, ps[0].payload);
        first.Some? && f.events == first.value + g.events
    ensures Stands(version, ps, wire, k + 1, part, f)
  {
    hide Dispatch, StreamBytes, PacketBytes;
    assert ps[1..][k..] == ps[k + 1..] && ps[..k + 1][1..] == ps[1..][..k];
    assert ps[..k + 1][0] == ps[0];
  }

  /** Where the list handler waits, between packets and inside one. */
  lemma {:induction false} ListStands(version: nat, items: Listing, entries: seq<Entry>, ps: seq<Packet>,
                                      left: seq<Octets>, got: Octets, wire: Octets)
    returns (k: nat, part: Octets)
    requires AllWellFormed(ps) && got + wire == StreamBytes(ps)
    requires forall e <- entries :: |e.0| <= 255 && Coherent(e.1, if version >= 5 then 5 else 4)
    requires Replies(ps) + left == ListingPackets(entries, if version >= 5 then 5 else 4)
    requires Feed(version, At(Header(InList(items)), []), got).reader.At?
    ensures Stands(version, ps, wire, k, part, Feed(version, At(Header(InList(items)), []), got))
    decreases |ps|, 1
  {
    hide Feed, EncodeStatus, Coherent, Replies, ListingPackets, EntryPacket, Stands;
    k, part := 0, got;
    if got == [] {
      Short(version, Header(InList(items)), []);
      StandsInFirst(version, ps, got, wire, Feed(version, At(Header(InList(items)), []), got));
    } else {
      PrefixOfFirst(ps, got, wire);
      var p := PacketBytes(ps[0]);
      if |got| < |p| {
        FirstIsEntry(version, entries, ps, left);
        PartialPacket(version, items, ps[0], |got|);
        StandsInFirst(version, ps, got, wire, Feed(version, At(Header(InList(items)), []), got));
      } else {
        var got' := got[|p|..];
        assert got[..|p|] == StreamBytes(ps)[..|p|] == p;
        assert got == p + got' && got' + wire == StreamBytes(ps[1..]);
        k, part := StandsPastFirst(version, items, entries, ps, left, got', wire);
      }
    }
  }

  lemma FirstIsEntry(version: nat, entries: seq<Entry>, ps: seq<Packet>, left: seq<Octets>)
    requires AllWellFormed(ps) && ps != [] && |PacketBytes(ps[0])| > 1
    requires forall e <- entries :: |e.0| <= 255 && Coherent(e.1, if version >= 5 then 5 else 4)
    requires Replies(ps) + left == ListingPackets(entries, if version >= 5 then 5 else 4)
    ensures
      ps[0].ReplyPacket? ==> exists e: Entry ::
        && |e.0| <= 255 && Coherent(e.1, if version >= 5 then 5 else 4)
        && ps[0].bytes == EntryPacket(e, if version >= 5 then 5 else 4)
  {
    hide Coherent, Replies, ListingPackets, EntryPacket;
    var layout := if version >= 5 then 5 else 4;
    if ps[0].ReplyPacket? {
      if entries == [] {
        NoEntries(layout);
        OnlyDone(ps, left);
      } else {
        FirstEntry(entries, layout, ps, left);
      }
    }
  }

  lemma {:induction false} StandsPastFirst(version: nat, items: Listing, entries: seq<Entry>, ps: seq<Packet>,
                                           left: seq<Octets>, got: Octets, wire: Octets)
    returns (k: nat, part: Octets)
    requires ps != [] && AllWellFormed(ps) && got + wire == StreamBytes(ps[1..])
    requires forall e <- entries :: |e.0| <= 255 && Coherent(e.1, if version >= 5 then 5 else 4)
    requires Replies(ps) + left == ListingPackets(entries, if version >= 5 then 5 else 4)
    requires Feed(version, At(Header(InList(items)), []), PacketBytes(ps[0]) + got).reader.At?
    ensures Stands(version, ps, wire, k, part, Feed(version, At(Header(InList(items)), []), PacketBytes(ps[0]) + got))
    decreases |ps|, 0
  {
    hide Feed, Dispatch, Coherent, EntryPacket, Replies, ListingPackets, Stands;
    var layout := if version >= 5 then 5 else 4;
    var f := Feed(version, At(Header(InList(items)), []), PacketBytes(ps[0]) + got);
    InfoDropped(ps);
    k, part := 0, [];
    if ps[0].Info? {
      InfoTaken(version, InList(items), ps[0], got);
      k, part := ListStands(version, items, entries, ps[1..], left, got, wire);
      StandsBehindFirst(version, ps, wire, k, part, Feed(version, At(Header(InList(items)), []), got), f);
    } else if entries == [] {
      NoEntries(layout);
      OnlyDone(ps, left);
      Take(version, Header(InList(items)), [LISTDONE], got);
      FeedStopped(version, Finish(Result(OfListing(items))), [], got);
    } else {
      FirstEntry(entries, layout, ps, left);
      ListContinues(version, items, entries[0], ps[0].bytes, got);
      var longer := items[entries[0].0 := entries[0].1];
      k, part := ListStands(version, longer, entries[1..], ps[1..], left, got, wire);
      StandsBehindFirst(version, ps, wire, k, part, Feed(version, At(Header(InList(longer)), []), got), f);
    }
    k := k + 1;
  }

  lemma InfoDropped(ps: seq<Packet>)
    requires ps != []
    ensures AllWellFormed(ps) ==> AllWellFormed(ps[1..])
    ensures ps[0].Info? ==> Replies(ps[1..]) == Replies(ps)
  {
  }

  lemma NoEntries(layout: nat)
    ensures ListingPackets([], layout) == [[LISTDONE]]
  {
  }

  lemma OnlyDone(ps: seq<Packet>, left: seq<Octets>)
    requires ps != [] && ps[0].ReplyPacket? && Replies(ps) + left == [[LISTDONE]]
    ensures ps[0].bytes == [LISTDONE]
  {
    assert ps[0].bytes == (Replies(ps) + left)[0];
  }

  /** A handler that waits stands in the packet behind those it has taken, at its beginning if
      it waits for a header, and has offered the events of those it has taken. */
  lemma HandlerStands(version: nat, c: Request, a: Answer, ps: seq<Packet>, left: seq<Octets>,
                      got: Octets, wire: Octets)
    returns (k: nat, part: Octets)
    requires Issued(version, c) && AnswerTo(c, a)
    requires AllWellFormed(ps) && ps != [] && ps[0].ReplyPacket?
    requires Replies(ps) + left == ReplyPackets(c, a)
    requires got != [] && got + wire == StreamBytes(ps)
    requires HandlerFed(version, c, ps[0].bytes, got[1..]).reader.At?
    ensures Stands(version, ps, wire, k, part, HandlerFed(version, c, ps[0].bytes, got[1..]))
  {
    hide Feed, EncodeStatus, Coherent, ReplyPackets, HandlerOf, Replies, StreamBytes, Begin, Stands;
    k, part := 0, got;
    FirstReply(ps);
    assert ps[0].bytes == (Replies(ps) + left)[0] == ReplyPackets(c, a)[0];
    var f := HandlerFed(version, c, ps[0].bytes, got[1..]);
    if a.AListing? && a.entries != [] {
      ListingBegins(version, c, a, ps[0].bytes);
      FirstByte(ps, got, wire);
      Take(version, Header(InList(map[])), [SVCINFO], got[1..]);
      var g := Feed(version, At(NameLength(map[]), []), got[1..]);
      assert [] + g.events == g.events;
      k, part := ListStands(version, map[], a.entries, ps, left, got, wire);
    } else {
      NotListing(version, c, a);
      BodiesNeverReadHeaders(version, Handling(HandlerOf(version, c), ps[0].bytes), got[1..]);
      SingleIsShort(version, c, a, ps, got, wire);
      StandsInFirst(version, ps, got, wire, f);
    }
  }

  /** The one packet of an answer other than a listing has not been taken while the handler waits. */
  lemma SingleIsShort(version: nat, c: Request, a: Answer, ps: seq<Packet>, got: Octets, wire: Octets)
    requires Issued(version, c) && AnswerTo(c, a) && (a.AListing? ==> a.entries == [])
    requires AllWellFormed(ps) && ps != [] && ps[0].ReplyPacket? && ps[0].bytes == ReplyPackets(c, a)[0]
    requires got != [] && got + wire == StreamBytes(ps)
    requires HandlerFed(version, c, ps[0].bytes, got[1..]).reader.At?
    ensures |got| < |PacketBytes(ps[0])|
  {
    hide HandlerFed, ReplyPackets, AnswerTo, Issued, StreamBytes;
    var p := ps[0].bytes;
    if |got| >= |p| {
      WholeFirst(ps, got, wire);
      var more := got[|p|..];
      assert got == p + more && got[1..] == p[1..] + more;
      SingleStops(version, c, a, more);
    }
  }

  lemma WholeFirst(ps: seq<Packet>, got: Octets, wire: Octets)
    requires AllWellFormed(ps) && ps != [] && got + wire == StreamBytes(ps) && |PacketBytes(ps[0])| <= |got|
    ensures got[..|PacketBytes(ps[0])|] == PacketBytes(ps[0])
  {
    var p := PacketBytes(ps[0]);
    assert got[..|p|] == StreamBytes(ps)[..|p|] == p;
  }

  lemma SingleStops(version: nat, c: Request, a: Answer, rest: Octets)
    requires Issued(version, c) && AnswerTo(c, a) && (a.AListing? ==> a.entries == [])
    ensures
      var p := ReplyPackets(c, a)[0];
      p != [] && HandlerFed(version, c, p, p[1..] + rest).reader.Stopped?
  {
    if a.AListing? {
      EmptyListingIsRejected(version, [LISTDONE][1..] + rest);
    } else {
      ServeOne(version, c, a, rest);
    }
  }

  lemma ListingBegins(version: nat, c: Request, a: Answer, first: Octets)
    requires Issued(version, c) && AnswerTo(c, a) && a.AListing? && a.entries != []
    requires ReplyPackets(c, a) != [] && first == ReplyPackets(c, a)[0]
    ensures first != [] && first[0] == SVCINFO
    ensures Handling(HandlerOf(version, c), first) == At(NameLength(map[]), [])
    ensures forall e <- a.entries :: |e.0| <= 255 && Coherent(e.1, if version >= 5 then 5 else 4)
    ensures ReplyPackets(c, a) == ListingPackets(a.entries, if version >= 5 then 5 else 4)
  {
    hide EncodeStatus, Coherent;
    assert a.entries[0] in a.entries;
  }

  lemma FirstByte(ps: seq<Packet>, got: Octets, wire: Octets)
    requires AllWellFormed(ps) && ps != [] && ps[0].ReplyPacket? && got != [] && got + wire == StreamBytes(ps)
    requires ps[0].bytes != [] && ps[0].bytes[0] == SVCINFO
    ensures got == [SVCINFO] + got[1..]
  {
    PrefixOfFirst(ps, got, wire);
  }

  lemma NotListing(version: nat, c: Request, a: Answer)
    requires Issued(version, c) && AnswerTo(c, a) && (a.AListing? ==> a.entries == [])
    ensures var r := Handling(HandlerOf(version, c), ReplyPackets(c, a)[0]); r.At? ==> BodyPoint(r.pt)
  {
    hide EncodeStatus, Coherent, EncodeLoader, EncodeEnv;
  }
}
