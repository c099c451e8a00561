// What a daemon that keeps to the protocol puts on the wire: one answer per request,
// with information packets anywhere between reply packets. The lemmas say what the
// client's reader makes of it.

module Answers {
  import opened Prelude
  import opened Bytes
  import opened Protocol
  import opened Requests
  import opened Wire

  // ---- Packets ----

  datatype Packet = Info(kind: Byte, payload: Octets) | ReplyPacket(bytes: Octets)

  predicate WellFormed(p: Packet) {
    match p
    case Info(kind, payload) => kind >= 100 && |payload| <= 253
    case ReplyPacket(bytes) => bytes != [] && bytes[0] < 100
  }

  function PacketBytes(p: Packet): (s: Octets)
    requires WellFormed(p)
    ensures s != []
  {
    match p
    case Info(kind, payload) => [kind, |payload| + 2] + payload
    case ReplyPacket(bytes) => bytes
  }

  ghost predicate AllWellFormed(ps: seq<Packet>) { forall i | 0 <= i < |ps| :: WellFormed(ps[i]) }

  function StreamBytes(ps: seq<Packet>): Octets
    requires AllWellFormed(ps)
  {
    if ps == [] then [] else PacketBytes(ps[0]) + StreamBytes(ps[1..])
  }

  function Replies(ps: seq<Packet>): seq<Octets> {
    if ps == [] then []
    else (if ps[0].ReplyPacket? then [ps[0].bytes] else []) + Replies(ps[1..])
  }

  /** The events a client at this version offers for a stream; None if some information
      packet makes a decoder raise. */
  function EventsOf(version: nat, ps: seq<Packet>): Option<seq<Event>> {
    if ps == [] then Some([])
    else if ps[0].ReplyPacket? then EventsOf(version, ps[1..])
    else
      var first :- Dispatch(version, ps[0].kind, ps[0].payload);
      var others :- EventsOf(version, ps[1..]);
      Some(first + others)
  }

  lemma {:induction false} StreamBytesAppend(a: seq<Packet>, b: seq<Packet>)
    requires AllWellFormed(a) && AllWellFormed(b)
    ensures AllWellFormed(a + b)
    ensures StreamBytes(a + b) == StreamBytes(a) + StreamBytes(b)
    decreases |a|
  {
    if a == [] {
      assert a + b == b;
    } else {
      StreamBytesAppend(a[1..], b);
      assert (a + b)[1..] == a[1..] + b;
    }
  }

  lemma {:induction false} RepliesAppend(a: seq<Packet>, b: seq<Packet>)
    ensures Replies(a + b) == Replies(a) + Replies(b)
    decreases |a|
  {
    if a == [] {
      assert a + b == b;
    } else {
      RepliesAppend(a[1..], b);
      assert (a + b)[0] == a[0] && (a + b)[1..] == a[1..] + b;
    }
  }

  // ---- One step of the reader ----

  /** A call of `exactly` that gets its bytes `a` from the front of the stream. */
  lemma Take(version: nat, pt: Point, a: Octets, rest: Octets)
    requires |a| == if Want(version, pt) <= 0 then 0 else Want(version, pt)
    ensures
      var f := Feed(version, Enter(After(version, pt, a), []), rest);
      Feed(version, At(pt, []), a + rest) == Fed(f.reader, Offers(version, pt, a) + f.events)
  {
    hide After, Offers, Want;
    var n := |a|;
    assert (a + rest)[..n] == a && (a + rest)[n..] == rest && [] + a == a;
  }

  /** An information packet is taken whole, wherever _next_reply was called from. */
  lemma InfoTaken(version: nat, caller: Caller, p: Packet, rest: Octets)
    requires p.Info? && WellFormed(p)
    ensures
      var f := Feed(version, At(Header(caller), []), PacketBytes(p) + rest);
      match Dispatch(version, p.kind, p.payload)
      case None => f == Fed(Stopped(Raise, rest), [])
      case Some(events) =>
        var g := Feed(version, At(Header(caller), []), rest);
        f == Fed(g.reader, events + g.events)
  {
    hide Feed, Dispatch;
    var length: Byte := |p.payload| + 2;
    assert PacketBytes(p) + rest == [p.kind] + ([length] + (p.payload + rest));
    Take(version, Header(caller), [p.kind], [length] + (p.payload + rest));
    Take(version, InfoLength(p.kind, caller), [length], p.payload + rest);
    Take(version, InfoPayload(p.kind, |p.payload|, caller), p.payload, rest);
    if Dispatch(version, p.kind, p.payload).None? {
      FeedStopped(version, Raise, [], rest);
    }
  }

  lemma FeedStopped(version: nat, m: Move, before: Octets, rest: Octets)
    ensures Feed(version, Stopped(m, before), rest) == Fed(Stopped(m, before + rest), [])
  {
  }

  // ---- Answers ----

  type Entry = (Octets, ServiceStatus, Padding)

  /** Why a daemon refuses a request. */
  datatype Refusal =
    | Refused
    | Malformed
    | NoMemory
    | NoMemoryForService
    | GoingDown
    | PinnedStopped
    | PinnedStarted
    | NoSuchService
    | BadDescription
    | CannotBeLoaded
    | LoadFailed
    | NoProcess
    | NoSuchSignal
    | NotSignalled

  datatype Answer =
    | Done
    | AlreadySo
    | Refuse(refusal: Refusal)
    | Stray(code: Byte)
    | AVersion(version: Version)
    | ARecord(record: ServiceRecord)
    | AListing(entries: seq<Entry>)
    | AStatus(reserved: Byte, status: ServiceStatus, pad: Padding)
    | ALog(flags: Byte, data: Octets)
    | AEnv(variables: seq<(Octets, Octets)>)
    | ALoader(loader: LoaderMech)
    | ADependents(handles: seq<U32>)

  /** How the daemon says so. */
  function RefusalCode(r: Refusal): Byte {
    match r
    case Refused => 51
    case Malformed => 52
    case NoMemory => 53
    case CannotBeLoaded => 54
    case NoMemoryForService => 55
    case NoSuchService => 60
    case PinnedStopped => 67
    case PinnedStarted => 68
    case GoingDown => 69
    case BadDescription => 71
    case LoadFailed => 72
    case NoProcess => 74
    case NoSuchSignal => 75
    case NotSignalled => 76
  }

  /** What the caller of the client is to learn from it. */
  function ErrorFor(r: Refusal): Error {
    match r
    case Refused => CommandRejected
    case Malformed => BadRequest
    case NoMemory => OutOfMemory
    case NoMemoryForService => OutOfMemory
    case GoingDown => ShuttingDown
    case PinnedStopped => Pinned
    case PinnedStarted => Pinned
    case NoSuchService => ServiceNotFound
    case BadDescription => ServiceDescriptionError
    case CannotBeLoaded => ServiceLoadError
    case LoadFailed => ServiceLoadError
    case NoProcess => SignalNotDelivered
    case NoSuchSignal => SignalNotDelivered
    case NotSignalled => SignalNotDelivered
  }

  /** A reply code that is defined but no answer to this request. */
  predicate StrayTo(c: Request, code: Byte) {
    || code in {SERVICENAME, SVCDSCDIR, PREACK}
    || (code == CPVERSION && !c.QueryVersion?)
    || (code == SERVICERECORD && !c.FindOrLoad?)
    || (code in {SVCINFO, LISTDONE} && !c.ListServices?)
    || (code == LOADER_MECH && !c.QueryLoadMech?)
    || (code == DEPENDENTS && !(c.StartStop? && c.command == 4 && !c.restart))
    || (code == SERVICESTATUS && !(c.OnHandle? && StatusCommand(c.command)))
    || (code == SERVICE_LOG && !c.CatLog?)
    || (code == ALLENV && !c.GetAllEnv?)
  }

  predicate StatusCommand(command: int) { command == 18 || command == 26 || command == 28 }

  /** The protocol version whose status layout a request asks for. */
  function Layout(c: Request): nat {
    match c
    case ListServices(extended) => if extended then 5 else 4
    case OnHandle(command, _) => if command == 28 then 6 else if command == 26 then 5 else 4
    case _ => 4
  }

  /** The answers a daemon may give to a request. */
  ghost predicate AnswerTo(c: Request, a: Answer) {
    match a
    case Done => true
    case AlreadySo => true
    case Refuse(_) => true
    case Stray(code) => StrayTo(c, code)
    case AVersion(_) => c.QueryVersion?
    case ARecord(_) => c.FindOrLoad?
    case AListing(entries) =>
      && c.ListServices?
      && forall e <- entries :: |e.0| <= 255 && Coherent(e.1, Layout(c))
    case AStatus(_, status, _) => c.OnHandle? && StatusCommand(c.command) && Coherent(status, Layout(c))
    case ALog(_, data) => c.CatLog? && |data| < 0x1_0000_0000
    case AEnv(variables) =>
      && c.GetAllEnv?
      && |EnvBlock(variables)| < 0x1_0000_0000_0000_0000
      && forall e <- variables :: EnvEntry(e)
    case ALoader(loader) => c.QueryLoadMech? && LoaderFits(loader)
    case ADependents(handles) => c.StartStop? && c.command == 4 && c.gentle && |handles| < 0x1_0000_0000_0000_0000
  }

  function HandleBytes(handles: seq<U32>): Octets {
    if handles == [] then [] else Le(handles[0], 4) + HandleBytes(handles[1..])
  }

  function EntryPacket(e: Entry, layout: nat): Octets
    requires |e.0| <= 255
  {
    [SVCINFO, |e.0|] + EncodeStatus(e.1, layout, e.2) + e.0
  }

  function ListingPackets(entries: seq<Entry>, layout: nat): (ps: seq<Octets>)
    requires forall e <- entries :: |e.0| <= 255
    ensures |ps| == |entries| + 1
  {
    if entries == [] then [[LISTDONE]]
    else [EntryPacket(entries[0], layout)] + ListingPackets(entries[1..], layout)
  }

  function ReplyPackets(c: Request, a: Answer): (ps: seq<Octets>)
    requires AnswerTo(c, a)
    ensures ps != []
  {
    match a
    case Done => [[ACK]]
    case AlreadySo => [[ALREADYSS]]
    case Refuse(refusal) => [[RefusalCode(refusal)]]
    case Stray(code) => [[code]]
    case AVersion(v) => [[CPVERSION] + EncodeVersion(v)]
    case ARecord(r) => [[SERVICERECORD] + EncodeServiceRecord(r)]
    case AListing(entries) => ListingPackets(entries, Layout(c))
    case AStatus(reserved, status, pad) => [[SERVICESTATUS, reserved] + EncodeStatus(status, Layout(c), pad)]
    case ALog(flags, data) => [[SERVICE_LOG, flags] + Le(|data|, 4) + data]
    case AEnv(variables) => [[ALLENV] + EncodeEnv(variables)]
    case ALoader(loader) => [EncodeLoader(loader)]
    case ADependents(handles) => [[DEPENDENTS] + Le(|handles|, 8) + HandleBytes(handles)]
  }

  // ---- Requests as the client issues them ----

  /** The packets the client sends once version `version` is negotiated. */
  predicate Issued(version: nat, c: Request) {
    && Encodable(c)
    && match c
       case OnHandle(command, _) =>
         command == 16 || command == 9 || command == 7 || command == ServiceStatusCommand(version)
       case StartStop(command, _, pin, gentle, restart, preack) =>
         && !preack
         && (gentle ==> command == 4 && !restart)
         && (restart ==> command == 4)
       case ListServices(extended) => extended == (version >= 5)
       case _ => true
  }

  /** The handler that goes with a request. */
  function HandlerOf(version: nat, c: Request): Handler {
    match c
    case QueryVersion => HVersion
    case FindOrLoad(_, _) => HRecord
    case OnHandle(command, _) => if StatusCommand(command) then HStatus(StatusSize(version)) else HAck
    case StartStop(command, _, _, _, restart, _) => if command == 4 && !restart then HStop else HAck
    case ListServices(_) => HList
    case CatLog(_, _) => HLog
    case Signal(_, _) => HAck
    case SetEnv(_) => HAck
    case GetAllEnv => HEnv
    case QueryLoadMech => HLoader
  }

  predicate Acknowledged(c: Request) {
    c.StartStop? || c.Signal? || c.SetEnv? || (c.OnHandle? && !StatusCommand(c.command))
  }

  /** The map a listing denotes: a later entry wins. */
  function ListingMap(entries: seq<Entry>, items: Listing): Listing {
    if entries == [] then items else ListingMap(entries[1..], items[entries[0].0 := entries[0].1])
  }

  /** What the requester gets for an answer. A daemon without services answers with
      LISTDONE alone, and the client takes that for an error. */
  function Expected(c: Request, a: Answer): Outcome {
    match a
    case Done => if Acknowledged(c) then Result(Nothing) else Raises(UnexpectedReply(ACK))
    case AlreadySo => if Acknowledged(c) then Result(Nothing) else Raises(UnexpectedReply(ALREADYSS))
    case Refuse(refusal) =>
      Raises(if c.QueryVersion? then UnexpectedReply(RefusalCode(refusal)) else ErrorFor(refusal))
    case Stray(code) => Raises(UnexpectedReply(code))
    case AVersion(v) => Result(OfVersion(v))
    case ARecord(r) => Result(OfRecord(r))
    case AListing(entries) =>
      if entries == [] then Raises(UnexpectedReply(LISTDONE)) else Result(OfListing(ListingMap(entries, map[])))
    case AStatus(_, status, _) => Result(OfStatus(status))
    case ALog(_, data) => Result(OfLog(data))
    case AEnv(variables) => Result(OfEnv(EnvMap(variables, map[])))
    case ALoader(loader) => Result(OfLoader(loader))
    case ADependents(handles) => Raises(Dependents(handles))
  }

  // ---- Replies of one packet ----

  /** The reader in a handler that has just been given the reply code of `packet`. */
  function Handling(h: Handler, packet: Octets): Reader
    requires packet != []
  {
    Enter(Begin(h, packet[0]), [])
  }

  /** A handler run over the bytes after the reply code of `packet`. */
  function HandlerFed(version: nat, c: Request, packet: Octets, s: Octets): Fed
    requires packet != []
  {
    Feed(version, Handling(HandlerOf(version, c), packet), s)
  }

  /** An answer that is no more than its reply code. */
  predicate IsCode(a: Answer) { a.Done? || a.AlreadySo? || a.Refuse? || a.Stray? }

  lemma AckIsTaken(version: nat, c: Request, a: Answer)
    requires AnswerTo(c, a) && (a.Done? || a.AlreadySo?)
    ensures Handling(HandlerOf(version, c), ReplyPackets(c, a)[0]) == Stopped(Finish(Expected(c, a)), [])
    ensures |ReplyPackets(c, a)| == 1 && |ReplyPackets(c, a)[0]| == 1
  {
  }

  lemma RefusalIsTaken(version: nat, c: Request, a: Answer)
    requires AnswerTo(c, a) && a.Refuse?
    ensures Handling(HandlerOf(version, c), ReplyPackets(c, a)[0]) == Stopped(Finish(Expected(c, a)), [])
    ensures |ReplyPackets(c, a)| == 1 && |ReplyPackets(c, a)[0]| == 1
  {
  }

  lemma StrayIsTaken(version: nat, c: Request, a: Answer)
    requires AnswerTo(c, a) && a.Stray?
    ensures Handling(HandlerOf(version, c), ReplyPackets(c, a)[0]) == Stopped(Finish(Expected(c, a)), [])
    ensures |ReplyPackets(c, a)| == 1 && |ReplyPackets(c, a)[0]| == 1
  {
  }

  lemma CodeIsTaken(version: nat, c: Request, a: Answer)
    requires AnswerTo(c, a) && IsCode(a)
    ensures Handling(HandlerOf(version, c), ReplyPackets(c, a)[0]) == Stopped(Finish(Expected(c, a)), [])
    ensures |ReplyPackets(c, a)| == 1 && |ReplyPackets(c, a)[0]| == 1
  {
    hide Handling, HandlerOf, Expected, AnswerTo, ReplyPackets;
    if a.Refuse? {
      RefusalIsTaken(version, c, a);
    } else if a.Stray? {
      StrayIsTaken(version, c, a);
    } else {
      AckIsTaken(version, c, a);
    }
  }

  /** Refusals raise the error that says what they mean; what is no answer to the request raises
      an unexpected reply. */
  lemma ServeCode(version: nat, c: Request, a: Answer, rest: Octets)
    requires AnswerTo(c, a) && IsCode(a)
    ensures HandlerFed(version, c, ReplyPackets(c, a)[0], rest) == Fed(Stopped(Finish(Expected(c, a)), rest), [])
  {
    hide Feed, Handling, HandlerOf, Expected, AnswerTo;
    CodeIsTaken(version, c, a);
    FeedStopped(version, Finish(Expected(c, a)), [], rest);
    assert [] + rest == rest;
  }

  /** A reply code that the protocol does not define ends the reader, whatever the request, but
      for the version query, which takes it for an unexpected reply. */
  lemma UndefinedCodeEndsReader(version: nat, c: Request, code: Byte)
    requires code < 50 || code == 56 || code == 57 || 79 < code < 100
    ensures
      Handling(HandlerOf(version, c), [code])
      == Stopped(if c.QueryVersion? then Finish(Raises(UnexpectedReply(code))) else Raise, [])
  {
  }

  lemma ServeFixed(version: nat, c: Request, a: Answer, rest: Octets)
    requires Issued(version, c) && AnswerTo(c, a) && (a.AVersion? || a.ARecord? || a.AStatus?)
    ensures
      var p := ReplyPackets(c, a)[0];
      HandlerFed(version, c, p, p[1..] + rest) == Fed(Stopped(Finish(Expected(c, a)), rest), [])
  {
    hide Feed, HandlerFed, EncodeStatus, EncodeVersion, EncodeServiceRecord, StatusSize, Coherent;
    match a
    case AVersion(v) => ServeVersion(version, v, rest);
    case ARecord(r) => ServeRecord(version, c, r, rest);
    case AStatus(reserved, status, pad) => ServeStatus(version, c, reserved, status, pad, rest);
  }

  lemma ServeVersion(version: nat, v: Version, rest: Octets)
    ensures
      var p := [CPVERSION] + EncodeVersion(v);
      HandlerFed(version, QueryVersion, p, p[1..] + rest) == Fed(Stopped(Finish(Result(OfVersion(v))), rest), [])
  {
    hide Feed, DecodeVersion;
    var p := [CPVERSION] + EncodeVersion(v);
    VersionRoundTrip(v);
    assert p[1..] == EncodeVersion(v);
    Take(version, VersionBody, EncodeVersion(v), rest);
    FeedStopped(version, Finish(Result(OfVersion(v))), [], rest);
  }

  lemma ServeRecord(version: nat, c: Request, r: ServiceRecord, rest: Octets)
    requires c.FindOrLoad?
    ensures
      var p := [SERVICERECORD] + EncodeServiceRecord(r);
      HandlerFed(version, c, p, p[1..] + rest) == Fed(Stopped(Finish(Result(OfRecord(r))), rest), [])
  {
    hide Feed, DecodeServiceRecord;
    var p := [SERVICERECORD] + EncodeServiceRecord(r);
    ServiceRecordRoundTrip(r);
    assert p[1..] == EncodeServiceRecord(r);
    Take(version, RecordBody, EncodeServiceRecord(r), rest);
    FeedStopped(version, Finish(Result(OfRecord(r))), [], rest);
  }

  lemma ServeStatus(version: nat, c: Request, reserved: Byte, status: ServiceStatus, pad: Padding, rest: Octets)
    requires c.OnHandle? && StatusCommand(c.command) && Issued(version, c) && Coherent(status, Layout(c))
    ensures
      var p := [SERVICESTATUS, reserved] + EncodeStatus(status, Layout(c), pad);
      HandlerFed(version, c, p, p[1..] + rest) == Fed(Stopped(Finish(Result(OfStatus(status))), rest), [])
  {
    hide Feed, DecodeStatus, EncodeStatus, Coherent;
    var p := [SERVICESTATUS, reserved] + EncodeStatus(status, Layout(c), pad);
    var size, body := StatusSize(version), EncodeStatus(status, Layout(c), pad);
    StatusRoundTrip(status, Layout(c), pad);
    SameLayout(body, version, Layout(c));
    assert p[1..] + rest == [reserved] + (body + rest);
    Take(version, Reserved(size), [reserved], body + rest);
    Take(version, StatusBody(size), body, rest);
    FeedStopped(version, Finish(Result(OfStatus(status))), [], rest);
  }

  lemma SameLayout(buf: Octets, version: nat, layout: nat)
    requires (version >= 6) == (layout >= 6) && (version >= 5) == (layout >= 5)
    ensures DecodeStatus(buf, version) == DecodeStatus(buf, layout)
    ensures StatusSize(version) == StatusSize(layout)
  {
  }

  lemma ServeLog(version: nat, data: Octets, flags: Byte, rest: Octets)
    requires |data| < 0x1_0000_0000
    ensures Feed(version, At(LogHead, []), [flags] + Le(|data|, 4) + data + rest)
         == Fed(Stopped(Finish(Result(OfLog(data))), rest), [])
  {
    hide Feed;
    Widths();
    var head := [flags] + Le(|data|, 4);
    assert head + data + rest == head + (data + rest);
    HandleAt([flags], |data|, []);
    assert head == [flags] + Le(|data|, 4) + [];
    Take(version, LogHead, head, data + rest);
    Take(version, LogData(|data|), data, rest);
    FeedStopped(version, Finish(Result(OfLog(data))), [], rest);
  }

  lemma ServeEnv(version: nat, variables: seq<(Octets, Octets)>, rest: Octets)
    requires |EnvBlock(variables)| < 0x1_0000_0000_0000_0000
    requires forall e <- variables :: EnvEntry(e)
    ensures Feed(version, At(EnvHead, []), EncodeEnv(variables) + rest)
         == Fed(Stopped(Finish(Result(OfEnv(EnvMap(variables, map[])))), rest), [])
  {
    hide Feed, EnvOf, EnvBlock, EnvMap;
    Widths();
    var block := EnvBlock(variables);
    var head := Le(|block|, 8);
    assert EncodeEnv(variables) + rest == head + (block + rest);
    EnvRoundTrip(variables);
    UnsignedAtOfLe([], |block|, 8, []);
    assert head == [] + head + [];
    Take(version, EnvHead, head, block + rest);
    Take(version, EnvData(head, |block|), block, rest);
    FeedStopped(version, Finish(Result(OfEnv(EnvMap(variables, map[])))), [], rest);
  }

  lemma ServeLoader(version: nat, m: LoaderMech, rest: Octets)
    requires LoaderFits(m)
    ensures Feed(version, At(LoaderStart, []), EncodeLoader(m)[1..] + rest)
         == Fed(Stopped(Finish(Result(OfLoader(m))), rest), [])
  {
    hide Feed, LoaderOf, EncodeLoader, LoaderBody;
    LoaderRoundTrip(m);
    LoaderSplits(m);
    var p, head, body := EncodeLoader(m), EncodeLoader(m)[1..6], LoaderBody(m);
    assert p[1..] + rest == head + (body + rest);
    Take(version, LoaderStart, head, body + rest);
    Take(version, LoaderData(head, |body|), body, rest);
    FeedStopped(version, Finish(Result(OfLoader(m))), [], rest);
  }

  lemma LoaderSplits(m: LoaderMech)
    requires LoaderFits(m)
    ensures
      var p, head, body := EncodeLoader(m), EncodeLoader(m)[1..6], LoaderBody(m);
      |head| == 5 && |p| == 6 + |body| && p[1..] == head + body && [LOADER_MECH] + head + body == p
  {
    hide LoaderBody;
  }

  lemma ServeLogAnswer(version: nat, c: Request, a: Answer, rest: Octets)
    requires AnswerTo(c, a) && a.ALog?
    ensures
      var p := ReplyPackets(c, a)[0];
      HandlerFed(version, c, p, p[1..] + rest) == Fed(Stopped(Finish(Expected(c, a)), rest), [])
  {
    hide Feed;
    var p := ReplyPackets(c, a)[0];
    ServeLog(version, a.data, a.flags, rest);
    assert p[1..] == [a.flags] + Le(|a.data|, 4) + a.data;
  }

  lemma ServeEnvAnswer(version: nat, c: Request, a: Answer, rest: Octets)
    requires AnswerTo(c, a) && a.AEnv?
    ensures
      var p := ReplyPackets(c, a)[0];
      HandlerFed(version, c, p, p[1..] + rest) == Fed(Stopped(Finish(Expected(c, a)), rest), [])
  {
    hide Feed;
    var p := ReplyPackets(c, a)[0];
    ServeEnv(version, a.variables, rest);
    assert p[1..] == EncodeEnv(a.variables);
  }

  lemma ServeLoaderAnswer(version: nat, c: Request, a: Answer, rest: Octets)
    requires AnswerTo(c, a) && a.ALoader?
    ensures
      var p := ReplyPackets(c, a)[0];
      HandlerFed(version, c, p, p[1..] + rest) == Fed(Stopped(Finish(Expected(c, a)), rest), [])
  {
    hide Feed;
    var p := ReplyPackets(c, a)[0];
    ServeLoader(version, a.loader, rest);
  }

  lemma {:induction false} CollectAll(version: nat, handles: seq<U32>, collected: seq<U32>, rest: Octets)
    ensures Feed(version, Enter(CollectDependents(|handles|, collected), []), HandleBytes(handles) + rest)
         == Fed(Stopped(Finish(Raises(Dependents(collected + handles))), rest), [])
    decreases |handles|
  {
    hide Feed;
    if handles == [] {
      assert collected + handles == collected && HandleBytes(handles) + rest == rest;
      FeedStopped(version, Finish(Raises(Dependents(collected))), [], rest);
    } else {
      var first, others := Le(handles[0], 4), HandleBytes(handles[1..]);
      assert HandleBytes(handles) + rest == first + (others + rest);
      assert first == [] + first + [];
      HandleAt([], handles[0], []);
      Take(version, DependentHandle(|handles|, collected), first, others + rest);
      CollectAll(version, handles[1..], collected + [handles[0]], rest);
      assert collected + [handles[0]] + handles[1..] == collected + handles;
    }
  }

  lemma ServeDependents(version: nat, c: Request, a: Answer, rest: Octets)
    requires Issued(version, c) && AnswerTo(c, a) && a.ADependents?
    ensures
      var p := ReplyPackets(c, a)[0];
      HandlerFed(version, c, p, p[1..] + rest) == Fed(Stopped(Finish(Expected(c, a)), rest), [])
  {
    hide Feed, HandleBytes, CollectDependents;
    var p := ReplyPackets(c, a)[0];
    var count, body := Le(|a.handles|, 8), HandleBytes(a.handles);
    assert p == [DEPENDENTS] + count + body;
    assert p[1..] + rest == count + (body + rest);
    CountTaken(version, a.handles, body + rest);
    CollectAll(version, a.handles, [], rest);
    assert [] + a.handles == a.handles;
    StopBegins(version, c, p);
  }

  lemma StopBegins(version: nat, c: Request, p: Octets)
    requires Issued(version, c) && c.StartStop? && c.command == 4 && c.gentle && p != [] && p[0] == DEPENDENTS
    ensures Handling(HandlerOf(version, c), p) == At(DependentCount, [])
  {
  }

  lemma CountTaken(version: nat, handles: seq<U32>, rest: Octets)
    requires |handles| < 0x1_0000_0000_0000_0000
    ensures Feed(version, At(DependentCount, []), Le(|handles|, 8) + rest)
         == Feed(version, Enter(CollectDependents(|handles|, []), []), rest)
  {
    hide Feed, CollectDependents;
    Widths();
    var count := Le(|handles|, 8);
    UnsignedAtOfLe([], |handles|, 8, []);
    assert count == [] + count + [];
    Take(version, DependentCount, count, rest);
    var f := Feed(version, Enter(CollectDependents(|handles|, []), []), rest);
    assert [] + f.events == f.events;
  }

  /** An answer of one packet finishes its request with its own decoding and takes
      nothing that comes after it. */
  lemma ServeOne(version: nat, c: Request, a: Answer, rest: Octets)
    requires Issued(version, c) && AnswerTo(c, a) && !a.AListing?
    ensures |ReplyPackets(c, a)| == 1
    ensures
      var p := ReplyPackets(c, a)[0];
      HandlerFed(version, c, p, p[1..] + rest) == Fed(Stopped(Finish(Expected(c, a)), rest), [])
  {
    if IsCode(a) {
      ServeCode(version, c, a, rest);
      CodeIsTaken(version, c, a);
      assert ReplyPackets(c, a)[0][1..] + rest == rest;
    } else if a.AVersion? || a.ARecord? || a.AStatus? {
      ServeFixed(version, c, a, rest);
    } else if a.ADependents? {
      ServeDependents(version, c, a, rest);
    } else if a.ALog? {
      ServeLogAnswer(version, c, a, rest);
    } else if a.AEnv? {
      ServeEnvAnswer(version, c, a, rest);
    } else {
      ServeLoaderAnswer(version, c, a, rest);
    }
  }

  // ---- Service listings ----

  lemma EntryTaken(version: nat, items: Listing, e: Entry, layout: nat, rest: Octets)
    requires |e.0| <= 255 && Coherent(e.1, layout)
    requires layout == if version >= 5 then 5 else 4
    ensures Feed(version, At(NameLength(items), []), EntryPacket(e, layout)[1..] + rest)
         == Feed(version, At(Header(InList(items[e.0 := e.1])), []), rest)
  {
    hide Feed, DecodeStatus, EncodeStatus, StatusSize;
    var length: Byte := |e.0|;
    var body := EncodeStatus(e.1, layout, e.2);
    StatusRoundTrip(e.1, layout, e.2);
    SameLayout(body, Min(version, 5), layout);
    ListStatusSizeIsStatusSize(version);
    assert EntryPacket(e, layout)[1..] + rest == [length] + (body + (e.0 + rest));
    Take(version, NameLength(items), [length], body + (e.0 + rest));
    Take(version, EntryStatus(items, length), body, e.0 + rest);
    Take(version, EntryName(items, length, e.1), e.0, rest);
  }

  lemma {:induction false} NoRepliesLeft(ps: seq<Packet>)
    requires Replies(ps) == []
    ensures forall i | 0 <= i < |ps| :: ps[i].Info?
  {
    if ps != [] {
      NoRepliesLeft(ps[1..]);
    }
  }

  /** The reader's view of a listing, from a call of _next_reply in the list handler to its
      end: entries are collected and information packets between them dispatched in order. */
  ghost predicate Listed(version: nat, items: Listing, entries: seq<Entry>, ps: seq<Packet>, f: Fed, rest: Octets) {
    match EventsOf(version, ps)
    case None => f.reader.Stopped? && f.reader.move == Raise
    case Some(events) => f == Fed(Stopped(Finish(Result(OfListing(ListingMap(entries, items)))), rest), events)
  }

  lemma ListEnds(version: nat, items: Listing, ps: seq<Packet>, rest: Octets)
    requires AllWellFormed(ps) && ps != [] && ps[0].ReplyPacket? && ps[|ps| - 1].ReplyPacket?
    requires Replies(ps) == [[LISTDONE]]
    ensures Listed(version, items, [], ps,
                   Feed(version, At(Header(InList(items)), []), StreamBytes(ps) + rest), rest)
  {
    hide Feed;
    OneReply(ps);
    assert StreamBytes(ps) + rest == [LISTDONE] + rest;
    Take(version, Header(InList(items)), [LISTDONE], rest);
    FeedStopped(version, Finish(Result(OfListing(items))), [], rest);
    assert EventsOf(version, ps[1..]) == Some([]);
  }

  lemma OneReply(ps: seq<Packet>)
    requires ps != [] && ps[0].ReplyPacket? && ps[|ps| - 1].ReplyPacket? && |Replies(ps)| == 1
    ensures |ps| == 1 && ps == [ReplyPacket(Replies(ps)[0])] && ps[1..] == []
  {
    hide Replies;
    var others := ps[1..];
    FirstReply(ps);
    assert Replies(others) == [];
    if others != [] {
      assert ps[|ps| - 1] == others[|others| - 1];
      NoRepliesLeft(others);
    }
  }

  lemma ListContinues(version: nat, items: Listing, e: Entry, bytes: Octets, tail: Octets)
    requires |e.0| <= 255 && Coherent(e.1, if version >= 5 then 5 else 4)
    requires bytes == EntryPacket(e, if version >= 5 then 5 else 4)
    ensures Feed(version, At(Header(InList(items)), []), bytes + tail)
         == Feed(version, At(Header(InList(items[e.0 := e.1])), []), tail)
  {
    hide Feed, Coherent, EncodeStatus;
    assert bytes + tail == [SVCINFO] + (bytes[1..] + tail);
    Take(version, Header(InList(items)), [SVCINFO], bytes[1..] + tail);
    EntryTaken(version, items, e, if version >= 5 then 5 else 4, tail);
  }

  lemma {:induction false} ListTaken(version: nat, items: Listing, entries: seq<Entry>, ps: seq<Packet>, rest: Octets)
    requires AllWellFormed(ps) && ps != [] && ps[|ps| - 1].ReplyPacket?
    requires forall e <- entries :: |e.0| <= 255 && Coherent(e.1, if version >= 5 then 5 else 4)
    requires Replies(ps) == ListingPackets(entries, if version >= 5 then 5 else 4)
    ensures Listed(version, items, entries, ps,
                   Feed(version, At(Header(InList(items)), []), StreamBytes(ps) + rest), rest)
    decreases |ps|
  {
    hide Feed, Coherent, Dispatch, EncodeStatus, EntryPacket;
    var layout := if version >= 5 then 5 else 4;
    var p, tail := ps[0], StreamBytes(ps[1..]) + rest;
    assert StreamBytes(ps) + rest == PacketBytes(p) + tail;
    if p.Info? {
      InfoTaken(version, InList(items), p, tail);
      ListTaken(version, items, entries, ps[1..], rest);
    } else if entries == [] {
      ListEnds(version, items, ps, rest);
    } else {
      var e := entries[0];
      assert e in entries;
      assert p.bytes == Replies(ps)[0] == EntryPacket(e, layout);
      ListContinues(version, items, e, p.bytes, tail);
      assert Replies(ps[1..]) == Replies(ps)[1..] == ListingPackets(entries[1..], layout);
      assert |Replies(ps[1..])| > 0;
      ListTaken(version, items[e.0 := e.1], entries[1..], ps[1..], rest);
    }
  }

  /** A refusal between two entries ends the listing with its error, and a code that is not
      defined ends the reader. */
  lemma ListCutShort(version: nat, items: Listing, code: Byte, rest: Octets)
    requires code < 100 && code != SVCINFO && code != LISTDONE
    ensures
      var f := Feed(version, At(Header(InList(items)), []), [code] + rest);
      && (forall r :: code == RefusalCode(r) ==> f == Fed(Stopped(Finish(Raises(ErrorFor(r))), rest), []))
      && (code < 50 || code == 56 || code == 57 || code > 79 ==> f == Fed(Stopped(Raise, rest), []))
  {
    hide Feed;
    Take(version, Header(InList(items)), [code], rest);
    FeedStopped(version, Reject(code), [], rest);
    assert [] + rest == rest;
  }

  // ---- Any answer ----

  /** The packets of one answer as they can lie on the wire: from its first reply packet
      to its last, with information packets between them. */
  ghost predicate Carries(ps: seq<Packet>, c: Request, a: Answer)
    requires AnswerTo(c, a)
  {
    && AllWellFormed(ps)
    && ps != [] && ps[0].ReplyPacket? && ps[|ps| - 1].ReplyPacket?
    && Replies(ps) == ReplyPackets(c, a)
  }

  /** The reader's view of an answer whose packets are `ps`, from the call of its handler on. */
  ghost predicate Served(version: nat, c: Request, a: Answer, ps: seq<Packet>, f: Fed, rest: Octets) {
    match EventsOf(version, ps)
    case None => f.reader.Stopped? && f.reader.move == Raise
    case Some(events) => f == Fed(Stopped(Finish(Expected(c, a)), rest), events)
  }

  lemma FirstReply(ps: seq<Packet>)
    requires ps != [] && ps[0].ReplyPacket?
    ensures Replies(ps) == [ps[0].bytes] + Replies(ps[1..])
  {
  }

  lemma MoreEntries(entries: seq<Entry>, layout: nat)
    requires entries != [] && forall e <- entries :: |e.0| <= 255
    ensures entries[0] in entries
    ensures ListingPackets(entries, layout)
            == [EntryPacket(entries[0], layout)] + ListingPackets(entries[1..], layout)
  {
    hide EntryPacket;
  }

  lemma SameCons<T>(x: T, u: seq<T>, y: T, v: seq<T>)
    requires [x] + u == [y] + v
    ensures x == y && u == v
  {
    assert u == ([x] + u)[1..] && v == ([y] + v)[1..];
    assert x == ([x] + u)[0];
  }

  lemma FirstEntry(entries: seq<Entry>, layout: nat, ps: seq<Packet>, left: seq<Octets>)
    requires ps != [] && ps[0].ReplyPacket? && entries != []
    requires forall e <- entries :: |e.0| <= 255
    requires Replies(ps) + left == ListingPackets(entries, layout)
    ensures entries[0] in entries && ps[0].bytes == EntryPacket(entries[0], layout)
    ensures Replies(ps[1..]) + left == ListingPackets(entries[1..], layout)
  {
    hide EntryPacket, Replies, ListingPackets;
    FirstReply(ps);
    MoreEntries(entries, layout);
    var b, r := ps[0].bytes, Replies(ps[1..]);
    assert ([b] + r) + left == [b] + (r + left);
    SameCons(b, r + left, EntryPacket(entries[0], layout), ListingPackets(entries[1..], layout));
  }

  lemma ServeListing(version: nat, entries: seq<Entry>, ps: seq<Packet>, rest: Octets)
    requires AllWellFormed(ps) && ps != [] && ps[0].ReplyPacket? && ps[|ps| - 1].ReplyPacket?
    requires entries != []
    requires forall e <- entries :: |e.0| <= 255 && Coherent(e.1, if version >= 5 then 5 else 4)
    requires Replies(ps) == ListingPackets(entries, if version >= 5 then 5 else 4)
    ensures Listed(version, map[], entries, ps,
                   Feed(version, Handling(HList, ps[0].bytes), StreamBytes(ps)[1..] + rest), rest)
  {
    hide Feed, Begin, EntryPacket, StreamBytes, Coherent, Listed, EventsOf, ListingPackets, Replies;
    var tail := StreamBytes(ps[1..]);
    var e, layout := entries[0], if version >= 5 then 5 else 4;
    ListingStarts(entries, layout, ps);
    FirstBytes(ps, rest);
    ListBegins(ps[0].bytes);
    EntryTaken(version, map[], e, layout, tail + rest);
    assert map[][e.0 := e.1] == map[e.0 := e.1];
    ListTaken(version, map[e.0 := e.1], entries[1..], ps[1..], rest);
    ListedFromFirst(version, entries, ps, Feed(version, At(Header(InList(map[e.0 := e.1])), []), tail + rest), rest);
  }

  lemma FirstBytes(ps: seq<Packet>, rest: Octets)
    requires AllWellFormed(ps) && ps != [] && ps[0].ReplyPacket?
    ensures ps[0].bytes != [] && AllWellFormed(ps[1..]) && StreamBytes(ps) != []
    ensures StreamBytes(ps)[1..] + rest == ps[0].bytes[1..] + (StreamBytes(ps[1..]) + rest)
  {
    BehindFirst(ps[0].bytes, StreamBytes(ps[1..]), rest);
  }

  lemma BehindFirst(first: Octets, middle: Octets, rest: Octets)
    requires first != []
    ensures (first + middle)[1..] + rest == first[1..] + (middle + rest)
  {
    assert (first + middle)[1..] == first[1..] + middle;
  }

  lemma ListBegins(first: Octets)
    requires first != [] && first[0] == SVCINFO
    ensures Handling(HList, first) == At(NameLength(map[]), [])
  {
  }

  lemma ListingStarts(entries: seq<Entry>, layout: nat, ps: seq<Packet>)
    requires ps != [] && ps[0].ReplyPacket? && entries != []
    requires forall e <- entries :: |e.0| <= 255
    requires Replies(ps) == ListingPackets(entries, layout)
    ensures entries[0] in entries && ps[0].bytes == EntryPacket(entries[0], layout)
    ensures ps[0].bytes != [] && ps[0].bytes[0] == SVCINFO
    ensures Replies(ps[1..]) == ListingPackets(entries[1..], layout) && ps[1..] != []
  {
    hide EncodeStatus, Replies, ListingPackets;
    assert Replies(ps) + [] == Replies(ps);
    FirstEntry(entries, layout, ps, []);
    AnotherPacket(entries[1..], layout, ps[1..]);
  }

  lemma AnotherPacket(entries: seq<Entry>, layout: nat, ps: seq<Packet>)
    requires forall e <- entries :: |e.0| <= 255
    requires Replies(ps) + [] == ListingPackets(entries, layout)
    ensures Replies(ps) == ListingPackets(entries, layout) && ps != []
  {
    hide EntryPacket;
    assert Replies(ps) + [] == Replies(ps);
  }

  lemma ListedFromFirst(version: nat, entries: seq<Entry>, ps: seq<Packet>, f: Fed, rest: Octets)
    requires entries != [] && ps != [] && ps[0].ReplyPacket?
    requires Listed(version, map[entries[0].0 := entries[0].1], entries[1..], ps[1..], f, rest)
    ensures Listed(version, map[], entries, ps, f, rest)
  {
    hide Dispatch;
    assert map[][entries[0].0 := entries[0].1] == map[entries[0].0 := entries[0].1];
  }

  lemma ServeSingle(version: nat, c: Request, a: Answer, ps: seq<Packet>, rest: Octets)
    requires Issued(version, c) && AnswerTo(c, a) && Carries(ps, c, a)
    requires a.AListing? ==> a.entries == []
    ensures Served(version, c, a, ps,
                   HandlerFed(version, c, ps[0].bytes, StreamBytes(ps)[1..] + rest), rest)
  {
    hide Feed, EncodeStatus, Dispatch, Coherent, Issued;
    if !a.AListing? {
      ServeOne(version, c, a, rest);
    }
    OneReply(ps);
    assert EventsOf(version, ps[1..]) == Some([]);
    var first := ps[0].bytes;
    assert StreamBytes(ps)[1..] + rest == first[1..] + rest;
    if a.AListing? {
      FeedStopped(version, Finish(Expected(c, a)), [], rest);
      assert first[1..] + rest == rest;
    }
  }

  /** However events are put between its packets, an answer finishes its request with the
      decoding of that answer, offers the events in order, and leaves what follows; or an
      undecodable event ends the reader. */
  lemma ServeAnswer(version: nat, c: Request, a: Answer, ps: seq<Packet>, rest: Octets)
    requires Issued(version, c) && AnswerTo(c, a) && Carries(ps, c, a)
    ensures Served(version, c, a, ps,
                   HandlerFed(version, c, ps[0].bytes, StreamBytes(ps)[1..] + rest), rest)
  {
    hide Feed, EncodeStatus, Dispatch, Coherent, ListingPackets;
    assert ps[0].bytes != [];
    if a.AListing? && a.entries != [] {
      ServeListing(version, a.entries, ps, rest);
    } else {
      ServeSingle(version, c, a, ps, rest);
    }
  }

  /** list_services returns the daemon's list for every stream of events in between,
      exactly when the list is not empty. */
  lemma ListingReturned(version: nat, entries: seq<Entry>, ps: seq<Packet>, rest: Octets)
    requires var c := ListServices(version >= 5); AnswerTo(c, AListing(entries)) && Carries(ps, c, AListing(entries))
    requires EventsOf(version, ps).Some?
    ensures
      var f := Feed(version, Handling(HList, ps[0].bytes), StreamBytes(ps)[1..] + rest);
      && f.reader.Stopped? && f.reader.rest == rest
      && f.events == EventsOf(version, ps).value
      && (f.reader.move == Finish(Result(OfListing(ListingMap(entries, map[])))) <==> entries != [])
  {
    ServeAnswer(version, ListServices(version >= 5), AListing(entries), ps, rest);
  }

  /** The packet that a daemon without services sends is taken for an unexpected reply. */
  lemma EmptyListingIsRejected(version: nat, rest: Octets)
    ensures HandlerFed(version, ListServices(version >= 5), [LISTDONE], rest)
            == Fed(Stopped(Finish(Raises(UnexpectedReply(63))), rest), [])
  {
    hide Feed;
    FeedStopped(version, Finish(Raises(UnexpectedReply(63))), [], rest);
    assert [] + rest == rest;
  }
}
