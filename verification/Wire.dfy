// The client's reader coroutine as a machine over its await points. A point is a
// call of _Reader.exactly that has not returned yet, with the local variables that
// are live across it; Feed runs the machine over bytes as they arrive.

module Wire {
  import opened Prelude
  import opened Bytes
  import opened Protocol

  datatype Error =
    | CommandRejected
    | BadRequest
    | OutOfMemory
    | ShuttingDown
    | Pinned
    | Dependents(handles: seq<U32>)
    | ServiceNotFound
    | ServiceLoadError
    | ServiceDescriptionError
    | SignalNotDelivered
    | UnexpectedReply(code: Byte)

  /** The _SIMPLE_ERRORS table. */
  function SimpleError(code: Byte): Option<Error> {
    if code == 51 then Some(CommandRejected)
    else if code == 52 then Some(BadRequest)
    else if code == 53 || code == 55 then Some(OutOfMemory)
    else if code == 69 then Some(ShuttingDown)
    else if code == 67 || code == 68 then Some(Pinned)
    else if code == 60 then Some(ServiceNotFound)
    else if code == 71 then Some(ServiceDescriptionError)
    else if code == 72 || code == 54 then Some(ServiceLoadError)
    else if 74 <= code <= 76 then Some(SignalNotDelivered)
    else None
  }

  type Listing = map<Octets, ServiceStatus>

  datatype Value =
    | Nothing
    | OfVersion(version: Version)
    | OfRecord(record: ServiceRecord)
    | OfListing(items: Listing)
    | OfStatus(status: ServiceStatus)
    | OfLog(data: Octets)
    | OfEnv(env: Environment)
    | OfLoader(loader: LoaderMech)

  /** How a request ends: with a result, an error of its own, or DinitConnectionClosed. */
  datatype Outcome = Result(value: Value) | Raises(error: Error) | Closed

  /** The reply handlers a request can leave in its _Pending. */
  datatype Handler =
    | HVersion
    | HRecord
    | HAck
    | HStop
    | HList
    | HStatus(size: nat)
    | HLog
    | HEnv
    | HLoader

  /** Who called _next_reply: the read loop, or the list handler with its items so far. */
  datatype Caller = ReadLoop | InList(items: Listing)

  datatype Point =
    | Header(caller: Caller)
    | InfoLength(kind: Byte, caller: Caller)
    | InfoPayload(kind: Byte, length: nat, caller: Caller)
    | VersionBody
    | RecordBody
    | NameLength(items: Listing)
    | EntryStatus(items: Listing, nameLength: Byte)
    | EntryName(items: Listing, nameLength: Byte, status: ServiceStatus)
    | Reserved(size: nat)
    | StatusBody(size: nat)
    | LogHead
    | LogData(length: nat)
    | EnvHead
    | EnvData(head: Octets, length: nat)
    | LoaderStart
    | LoaderData(head: Octets, wanted: int)
    | DependentCount
    | DependentHandle(left: nat, collected: seq<U32>)

  /** The argument of the `exactly` call; Python may compute a negative one. */
  function Want(version: nat, pt: Point): int {
    match pt
    case Header(_) => 1
    case InfoLength(_, _) => 1
    case InfoPayload(_, length, _) => length
    case VersionBody => 4
    case RecordBody => 6
    case NameLength(_) => 1
    case EntryStatus(_, _) => ListStatusSize(version)
    case EntryName(_, nameLength, _) => nameLength
    case Reserved(_) => 1
    case StatusBody(size) => size
    case LogHead => 5
    case LogData(length) => length
    case EnvHead => SIZE_T
    case EnvData(_, length) => length
    case LoaderStart => 5
    case LoaderData(_, wanted) => wanted
    case DependentCount => SIZE_T
    case DependentHandle(_, _) => 4
  }

  /** What happens between two await points: go on to the next one, hand a reply code to
      the read loop, finish the pending request, or let an exception end the reader. */
  datatype Move = Goto(next: Point) | Reply(code: Byte) | Finish(outcome: Outcome) | Raise

  /** _reject */
  function Reject(code: Byte): Move {
    if !DefinedReply(code) then Raise
    else
      match SimpleError(code)
      case Some(error) => Finish(Raises(error))
      case None => Finish(Raises(UnexpectedReply(code)))
  }

  function Acknowledge(code: Byte): Move {
    if code == ACK || code == ALREADYSS then Finish(Result(Nothing)) else Reject(code)
  }

  /** A handler from its call with a reply code up to its first await point. */
  function Begin(h: Handler, code: Byte): Move {
    match h
    case HVersion => if code == CPVERSION then Goto(VersionBody) else Finish(Raises(UnexpectedReply(code)))
    case HRecord => if code == SERVICERECORD then Goto(RecordBody) else Reject(code)
    case HAck => Acknowledge(code)
    case HStop => if code == DEPENDENTS then Goto(DependentCount) else Acknowledge(code)
    case HList => if code == SVCINFO then Goto(NameLength(map[])) else Reject(code)
    case HStatus(size) => if code == SERVICESTATUS then Goto(Reserved(size)) else Reject(code)
    case HLog => if code == SERVICE_LOG then Goto(LogHead) else Reject(code)
    case HEnv => if code == ALLENV then Goto(EnvHead) else Reject(code)
    case HLoader => if code == LOADER_MECH then Goto(LoaderStart) else Reject(code)
  }

  /** _next_reply returning `code` to its caller. */
  function Returned(caller: Caller, code: Byte): Move {
    match caller
    case ReadLoop => Reply(code)
    case InList(items) =>
      if code == LISTDONE then Finish(Result(OfListing(items)))
      else if code == SVCINFO then Goto(NameLength(items))
      else Reject(code)
  }

  /** _dispatch_info: the event to offer, if any. None is an exception. */
  function Dispatch(version: nat, kind: Byte, payload: Octets): Option<seq<Event>> {
    if kind == SERVICEEVENT5 then
      var event :- DecodeServiceEvent(payload, 5);
      Some([event])
    else if kind == SERVICEEVENT && version < 5 then
      var event :- DecodeServiceEvent(payload, 4);
      Some([event])
    else if kind == ENVEVENT then
      var event :- DecodeEnvEvent(payload);
      Some([event])
    else
      Some([])
  }

  function FinishWith(value: Option<Value>): Move {
    match value
    case None => Raise
    case Some(v) => Finish(Result(v))
  }

  /** The code between the point `pt`, whose call returned `bs`, and the next point. */
  function After(version: nat, pt: Point, bs: Octets): Move
    requires |bs| == if Want(version, pt) <= 0 then 0 else Want(version, pt)
  {
    Widths();
    match pt
    case Header(caller) => if bs[0] < 100 then Returned(caller, bs[0]) else Goto(InfoLength(bs[0], caller))
    case InfoLength(kind, caller) => if bs[0] < 2 then Raise else Goto(InfoPayload(kind, bs[0] - 2, caller))
    case InfoPayload(kind, _, caller) => if Dispatch(version, kind, bs).None? then Raise else Goto(Header(caller))
    case VersionBody => FinishWith(var v :- DecodeVersion(bs); Some(OfVersion(v)))
    case RecordBody => FinishWith(var r :- DecodeServiceRecord(bs); Some(OfRecord(r)))
    case NameLength(items) => Goto(EntryStatus(items, bs[0]))
    case EntryStatus(items, nameLength) =>
      (match DecodeStatus(bs, Min(version, 5))
       case None => Raise
       case Some(status) => Goto(EntryName(items, nameLength, status)))
    case EntryName(items, _, status) => Goto(Header(InList(items[bs := status])))
    case Reserved(size) => Goto(StatusBody(size))
    case StatusBody(_) => FinishWith(var st :- DecodeStatus(bs, version); Some(OfStatus(st)))
    case LogHead => Goto(LogData(UnsignedAt(bs, 1, 4).value))
    case LogData(_) => Finish(Result(OfLog(bs)))
    case EnvHead => Goto(EnvData(bs, UnsignedAt(bs, 0, SIZE_T).value))
    case EnvData(head, _) => FinishWith(var env :- EnvOf(head + bs); Some(OfEnv(env)))
    case LoaderStart => Goto(LoaderData(bs, UnsignedAt(bs, 1, 4).value - 6))
    case LoaderData(head, _) => FinishWith(var m :- LoaderOf([LOADER_MECH] + head + bs); Some(OfLoader(m)))
    case DependentCount => CollectDependents(UnsignedAt(bs, 0, SIZE_T).value, [])
    case DependentHandle(left, collected) => CollectDependents(left - 1, collected + [UnsignedAt(bs, 0, 4).value])
  }

  /** The head of the loop in _stop_handler. */
  function CollectDependents(left: int, collected: seq<U32>): Move {
    if left <= 0 then Finish(Raises(Dependents(collected))) else Goto(DependentHandle(left, collected))
  }

  /** The events that the code after `pt` offers to the event buffer. */
  function Offers(version: nat, pt: Point, bs: Octets): seq<Event> {
    match pt
    case InfoPayload(kind, _, _) =>
      (match Dispatch(version, kind, bs)
       case None => []
       case Some(events) => events)
    case _ => []
  }

  /** The reader waiting at a point with part of its bytes, or past its last point with
      the bytes it did not take. */
  datatype Reader = At(pt: Point, acc: Octets) | Stopped(move: Move, rest: Octets)

  /** `exactly` has been called and has not returned: it waits for at least one byte,
      or it wants none and returns at once. */
  predicate Ready(version: nat, r: Reader) {
    r.At? ==> |r.acc| < Want(version, r.pt) || (r.acc == [] && Want(version, r.pt) <= 0)
  }

  predicate Blocked(version: nat, r: Reader) { r.At? && |r.acc| < Want(version, r.pt) }

  function Enter(m: Move, rest: Octets): Reader {
    if m.Goto? then At(m.next, []) else Stopped(m, rest)
  }

  datatype Fed = Fed(reader: Reader, events: seq<Event>)

  /** Run the reader until it stops or `s` is used up; also the events offered on the way. */
  function Feed(version: nat, r: Reader, s: Octets): (f: Fed)
    requires Ready(version, r)
    ensures f.reader.At? ==> Blocked(version, f.reader)
    decreases |s|, if r.At? && Want(version, r.pt) <= 0 then 1 else 0
  {
    if r.Stopped? then
      Fed(r.(rest := r.rest + s), [])
    else if |r.acc| + |s| < Want(version, r.pt) then
      Fed(At(r.pt, r.acc + s), [])
    else
      var n := if Want(version, r.pt) <= 0 then 0 else Want(version, r.pt) - |r.acc|;
      var bs := r.acc + s[..n];
      var f := Feed(version, Enter(After(version, r.pt, bs), []), s[n..]);
      Fed(f.reader, Offers(version, r.pt, bs) + f.events)
  }

  /** A call that wants nothing is never followed by another one. */
  lemma OneEmptyCall(version: nat, pt: Point)
    requires Want(version, pt) <= 0
    ensures var m := After(version, pt, []); m.Goto? ==> Want(version, m.next) > 0
  {
  }

  /** The call in progress gets `s`, which is not enough, and then `t`. */
  lemma FeedShort(version: nat, r: Reader, s: Octets, t: Octets)
    requires Ready(version, r) && r.At? && |r.acc| + |s| < Want(version, r.pt)
    ensures Feed(version, r, s + t) == Feed(version, At(r.pt, r.acc + s), t)
  {
    hide After, Offers, Want;
    assert r.acc + (s + t) == (r.acc + s) + t;
    var n := Want(version, r.pt) - |r.acc|;
    if n <= |s + t| {
      assert r.acc + (s + t)[..n] == (r.acc + s) + t[..n - |s|];
      assert (s + t)[n..] == t[n - |s|..];
    }
  }

  /** The call in progress gets all it wants from the front of `s`. */
  lemma FeedStep(version: nat, r: Reader, s: Octets)
    requires Ready(version, r) && r.At? && |r.acc| + |s| >= Want(version, r.pt)
    ensures
      var n := if Want(version, r.pt) <= 0 then 0 else Want(version, r.pt) - |r.acc|;
      var bs := r.acc + s[..n];
      var f := Feed(version, Enter(After(version, r.pt, bs), []), s[n..]);
      Feed(version, r, s) == Fed(f.reader, Offers(version, r.pt, bs) + f.events)
  {
    hide After, Offers, Want;
  }

  /** Feeding bytes in two portions is feeding them at once. */
  lemma {:induction false} FeedCompose(version: nat, r: Reader, s: Octets, t: Octets)
    requires Ready(version, r)
    ensures
      var first := Feed(version, r, s);
      var second := Feed(version, first.reader, t);
      Feed(version, r, s + t) == Fed(second.reader, first.events + second.events)
    decreases |s|, if r.At? && Want(version, r.pt) <= 0 then 1 else 0
  {
    hide After, Offers, Want, Feed;
    if r.Stopped? {
      StoppedCompose(version, r, s, t);
    } else if |r.acc| + |s| < Want(version, r.pt) {
      FeedShort(version, r, s, t);
      FeedIsShort(version, r, s);
      var second := Feed(version, At(r.pt, r.acc + s), t);
      assert [] + second.events == second.events;
    } else {
      var n := if Want(version, r.pt) <= 0 then 0 else Want(version, r.pt) - |r.acc|;
      assert (s + t)[..n] == s[..n] && (s + t)[n..] == s[n..] + t;
      var bs := r.acc + s[..n];
      FeedStep(version, r, s);
      FeedStep(version, r, s + t);
      if n == 0 {
        OneEmptyCall(version, r.pt);
        assert bs == [];
      }
      var next := Enter(After(version, r.pt, bs), []);
      FeedCompose(version, next, s[n..], t);
      var one := Feed(version, next, s[n..]);
      var two := Feed(version, one.reader, t);
      assert Offers(version, r.pt, bs) + (one.events + two.events)
             == (Offers(version, r.pt, bs) + one.events) + two.events;
    }
  }

  lemma StoppedCompose(version: nat, r: Reader, s: Octets, t: Octets)
    requires r.Stopped?
    ensures
      var first := Feed(version, r, s);
      var second := Feed(version, first.reader, t);
      Feed(version, r, s + t) == Fed(second.reader, first.events + second.events)
  {
    assert r.rest + (s + t) == (r.rest + s) + t;
  }

  lemma FeedIsShort(version: nat, r: Reader, s: Octets)
    requires Ready(version, r) && r.At? && |r.acc| + |s| < Want(version, r.pt)
    ensures Feed(version, r, s) == Fed(At(r.pt, r.acc + s), [])
  {
    hide After, Offers, Want;
  }

  /** A whole run over chunks as the transport cuts them. */
  function FeedChunks(version: nat, r: Reader, chunks: seq<Octets>): Fed
    requires Ready(version, r)
    decreases |chunks|
  {
    if chunks == [] then Feed(version, r, [])
    else
      var first := Feed(version, r, chunks[0]);
      var others := FeedChunks(version, first.reader, chunks[1..]);
      Fed(others.reader, first.events + others.events)
  }

  /** However the stream is cut, results, offered events and the next point are the same. */
  lemma {:induction false} ChunkIndependence(version: nat, r: Reader, chunks: seq<Octets>)
    requires Ready(version, r)
    ensures FeedChunks(version, r, chunks) == Feed(version, r, Flatten(chunks))
    decreases |chunks|
  {
    hide Feed;
    if chunks != [] {
      FeedCompose(version, r, chunks[0], Flatten(chunks[1..]));
      FedIsReady(version, r, chunks[0]);
      ChunkIndependence(version, Feed(version, r, chunks[0]).reader, chunks[1..]);
    }
  }

  lemma FedIsReady(version: nat, r: Reader, s: Octets)
    requires Ready(version, r)
    ensures Ready(version, Feed(version, r, s).reader)
  {
  }

  /** A chunk no larger than what the current call still wants is taken whole: the
      reader never holds a byte beyond the packet it is reading. */
  lemma NothingBeyond(version: nat, r: Reader, chunk: Octets)
    requires Blocked(version, r)
    requires |chunk| <= Want(version, r.pt) - |r.acc|
    ensures
      var f := Feed(version, r, chunk);
      f.reader.Stopped? ==> f.reader.rest == []
  {
    if |r.acc| + |chunk| == Want(version, r.pt) {
      assert chunk[|chunk|..] == [];
      SettleTakesNothing(version, Enter(After(version, r.pt, r.acc + chunk[..|chunk|]), []));
    }
  }

  lemma SettleTakesNothing(version: nat, r: Reader)
    requires Ready(version, r)
    requires r.Stopped? ==> r.rest == []
    ensures
      var f := Feed(version, r, []);
      f.reader.Stopped? ==> f.reader.rest == []
  {
    if r.At? && Want(version, r.pt) <= 0 {
      OneEmptyCall(version, r.pt);
      var next := Enter(After(version, r.pt, []), []);
      assert Feed(version, next, []).reader == next;
    }
  }
}
