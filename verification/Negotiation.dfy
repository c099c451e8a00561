// The run in which a connection comes to be: the version query is sent, answered and
// returned. It shows that the runs the other results speak of are there.

module Negotiation {
  import opened Prelude
  import opened Bytes
  import opened Protocol
  import opened Requests
  import opened Wire
  import opened Answers
  import opened Session

  /** A requester sends the query; the daemon answers; the transport delivers the reply code and
      then the rest; the requester resumes. */
  function Actions(v: Version): (a: seq<Action>)
    ensures |a| == 9
  {
    [Ask(0, QueryVersion), Acquire(0), Push(0, 1), SendReturns(0),
     TakeRequest(AVersion(v)), EmitReply, Receive(1), Receive(4), Resume(0)]
  }

  function Reply(v: Version): Octets { [CPVERSION] + EncodeVersion(v) }

  function Asked(minVersion: nat, task: Task): State {
    Init(1, minVersion).(
      tasks := [task], phase := Negotiating, lock := Some(0), pending := Some(0),
      pendings := [Pending(QueryVersion, HVersion, None)])
  }

  function Taken(minVersion: nat, v: Version): State {
    Asked(minVersion, Waiting(0)).(requests := [QueryVersion], answers := [AVersion(v)])
  }

  function Emitted(minVersion: nat, v: Version): State {
    Taken(minVersion, v).(emitted := [ReplyPacket(Reply(v))])
  }

  function Delivered(minVersion: nat, v: Version): State {
    Emitted(minVersion, v).(pendings := [Pending(QueryVersion, HVersion, Some(Result(OfVersion(v))))])
  }

  /** The versions of client and daemon overlap. */
  predicate Overlap(minVersion: nat, v: Version) { v.minCompat <= MAX_PROTOCOL && minVersion <= v.protocol }

  function Negotiated(minVersion: nat, v: Version): State {
    Delivered(minVersion, v).(
      tasks := [Idle], lock := None, pending := None, returned := map[0 := Result(OfVersion(v))],
      phase := if Overlap(minVersion, v) then Open else Negotiating,
      version := if Overlap(minVersion, v) then v.protocol else 1)
  }

  function Stage(i: nat, minVersion: nat, v: Version): State
    requires i <= 9
  {
    match i
    case 0 => Init(1, minVersion)
    case 1 => Init(1, minVersion).(tasks := [AwaitLock(QueryVersion)], phase := Negotiating)
    case 2 => Asked(minVersion, Sending(0, 0))
    case 3 => Asked(minVersion, Sending(0, 1)).(toDaemon := [0])
    case 4 => Asked(minVersion, Waiting(0)).(toDaemon := [0])
    case 5 => Taken(minVersion, v).(left := [Reply(v)])
    case 6 => Emitted(minVersion, v).(fromDaemon := Reply(v))
    case 7 => Emitted(minVersion, v).(fromDaemon := EncodeVersion(v), reader := At(VersionBody, []), bound := Some(0))
    case 8 => Delivered(minVersion, v)
    case _ => Negotiated(minVersion, v)
  }

  ghost predicate Step(minVersion: nat, v: Version, i: nat)
    requires i < 9
  {
    && Enabled(Stage(i, minVersion, v), Actions(v)[i])
    && Do(Stage(i, minVersion, v), Actions(v)[i]) == Stage(i + 1, minVersion, v)
  }

  lemma QueryIsSent(minVersion: nat, v: Version)
    ensures Step(minVersion, v, 0) && Step(minVersion, v, 1)
  {
    hide EncodeVersion;
    assert Init(1, minVersion).tasks == [Idle];
  }

  lemma QueryIsPushed(minVersion: nat, v: Version)
    ensures Step(minVersion, v, 2) && Step(minVersion, v, 3)
  {
    hide EncodeVersion;
    assert [0][0..1] == [0] && [] + [0] == [0];
  }

  lemma QueryIsTaken(minVersion: nat, v: Version)
    ensures Step(minVersion, v, 4)
  {
    hide EncodeVersion;
    assert [0][1..] == [] && Parse([0]) == Some((QueryVersion, []));
  }

  lemma AnswerIsSent(minVersion: nat, v: Version)
    ensures Step(minVersion, v, 5)
  {
    hide EncodeVersion, Parse;
    assert [Reply(v)][1..] == [] && [] + Reply(v) == Reply(v);
  }

  lemma CodeIsRead(minVersion: nat, v: Version)
    ensures Step(minVersion, v, 6)
  {
    hide EncodeVersion, Feed, DoReceive, InHandler, InReadLoop;
    var s := Stage(6, minVersion, v);
    CodeIsFed(v);
    ReceiveIs(s, 1);
    CodeStartsHandler(minVersion, v);
    assert Offer([], []) == [];
    assert Received(s, 1) == Emitted(minVersion, v).(fromDaemon := EncodeVersion(v));
  }

  lemma CodeIsFed(v: Version)
    ensures Feed(1, TOP, Reply(v)[..1]) == Fed(Stopped(Wire.Reply(CPVERSION), []), [])
    ensures Reply(v)[1..] == EncodeVersion(v)
  {
    hide EncodeVersion, Feed;
    assert Reply(v)[..1] == [CPVERSION] + [];
    Take(1, Header(ReadLoop), [CPVERSION], []);
    FeedStopped(1, Wire.Reply(CPVERSION), [], []);
  }

  lemma CodeStartsHandler(minVersion: nat, v: Version)
    ensures
      InReadLoop(Emitted(minVersion, v).(fromDaemon := EncodeVersion(v)), Stopped(Wire.Reply(CPVERSION), []))
      == Stage(7, minVersion, v)
  {
    hide EncodeVersion;
  }

  lemma FourBytes(v: Version)
    ensures |EncodeVersion(v)| == 4
  {
  }

  lemma BodyIsRead(minVersion: nat, v: Version)
    ensures Step(minVersion, v, 7)
  {
    hide EncodeVersion, DecodeVersion, Feed;
    VersionRoundTrip(v);
    FourBytes(v);
    var bytes := EncodeVersion(v);
    assert bytes[..4] == bytes == bytes + [] && bytes[4..] == [];
    Take(1, VersionBody, bytes, []);
    FeedStopped(1, Finish(Result(OfVersion(v))), [], []);
    assert Offer([], []) == [];
  }

  lemma AnswerIsReturned(minVersion: nat, v: Version)
    ensures Step(minVersion, v, 8)
  {
    hide EncodeVersion;
  }

  lemma {:induction false} StagesRun(minVersion: nat, v: Version, i: nat)
    requires i <= 9 && forall j | i <= j < 9 :: Step(minVersion, v, j)
    ensures Run(Stage(i, minVersion, v), Actions(v)[i..]) == Some(Negotiated(minVersion, v))
    decreases 9 - i
  {
    hide Do, Enabled;
    if i < 9 {
      assert Step(minVersion, v, i);
      assert Actions(v)[i..][0] == Actions(v)[i] && Actions(v)[i..][1..] == Actions(v)[i + 1..];
      StagesRun(minVersion, v, i + 1);
    }
  }

  /** For every version a daemon may answer with there is a run in which the client learns it,
      and the connection is open at that version exactly when the two sides overlap. */
  lemma NegotiationRuns(minVersion: nat, v: Version)
    ensures Run(Init(1, minVersion), Actions(v)).Some?
    ensures
      var s := Run(Init(1, minVersion), Actions(v)).value;
      && !s.closed && s.returned == map[0 := Result(OfVersion(v))]
      && (s.phase.Open? <==> Overlap(minVersion, v))
      && (s.phase.Open? ==> s.version == v.protocol)
  {
    hide Do, Enabled, Step, Run;
    QueryIsSent(minVersion, v);
    QueryIsPushed(minVersion, v);
    QueryIsTaken(minVersion, v);
    AnswerIsSent(minVersion, v);
    CodeIsRead(minVersion, v);
    BodyIsRead(minVersion, v);
    AnswerIsReturned(minVersion, v);
    StagesRun(minVersion, v, 0);
    assert Actions(v)[0..] == Actions(v);
  }
}
