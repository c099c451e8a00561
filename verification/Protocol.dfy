// Values of the control protocol and the decoders of protocol.py. Text is kept as
// the bytes on the wire. None stands for any exception a decoder can raise.

module Protocol {
  import opened Prelude
  import opened Bytes

  type Octets = seq<Byte>

  const MAX_PROTOCOL := 7
  const SIZE_T := 8

  // dinit's reply codes
  const ACK: Byte := 50
  const CPVERSION: Byte := 58
  const SERVICERECORD: Byte := 59
  const ALREADYSS: Byte := 61
  const SVCINFO: Byte := 62
  const LISTDONE: Byte := 63
  const LOADER_MECH: Byte := 64
  const DEPENDENTS: Byte := 65
  const SERVICENAME: Byte := 66
  const SERVICESTATUS: Byte := 70
  const SERVICE_LOG: Byte := 73
  const SVCDSCDIR: Byte := 77
  const ALLENV: Byte := 78
  const PREACK: Byte := 79

  /** Whether `p.Reply(code)` finds a member rather than raising ValueError. */
  predicate DefinedReply(code: Byte) { 50 <= code <= 79 && code != 56 && code != 57 }

  // Information packets have codes of 100 and above.
  const SERVICEEVENT: Byte := 100
  const SERVICEEVENT5: Byte := 101
  const ENVEVENT: Byte := 102

  type ServiceState = n: int | 0 <= n <= 3
  type StoppedReason = n: int | 0 <= n <= 6
  type ServiceEvent = n: int | 0 <= n <= 4
  type LoaderType = n: int | 0 <= n <= 1

  const EXECFAILED: StoppedReason := 4

  predicate HasPid(flags: Byte) { flags / 0x10 % 2 == 1 }

  datatype Version = Version(minCompat: U16, protocol: U16)

  datatype ServiceRecord = ServiceRecord(state: ServiceState, handle: U32, target: ServiceState)

  datatype ServiceStatus = ServiceStatus(
    state: ServiceState,
    target: ServiceState,
    flags: Byte,
    reason: StoppedReason,
    pid: Option<I32>,
    siCode: Option<I32>,
    siStatus: Option<I32>,
    exitStatus: Option<I32>,
    execStage: Option<U16>,
    execErrno: Option<I32>,
    modTime: Option<(I64, I64)>)

  datatype LoaderMech = LoaderMech(loader: LoaderType, cwd: Octets, dirs: seq<Octets>)

  datatype Event =
    | ServiceChange(handle: U32, event: ServiceEvent, status: ServiceStatus)
    | EnvChange(name: Octets, overridden: bool)

  // ---- Fixed-size replies ----

  function DecodeVersion(buf: Octets): Option<Version> {
    var minCompat :- UnsignedAt(buf, 0, 2);
    var protocol :- UnsignedAt(buf, 2, 2);
    Widths();
    Some(Version(minCompat, protocol))
  }

  function EncodeVersion(v: Version): Octets {
    Le(v.minCompat, 2) + Le(v.protocol, 2)
  }

  lemma VersionRoundTrip(v: Version)
    ensures DecodeVersion(EncodeVersion(v)) == Some(v)
  {
    Widths();
    UnsignedAtOfLe([], v.minCompat, 2, Le(v.protocol, 2));
    UnsignedAtOfLe(Le(v.minCompat, 2), v.protocol, 2, []);
    assert [] + Le(v.minCompat, 2) + Le(v.protocol, 2) == EncodeVersion(v) == EncodeVersion(v) + [];
  }

  function DecodeServiceRecord(buf: Octets): Option<ServiceRecord> {
    var handle :- UnsignedAt(buf, 1, 4);
    Widths();
    if 6 <= |buf| && buf[0] <= 3 && buf[5] <= 3 then
      Some(ServiceRecord(buf[0], handle, buf[5]))
    else
      None
  }

  function EncodeServiceRecord(r: ServiceRecord): Octets {
    [r.state] + Le(r.handle, 4) + [r.target]
  }

  lemma ServiceRecordRoundTrip(r: ServiceRecord)
    ensures |EncodeServiceRecord(r)| == 6 && DecodeServiceRecord(EncodeServiceRecord(r)) == Some(r)
  {
    Widths();
    UnsignedAtOfLe([r.state], r.handle, 4, [r.target]);
  }

  // ---- Service status ----

  const STATUS_SIZE := 10
  const STATUS5_SIZE := 14
  const STATUS6_SIZE := 30

  /** What the client reads for one status reply. */
  function StatusSize(version: nat): nat {
    if version >= 6 then STATUS6_SIZE else if version >= 5 then STATUS5_SIZE else STATUS_SIZE
  }

  /** What the client reads for the status part of one listing entry. */
  function ListStatusSize(version: nat): nat {
    if version >= 5 then STATUS5_SIZE else STATUS_SIZE
  }

  function Min(a: nat, b: nat): nat { if a < b then a else b }

  function DecodeStatus(buf: Octets, version: nat): Option<ServiceStatus> {
    Widths();
    if |buf| < 4 || buf[0] > 3 || buf[1] > 3 || buf[3] > 6 then
      None
    else
      var blank := ServiceStatus(buf[0], buf[1], buf[2], buf[3], None, None, None, None, None, None, None);
      var st :-
        if buf[3] == EXECFAILED then
          var stage :- UnsignedAt(buf, 4, 2);
          var errno :- SignedAt(buf, 6, 4);
          Some(blank.(execStage := Some(stage), execErrno := Some(errno)))
        else if HasPid(buf[2]) then
          var pid :- SignedAt(buf, 6, 4);
          Some(blank.(pid := Some(pid)))
        else if version >= 5 then
          var code :- SignedAt(buf, 6, 4);
          var status :- SignedAt(buf, 10, 4);
          Some(blank.(siCode := Some(code), siStatus := Some(status)))
        else
          var status :- SignedAt(buf, 6, 4);
          Some(blank.(exitStatus := Some(status)));
      if version >= 6 then
        var seconds :- SignedAt(buf, STATUS5_SIZE, 8);
        var nanoseconds :- SignedAt(buf, STATUS5_SIZE + 8, 8);
        Some(st.(modTime := Some((seconds, nanoseconds))))
      else
        Some(st)
  }

  /** Exactly the fields that a status of this protocol version carries. */
  predicate Coherent(st: ServiceStatus, version: nat) {
    var exec := st.reason == EXECFAILED;
    var pid := !exec && HasPid(st.flags);
    && st.execStage.Some? == st.execErrno.Some? == exec
    && st.pid.Some? == pid
    && st.siCode.Some? == st.siStatus.Some? == (!exec && !pid && version >= 5)
    && st.exitStatus.Some? == (!exec && !pid && version < 5)
    && st.modTime.Some? == (version >= 6)
  }

  /** How many of the four causes (exec failure, pid, signal pair, exit status) a status reports. */
  function Causes(st: ServiceStatus): nat {
    (if st.execStage.Some? || st.execErrno.Some? then 1 else 0) +
    (if st.pid.Some? then 1 else 0) +
    (if st.siCode.Some? || st.siStatus.Some? then 1 else 0) +
    (if st.exitStatus.Some? then 1 else 0)
  }

  lemma DecodedStatusIsCoherent(buf: Octets, version: nat)
    requires DecodeStatus(buf, version).Some?
    ensures Coherent(DecodeStatus(buf, version).value, version)
    ensures Causes(DecodeStatus(buf, version).value) == 1
  {
    hide UnsignedAt, SignedAt, HasPid, Pow256;
  }

  /** The flag byte as the daemon puts it together, with three bits that have no meaning. */
  function FlagByte(waitsForConsole: bool, hasConsole: bool, startSkipped: bool, markedActive: bool, hasPid: bool,
                    others: nat): Byte
    requires others < 8
  {
    (if waitsForConsole then 1 else 0) + (if hasConsole then 2 else 0) + (if startSkipped then 4 else 0)
    + (if markedActive then 8 else 0) + (if hasPid then 16 else 0) + 32 * others
  }

  /** Which cause a status reports, by the bits of its flag byte, its stop reason and the version,
      and at which place it is read: a failed exec is stop reason 4, and a pid needs the fifth bit. */
  lemma StatusMeans(buf: Octets, version: nat, waitsForConsole: bool, hasConsole: bool, startSkipped: bool,
                    markedActive: bool, hasPid: bool, others: nat)
    requires DecodeStatus(buf, version).Some? && others < 8
    requires
      |buf| >= 4 ==>
        buf[2] == FlagByte(waitsForConsole, hasConsole, startSkipped, markedActive, hasPid, others)
    ensures
      var st := DecodeStatus(buf, version).value;
      && |buf| >= 4 && buf[0] <= 3 && buf[1] <= 3 && buf[3] <= 6
      && st.state == buf[0] && st.target == buf[1] && st.flags == buf[2] && st.reason == buf[3]
      && st.execStage == (if buf[3] == 4 then UnsignedAt(buf, 4, 2) else None)
      && st.execErrno == (if buf[3] == 4 then SignedAt(buf, 6, 4) else None)
      && st.pid == (if buf[3] != 4 && hasPid then SignedAt(buf, 6, 4) else None)
      && st.siCode == (if buf[3] != 4 && !hasPid && version >= 5 then SignedAt(buf, 6, 4) else None)
      && st.siStatus == (if buf[3] != 4 && !hasPid && version >= 5 then SignedAt(buf, 10, 4) else None)
      && st.exitStatus == (if buf[3] != 4 && !hasPid && version < 5 then SignedAt(buf, 6, 4) else None)
      && (if version < 6 then st.modTime.None?
          else
            && st.modTime.Some?
            && SignedAt(buf, 14, 8) == Some(st.modTime.value.0) && SignedAt(buf, 22, 8) == Some(st.modTime.value.1))
  {
    PidBit(waitsForConsole, hasConsole, startSkipped, markedActive, hasPid, others);
    hide UnsignedAt, SignedAt, HasPid, FlagByte, Pow256;
  }

  lemma PidBit(waitsForConsole: bool, hasConsole: bool, startSkipped: bool, markedActive: bool, hasPid: bool,
               others: nat)
    requires others < 8
    ensures HasPid(FlagByte(waitsForConsole, hasConsole, startSkipped, markedActive, hasPid, others)) <==> hasPid
  {
    var low := FlagByte(waitsForConsole, hasConsole, startSkipped, markedActive, false, 0);
    var high := (if hasPid then 1 else 0) + 2 * others;
    assert FlagByte(waitsForConsole, hasConsole, startSkipped, markedActive, hasPid, others) == low + 16 * high;
    assert (low + 16 * high) / 16 == high;
  }

  /** Every byte is such a flag byte. */
  lemma FlagByteOf(b: Byte)
    returns (waitsForConsole: bool, hasConsole: bool, startSkipped: bool, markedActive: bool, hasPid: bool, others: nat)
    ensures others < 8 && b == FlagByte(waitsForConsole, hasConsole, startSkipped, markedActive, hasPid, others)
  {
    var b1 := b / 2;
    var b2 := b1 / 2;
    var b3 := b2 / 2;
    var b4 := b3 / 2;
    others, hasPid := b4 / 2, b4 % 2 == 1;
    markedActive, startSkipped, hasConsole, waitsForConsole := b3 % 2 == 1, b2 % 2 == 1, b1 % 2 == 1, b % 2 == 1;
  }

  /** At the size the client reads, decoding fails on an undefined enum value and on
      nothing else; no byte past that size is looked at. */
  lemma StatusSizeCoversDecoder(buf: Octets, tail: Octets, version: nat)
    requires |buf| == StatusSize(version)
    ensures DecodeStatus(buf, version).Some? <==> buf[0] <= 3 && buf[1] <= 3 && buf[3] <= 6
    ensures DecodeStatus(buf + tail, version) == DecodeStatus(buf, version)
  {
    TailUnread(buf, tail, 4, 2);
    TailUnread(buf, tail, 6, 4);
    if version >= 5 {
      TailUnread(buf, tail, 10, 4);
    }
    if version >= 6 {
      TailUnread(buf, tail, 14, 8);
      TailUnread(buf, tail, 22, 8);
    }
  }

  lemma TailUnread(buf: Octets, tail: Octets, at: nat, k: nat)
    requires at + k <= |buf|
    ensures UnsignedAt(buf + tail, at, k) == UnsignedAt(buf, at, k)
    ensures SignedAt(buf + tail, at, k) == SignedAt(buf, at, k)
  {
    assert (buf + tail)[at..at + k] == buf[at..at + k];
  }

  lemma ListStatusSizeIsStatusSize(version: nat)
    ensures ListStatusSize(version) == StatusSize(Min(version, 5))
  {
  }

  /** The bytes that carry no meaning: a short before the cause, an int after it. */
  datatype Padding = Padding(short: U16, word: I32)

  function Or<T>(v: Option<T>, pad: T): T { if v.Some? then v.value else pad }

  /** The first four bytes, then a short and one or two ints, then the timestamp. */
  function StatusBytes(st: ServiceStatus, short: U16, first: I32, second: I32, version: nat): Octets {
    Widths();
    [st.state, st.target, st.flags, st.reason] + Le(short, 2) + LeSigned(first, 4)
    + (if version >= 5 then LeSigned(second, 4) else [])
    + (if version >= 6 then LeSigned(Or(st.modTime, (0, 0)).0, 8) + LeSigned(Or(st.modTime, (0, 0)).1, 8) else [])
  }

  /** The daemon's status buffer for this protocol version. */
  function EncodeStatus(st: ServiceStatus, version: nat, pad: Padding): Octets {
    var first :=
      if st.execErrno.Some? then st.execErrno.value
      else if st.pid.Some? then st.pid.value
      else if st.siCode.Some? then st.siCode.value
      else Or(st.exitStatus, 0);
    StatusBytes(st, Or(st.execStage, pad.short), first, Or(st.siStatus, pad.word), version)
  }

  lemma StatusCause(st: ServiceStatus, short: U16, first: I32, second: I32, version: nat)
    ensures
      var buf := StatusBytes(st, short, first, second, version);
      && |buf| == StatusSize(version)
      && buf[..4] == [st.state, st.target, st.flags, st.reason]
      && UnsignedAt(buf, 4, 2) == Some(short)
      && SignedAt(buf, 6, 4) == Some(first)
  {
    Widths();
    hide Le, LeSigned, UnsignedAt, SignedAt, Pow256;
    var buf := StatusBytes(st, short, first, second, version);
    var head := [st.state, st.target, st.flags, st.reason];
    var a, b := Le(short, 2), LeSigned(first, 4);
    var rest := buf[10..];
    assert buf == head + a + (b + rest);
    UnsignedAtOfLe(head, short, 2, b + rest);
    assert buf == (head + a) + b + rest;
    SignedAtOfLe(head + a, first, 4, rest);
  }

  lemma StatusSecond(st: ServiceStatus, short: U16, first: I32, second: I32, version: nat)
    requires version >= 5
    ensures SignedAt(StatusBytes(st, short, first, second, version), 10, 4) == Some(second)
  {
    Widths();
    var buf := StatusBytes(st, short, first, second, version);
    assert buf == buf[..10] + LeSigned(second, 4) + buf[14..];
    SignedAtOfLe(buf[..10], second, 4, buf[14..]);
  }

  lemma StatusTime(st: ServiceStatus, short: U16, first: I32, second: I32, version: nat)
    requires version >= 6 && st.modTime.Some?
    ensures
      var buf := StatusBytes(st, short, first, second, version);
      && SignedAt(buf, 14, 8) == Some(st.modTime.value.0)
      && SignedAt(buf, 22, 8) == Some(st.modTime.value.1)
  {
    Widths();
    var buf := StatusBytes(st, short, first, second, version);
    var (seconds, nanoseconds) := st.modTime.value;
    var core, a, b := StatusBytes(st, short, first, second, 5), LeSigned(seconds, 8), LeSigned(nanoseconds, 8);
    assert buf == core + a + b;
    SignedAtOfLe(core, seconds, 8, b);
    assert buf == (core + a) + b + [];
    SignedAtOfLe(core + a, nanoseconds, 8, []);
  }

  lemma StatusRoundTrip(st: ServiceStatus, version: nat, pad: Padding)
    requires Coherent(st, version)
    ensures |EncodeStatus(st, version, pad)| == StatusSize(version)
    ensures DecodeStatus(EncodeStatus(st, version, pad), version) == Some(st)
  {
    var first :=
      if st.execErrno.Some? then st.execErrno.value
      else if st.pid.Some? then st.pid.value
      else if st.siCode.Some? then st.siCode.value
      else Or(st.exitStatus, 0);
    var short, second := Or(st.execStage, pad.short), Or(st.siStatus, pad.word);
    var buf := EncodeStatus(st, version, pad);
    StatusCause(st, short, first, second, version);
    assert buf[0] == buf[..4][0] && buf[1] == buf[..4][1] && buf[2] == buf[..4][2] && buf[3] == buf[..4][3];
    if version >= 5 {
      StatusSecond(st, short, first, second, version);
    }
    if version >= 6 {
      StatusTime(st, short, first, second, version);
    }
  }

  // ---- Information packets ----

  /** bytes.rstrip(b"\0") */
  function StripNuls(s: Octets): Octets {
    if s != [] && s[|s| - 1] == 0 then StripNuls(s[..|s| - 1]) else s
  }

  function DecodeServiceEvent(payload: Octets, version: nat): Option<Event> {
    var handle :- UnsignedAt(payload, 0, 4);
    Widths();
    if |payload| < 5 || payload[4] > 4 then
      None
    else
      var status :- DecodeStatus(payload[5..], version);
      Some(ServiceChange(handle, payload[4], status))
  }

  function DecodeEnvEvent(payload: Octets): Option<Event> {
    var length :- UnsignedAt(payload, 1, 2);
    Some(EnvChange(StripNuls(Slice(payload, 3, 3 + length)), payload[0] != 0))
  }

  function EncodeServiceEvent(e: Event, version: nat, pad: Padding): Octets
    requires e.ServiceChange?
  {
    Le(e.handle, 4) + [e.event] + EncodeStatus(e.status, version, pad)
  }

  lemma ServiceEventRoundTrip(e: Event, version: nat, pad: Padding)
    requires e.ServiceChange? && Coherent(e.status, version)
    ensures |EncodeServiceEvent(e, version, pad)| == 5 + StatusSize(version)
    ensures DecodeServiceEvent(EncodeServiceEvent(e, version, pad), version) == Some(e)
  {
    Widths();
    StatusRoundTrip(e.status, version, pad);
    hide EncodeStatus, DecodeStatus, Coherent, Le, UnsignedAt;
    var status, handle := EncodeStatus(e.status, version, pad), Le(e.handle, 4);
    UnsignedAtOfLe([], e.handle, 4, [e.event] + status);
    assert [] + handle + ([e.event] + status) == handle + [e.event] + status;
    assert (handle + [e.event] + status)[5..] == status;
  }

  function Zeros(n: nat): Octets { if n == 0 then [] else Zeros(n - 1) + [0] }

  /** The payload for a change of the variable `name`, padded with NULs. */
  function EncodeEnvEvent(name: Octets, overridden: Byte, nuls: nat): Octets {
    [overridden] + Le(|name| + nuls, 2) + (name + Zeros(nuls))
  }

  lemma OneNul(s: Octets)
    ensures StripNuls(s + [0]) == StripNuls(s)
  {
    assert (s + [0])[..|s|] == s;
  }

  lemma NoNul(s: Octets)
    requires s != [] ==> s[|s| - 1] != 0
    ensures StripNuls(s) == s
  {
  }

  lemma {:induction false} NulsAreStripped(name: Octets, nuls: nat)
    requires name != [] ==> name[|name| - 1] != 0
    ensures |Zeros(nuls)| == nuls && StripNuls(name + Zeros(nuls)) == name
  {
    hide StripNuls;
    if nuls == 0 {
      NoNul(name);
      assert name + [] == name;
    } else {
      OneNul(name + Zeros(nuls - 1));
      NulsAreStripped(name, nuls - 1);
      assert name + Zeros(nuls) == (name + Zeros(nuls - 1)) + [0];
    }
  }

  lemma TextBehind(first: Byte, length: Octets, text: Octets)
    ensures [first] + length + text != [] && ([first] + length + text)[0] == first
    ensures Slice([first] + length + text, 1 + |length|, 1 + |length| + |text|) == text
  {
  }

  /** The name comes back without the NULs behind it, and any flag but zero says overridden. */
  lemma EnvEventRoundTrip(name: Octets, overridden: Byte, nuls: nat)
    requires name != [] ==> name[|name| - 1] != 0
    requires |name| + nuls < 0x1_0000
    ensures DecodeEnvEvent(EncodeEnvEvent(name, overridden, nuls)) == Some(EnvChange(name, overridden != 0))
  {
    Widths();
    NulsAreStripped(name, nuls);
    var text, payload := name + Zeros(nuls), EncodeEnvEvent(name, overridden, nuls);
    UnsignedAtOfLe([overridden], |text|, 2, text);
    TextBehind(overridden, Le(|text|, 2), text);
    hide Le, UnsignedAt, StripNuls, Zeros;
  }

  // ---- Loader description ----

  /** The `dirs` loop from byte `pos` on, and where it ends. */
  function LoaderDirs(packet: Octets, pos: nat, count: nat): Option<seq<Octets>>
    decreases count
  {
    if count == 0 then
      Some([])
    else
      var length :- UnsignedAt(packet, pos, 4);
      var rest :- LoaderDirs(packet, pos + 4 + length, count - 1);
      Some([Slice(packet, pos + 4, pos + 4 + length)] + rest)
  }

  function LoaderOf(packet: Octets): Option<LoaderMech> {
    var count :- UnsignedAt(packet, 6, 4);
    var cwdLength :- UnsignedAt(packet, 10, 4);
    var dirs :- LoaderDirs(packet, 14 + cwdLength, count);
    if packet[1] <= 1 then
      Some(LoaderMech(packet[1], Slice(packet, 14, 14 + cwdLength), dirs))
    else
      None
  }

  function DirBytes(dirs: seq<Octets>): Octets {
    if dirs == [] then [] else Le(|dirs[0]|, 4) + dirs[0] + DirBytes(dirs[1..])
  }

  /** Everything after the packet's size field. */
  function LoaderBody(m: LoaderMech): Octets {
    Le(|m.dirs|, 4) + Le(|m.cwd|, 4) + m.cwd + DirBytes(m.dirs)
  }

  predicate LoaderFits(m: LoaderMech) {
    && 6 + |LoaderBody(m)| < 0x1_0000_0000
    && |m.dirs| < 0x1_0000_0000
  }

  function EncodeLoader(m: LoaderMech): Octets {
    [LOADER_MECH, m.loader] + Le(6 + |LoaderBody(m)|, 4) + LoaderBody(m)
  }

  lemma {:induction false} LoaderDirsRoundTrip(before: Octets, dirs: seq<Octets>)
    requires |DirBytes(dirs)| < 0x1_0000_0000
    ensures LoaderDirs(before + DirBytes(dirs), |before|, |dirs|) == Some(dirs)
    decreases |dirs|
  {
    hide UnsignedAt, Le, LoaderDirs;
    if dirs == [] {
      NoDirs(before + DirBytes(dirs), |before|);
    } else {
      Widths();
      var packet := before + DirBytes(dirs);
      var length, tail := Le(|dirs[0]|, 4), DirBytes(dirs[1..]);
      FirstDir(before, length, dirs[0], tail);
      UnsignedAtOfLe(before, |dirs[0]|, 4, dirs[0] + tail);
      var next := before + length + dirs[0];
      LoaderDirsRoundTrip(next, dirs[1..]);
      LoaderDirsStep(packet, |before|, dirs[0], |dirs|);
      assert [dirs[0]] + dirs[1..] == dirs;
    }
  }

  lemma NoDirs(packet: Octets, pos: nat)
    ensures LoaderDirs(packet, pos, 0) == Some([])
  {
  }

  lemma LoaderDirsStep(packet: Octets, pos: nat, dir: Octets, count: nat)
    requires UnsignedAt(packet, pos, 4) == Some(|dir|) && count > 0
    requires pos + 4 + |dir| <= |packet| && packet[pos + 4..pos + 4 + |dir|] == dir
    ensures
      LoaderDirs(packet, pos, count) ==
      match LoaderDirs(packet, pos + 4 + |dir|, count - 1)
      case None => None
      case Some(rest) => Some([dir] + rest)
  {
    hide UnsignedAt;
    SliceInside(packet, pos + 4, dir);
  }

  lemma SliceInside(packet: Octets, pos: nat, part: Octets)
    requires pos + |part| <= |packet| && packet[pos..pos + |part|] == part
    ensures Slice(packet, pos, pos + |part|) == part
  {
  }

  lemma FirstDir(before: Octets, length: Octets, dir: Octets, tail: Octets)
    ensures
      var packet := before + (length + dir + tail);
      && packet == before + length + (dir + tail) == before + length + dir + tail
      && packet[|before| + |length|..|before| + |length| + |dir|] == dir
  {
  }

  function LoaderHead(m: LoaderMech): Octets { [LOADER_MECH, m.loader] + Le(6 + |LoaderBody(m)|, 4) }

  lemma FourParts(head: Octets, count: Octets, length: Octets, cwd: Octets, dirs: Octets)
    ensures
      var all := head + (count + length + cwd + dirs);
      all == head + count + (length + (cwd + dirs)) == (head + count) + length + (cwd + dirs)
  {
  }

  lemma LoaderCounts(m: LoaderMech)
    requires LoaderFits(m)
    ensures UnsignedAt(EncodeLoader(m), 6, 4) == Some(|m.dirs|)
    ensures UnsignedAt(EncodeLoader(m), 10, 4) == Some(|m.cwd|)
  {
    Widths();
    var head, count, length := LoaderHead(m), Le(|m.dirs|, 4), Le(|m.cwd|, 4);
    var rest := m.cwd + DirBytes(m.dirs);
    FourParts(head, count, length, m.cwd, DirBytes(m.dirs));
    assert |head + count| == 10;
    hide Le, UnsignedAt, DirBytes;
    UnsignedAtOfLe(head, |m.dirs|, 4, length + rest);
    UnsignedAtOfLe(head + count, |m.cwd|, 4, rest);
  }

  lemma LoaderStrings(m: LoaderMech)
    requires LoaderFits(m)
    ensures Slice(EncodeLoader(m), 14, 14 + |m.cwd|) == m.cwd
    ensures LoaderDirs(EncodeLoader(m), 14 + |m.cwd|, |m.dirs|) == Some(m.dirs)
  {
    var front := LoaderHead(m) + Le(|m.dirs|, 4) + Le(|m.cwd|, 4);
    assert |front| == 14;
    assert EncodeLoader(m) == (front + m.cwd) + DirBytes(m.dirs);
    assert EncodeLoader(m)[14..14 + |m.cwd|] == m.cwd;
    LoaderDirsRoundTrip(front + m.cwd, m.dirs);
  }

  lemma LoaderRoundTrip(m: LoaderMech)
    requires LoaderFits(m)
    ensures LoaderOf(EncodeLoader(m)) == Some(m)
    ensures UnsignedAt(EncodeLoader(m)[1..6], 1, 4) == Some(|EncodeLoader(m)|)
  {
    LoaderCounts(m);
    LoaderStrings(m);
    Widths();
    hide UnsignedAt, Le, DirBytes, LoaderDirs, Slice;
    assert EncodeLoader(m)[1..6] == [m.loader] + Le(6 + |LoaderBody(m)|, 4) + [];
    UnsignedAtOfLe([m.loader], 6 + |LoaderBody(m)|, 4, []);
  }

  // ---- Environment ----

  type Environment = map<Octets, Octets>

  const NUL: Byte := 0
  const EQUALS: Byte := 61

  /** Where the first `b` is, or the length when there is none. */
  function Find(s: Octets, b: Byte): (i: nat)
    ensures i <= |s|
  {
    if s == [] || s[0] == b then 0 else 1 + Find(s[1..], b)
  }

  /** One entry of the block: skipped when empty, else split at the first '='. */
  function AddEntry(env: Environment, entry: Octets): Environment {
    var at := Find(entry, EQUALS);
    if entry == [] then env
    else if at == |entry| then env[entry := []]
    else env[entry[..at] := entry[at + 1..]]
  }

  /** The entries of `block.split(b"\0")`, folded in order. */
  function EnvOfBlock(block: Octets, env: Environment): Environment
    decreases |block|
  {
    var at := Find(block, NUL);
    var env' := AddEntry(env, block[..at]);
    if at == |block| then env' else EnvOfBlock(block[at + 1..], env')
  }

  function EnvOf(payload: Octets): Option<Environment> {
    var length :- UnsignedAt(payload, 0, SIZE_T);
    Some(EnvOfBlock(Slice(payload, SIZE_T, SIZE_T + length), map[]))
  }

  predicate EnvEntry(e: (Octets, Octets)) {
    NUL !in e.0 && EQUALS !in e.0 && NUL !in e.1
  }

  function EntryBytes(e: (Octets, Octets)): Octets { e.0 + [EQUALS] + e.1 + [NUL] }

  function EnvBlock(entries: seq<(Octets, Octets)>): Octets {
    if entries == [] then [] else EntryBytes(entries[0]) + EnvBlock(entries[1..])
  }

  /** The map a list of variables denotes: a later entry wins. */
  function EnvMap(entries: seq<(Octets, Octets)>, env: Environment): Environment {
    if entries == [] then env else EnvMap(entries[1..], env[entries[0].0 := entries[0].1])
  }

  lemma {:induction false} FindAfter(a: Octets, b: Byte, rest: Octets)
    requires b !in a
    ensures Find(a + [b] + rest, b) == |a|
  {
    if a != [] {
      assert (a + [b] + rest)[1..] == a[1..] + [b] + rest;
      FindAfter(a[1..], b, rest);
    }
  }

  lemma {:induction false} EnvBlockRoundTrip(entries: seq<(Octets, Octets)>, env: Environment)
    requires forall e <- entries :: EnvEntry(e)
    ensures EnvOfBlock(EnvBlock(entries), env) == EnvMap(entries, env)
    decreases |entries|
  {
    if entries != [] {
      var (name, value) := entries[0];
      assert EnvEntry(entries[0]);
      var entry := name + [EQUALS] + value;
      var block := EnvBlock(entries);
      assert block == entry + [NUL] + EnvBlock(entries[1..]);
      assert NUL !in entry;
      FindAfter(entry, NUL, EnvBlock(entries[1..]));
      assert block[..|entry|] == entry && block[|entry| + 1..] == EnvBlock(entries[1..]);
      FindAfter(name, EQUALS, value);
      assert entry[..|name|] == name && entry[|name| + 1..] == value;
      assert AddEntry(env, entry) == env[name := value];
      EnvBlockRoundTrip(entries[1..], env[name := value]);
    }
  }

  /** What each entry of a block does, in front of any others: the name ends at the first equals
      sign, an entry without one is a variable that holds nothing, and an empty one is skipped. */
  lemma EntryInFront(name: Octets, value: Octets, rest: Octets, env: Environment)
    requires NUL !in name && EQUALS !in name && NUL !in value
    ensures EnvOfBlock(name + [EQUALS] + value + [NUL] + rest, env) == EnvOfBlock(rest, env[name := value])
    ensures name != [] ==> EnvOfBlock(name + [NUL] + rest, env) == EnvOfBlock(rest, env[name := []])
    ensures EnvOfBlock([NUL] + rest, env) == EnvOfBlock(rest, env)
  {
    var entry := name + [EQUALS] + value;
    FindAfter(name, EQUALS, value);
    assert entry[..|name|] == name && entry[|name| + 1..] == value;
    EntryEnds(entry, rest, env);
    NotThere(name, EQUALS);
    EntryEnds(name, rest, env);
    EntryEnds([], rest, env);
    assert [] + [NUL] + rest == [NUL] + rest;
  }

  lemma EntryEnds(entry: Octets, rest: Octets, env: Environment)
    requires NUL !in entry
    ensures EnvOfBlock(entry + [NUL] + rest, env) == EnvOfBlock(rest, AddEntry(env, entry))
  {
    FindAfter(entry, NUL, rest);
    var block := entry + [NUL] + rest;
    assert block[..|entry|] == entry && block[|entry| + 1..] == rest;
  }

  lemma {:induction false} NotThere(s: Octets, b: Byte)
    requires b !in s
    ensures Find(s, b) == |s|
  {
    if s != [] {
      NotThere(s[1..], b);
    }
  }

  function EncodeEnv(entries: seq<(Octets, Octets)>): Octets {
    Le(|EnvBlock(entries)|, SIZE_T) + EnvBlock(entries)
  }

  lemma EnvRoundTrip(entries: seq<(Octets, Octets)>)
    requires forall e <- entries :: EnvEntry(e)
    requires |EnvBlock(entries)| < 0x1_0000_0000_0000_0000
    ensures EnvOf(EncodeEnv(entries)) == Some(EnvMap(entries, map[]))
  {
    hide EnvBlock, EnvOfBlock, Le, UnsignedAt;
    Widths();
    var block := EnvBlock(entries);
    var length := Le(|block|, SIZE_T);
    UnsignedAtOfLe([], |block|, SIZE_T, block);
    BlockAfterLength(length, block);
    EnvBlockRoundTrip(entries, map[]);
  }

  lemma BlockAfterLength(length: Octets, block: Octets)
    ensures [] + length + block == length + block
    ensures Slice(length + block, |length|, |length| + |block|) == block
  {
  }

  /** `entries` lists every variable of `env`, in any order. */
  ghost predicate Lists(entries: seq<(Octets, Octets)>, env: Environment) {
    && (forall e <- entries :: e.0 in env && env[e.0] == e.1)
    && (forall name | name in env :: (name, env[name]) in entries)
  }

  lemma {:induction false} EnvMapCollects(entries: seq<(Octets, Octets)>, sofar: Environment, env: Environment)
    requires forall e <- entries :: e.0 in env && env[e.0] == e.1
    requires forall name | name in sofar :: name in env && env[name] == sofar[name]
    requires forall name | name in env :: name in sofar || (name, env[name]) in entries
    ensures EnvMap(entries, sofar) == env
  {
    if entries == [] {
      assert sofar.Keys == env.Keys;
    } else {
      var e := entries[0];
      assert e in entries;
      assert forall name | name in env && (name, env[name]) in entries ::
        (name, env[name]) == e || (name, env[name]) in entries[1..];
      EnvMapCollects(entries[1..], sofar[e.0 := e.1], env);
    }
  }

  /** Whatever order the daemon lists them in, the variables come back as they are. */
  lemma EnvironmentRoundTrip(entries: seq<(Octets, Octets)>, env: Environment)
    requires Lists(entries, env) && forall e <- entries :: EnvEntry(e)
    requires |EnvBlock(entries)| < 0x1_0000_0000_0000_0000
    ensures EnvOf(EncodeEnv(entries)) == Some(env)
  {
    EnvRoundTrip(entries);
    EnvMapCollects(entries, map[], env);
  }
}
