// Request packets of protocol.py, and the daemon-side reading of them that the
// packet layouts imply.

module Requests {
  import opened Prelude
  import opened Bytes
  import opened Protocol

  datatype Request =
    | QueryVersion
    | FindOrLoad(name: Octets, load: bool)
    | OnHandle(command: int, handle: int)
    | StartStop(command: int, handle: int, pin: bool, gentle: bool, restart: bool, preack: bool)
    | ListServices(extended: bool)
    | CatLog(handle: int, clear: bool)
    | Signal(handle: int, signum: int)
    | SetEnv(variable: Octets)
    | GetAllEnv
    | QueryLoadMech

  const SERVICE_NAME_MAX := 1024 - 3

  /** UNPINSERVICE, UNLOADSERVICE, RELOADSERVICE, CLOSEHANDLE and the three SERVICESTATUS commands. */
  predicate HandleCommand(code: int) {
    code == 7 || code == 9 || code == 16 || code == 23 || code == 18 || code == 26 || code == 28
  }

  /** STARTSERVICE, STOPSERVICE, WAKESERVICE and RELEASESERVICE. */
  predicate StartStopCommand(code: int) { 3 <= code <= 6 }

  predicate Encodable(c: Request) {
    match c
    case FindOrLoad(name, _) => 1 <= |name| <= SERVICE_NAME_MAX
    case OnHandle(command, handle) => HandleCommand(command) && 0 <= handle < 0x1_0000_0000
    case StartStop(command, handle, _, _, _, _) => StartStopCommand(command) && 0 <= handle < 0x1_0000_0000
    case CatLog(handle, _) => 0 <= handle < 0x1_0000_0000
    case Signal(handle, signum) => 0 <= handle < 0x1_0000_0000 && -0x8000_0000 <= signum < 0x8000_0000
    case SetEnv(variable) => 1 <= |variable| <= SERVICE_NAME_MAX && variable[0] != EQUALS
    case _ => true
  }

  function Bit(set_: bool, value: Byte): Byte { if set_ then value else 0 }

  function Flags(pin: bool, gentle: bool, restart: bool, preack: bool): Byte {
    Bit(pin, 0x01) + Bit(gentle, 0x02) + Bit(restart, 0x04) + Bit(preack, 0x80)
  }

  function ServiceStatusCommand(version: nat): int {
    if version >= 6 then 28 else if version >= 5 then 26 else 18
  }

  /** The packet for `c`; a request that is not encodable raises instead. */
  function Encode(c: Request): (packet: Octets)
    requires Encodable(c)
    ensures packet != []
  {
    Widths();
    match c
    case QueryVersion => [0]
    case FindOrLoad(name, load) => [if load then 2 else 1] + Le(|name|, 2) + name
    case OnHandle(command, handle) => [command] + Le(handle, 4)
    case StartStop(command, handle, pin, gentle, restart, preack) =>
      [command, Flags(pin, gentle, restart, preack)] + Le(handle, 4)
    case ListServices(extended) => [if extended then 25 else 8]
    case CatLog(handle, clear) => [20, Bit(clear, 1)] + Le(handle, 4)
    case Signal(handle, signum) => [21] + LeSigned(signum, 4) + Le(handle, 4)
    case SetEnv(variable) => [17] + Le(|variable|, 2) + variable
    case GetAllEnv => [24, 0]
    case QueryLoadMech => [13]
  }

  /** The first request of a byte stream and the bytes after it; None while it is incomplete. */
  function Parse(s: Octets): Option<(Request, Octets)> {
    if s == [] then None
    else if s[0] == 0 then Some((QueryVersion, s[1..]))
    else if s[0] == 1 || s[0] == 2 then
      var text :- ParseText(s);
      Some((FindOrLoad(text.0, s[0] == 2), text.1))
    else if HandleCommand(s[0]) then
      var handle :- UnsignedAt(s, 1, 4);
      Some((OnHandle(s[0], handle), s[5..]))
    else if StartStopCommand(s[0]) then
      var handle :- UnsignedAt(s, 2, 4);
      Some((StartStop(s[0], handle, s[1] % 2 == 1, s[1] / 2 % 2 == 1, s[1] / 4 % 2 == 1, s[1] / 0x80 == 1), s[6..]))
    else if s[0] == 8 || s[0] == 25 then Some((ListServices(s[0] == 25), s[1..]))
    else if s[0] == 20 then
      var handle :- UnsignedAt(s, 2, 4);
      Some((CatLog(handle, s[1] == 1), s[6..]))
    else if s[0] == 21 then
      var signum :- SignedAt(s, 1, 4);
      var handle :- UnsignedAt(s, 5, 4);
      Some((Signal(handle, signum), s[9..]))
    else if s[0] == 17 then
      var text :- ParseText(s);
      Some((SetEnv(text.0), text.1))
    else if s[0] == 24 then
      if |s| < 2 then None else Some((GetAllEnv, s[2..]))
    else if s[0] == 13 then Some((QueryLoadMech, s[1..]))
    else None
  }

  function ParseText(s: Octets): Option<(Octets, Octets)> {
    var length :- UnsignedAt(s, 1, 2);
    if |s| < 3 + length then None else Some((s[3..3 + length], s[3 + length..]))
  }

  lemma TextRoundTrip(code: Byte, text: Octets, rest: Octets)
    requires |text| < 0x1_0000
    ensures ParseText([code] + Le(|text|, 2) + text + rest) == Some((text, rest))
  {
    Widths();
    var s := [code] + Le(|text|, 2) + text + rest;
    assert s == [code] + Le(|text|, 2) + (text + rest);
    UnsignedAtOfLe([code], |text|, 2, text + rest);
  }

  lemma HandleAt(before: Octets, handle: U32, rest: Octets)
    ensures UnsignedAt(before + Le(handle, 4) + rest, |before|, 4) == Some(handle)
    ensures (before + Le(handle, 4) + rest)[|before| + 4..] == rest
  {
    Widths();
    UnsignedAtOfLe(before, handle, 4, rest);
  }

  lemma ParseOfText(c: Request, rest: Octets)
    requires Encodable(c) && (c.FindOrLoad? || c.SetEnv?)
    ensures Parse(Encode(c) + rest) == Some((c, rest))
  {
    match c
    case FindOrLoad(name, load) =>
      TextRoundTrip(if load then 2 else 1, name, rest);
    case SetEnv(variable) =>
      TextRoundTrip(17, variable, rest);
  }

  lemma ParseOfHandle(c: Request, rest: Octets)
    requires Encodable(c) && (c.OnHandle? || c.CatLog?)
    ensures Parse(Encode(c) + rest) == Some((c, rest))
  {
    match c
    case OnHandle(command, handle) =>
      HandleAt([command], handle, rest);
    case CatLog(handle, clear) =>
      HandleAt([20, Bit(clear, 1)], handle, rest);
  }

  lemma FlagsDecode(pin: bool, gentle: bool, restart: bool, preack: bool)
    ensures
      var flags := Flags(pin, gentle, restart, preack);
      && pin == (flags % 2 == 1) && gentle == (flags / 2 % 2 == 1)
      && restart == (flags / 4 % 2 == 1) && preack == (flags / 0x80 == 1)
  {
  }

  lemma ParseOfStartStop(c: Request, rest: Octets)
    requires Encodable(c) && c.StartStop?
    ensures Parse(Encode(c) + rest) == Some((c, rest))
  {
    hide Flags;
    FlagsDecode(c.pin, c.gentle, c.restart, c.preack);
    HandleAt([c.command, Flags(c.pin, c.gentle, c.restart, c.preack)], c.handle, rest);
  }

  lemma ParseOfSignal(c: Request, rest: Octets)
    requires Encodable(c) && c.Signal?
    ensures Parse(Encode(c) + rest) == Some((c, rest))
  {
    Widths();
    var signum, handle := LeSigned(c.signum, 4), Le(c.handle, 4);
    assert Encode(c) + rest == [21] + signum + (handle + rest) == ([21] + signum) + handle + rest;
    SignedAtOfLe([21], c.signum, 4, handle + rest);
    HandleAt([21] + signum, c.handle, rest);
  }

  /** The two requests that carry a text are made exactly when the text is there and the packet is
      no longer than the 1024 bytes dinit reads; and no variable without a name is set. */
  lemma TextsThatFit(text: Octets, load: bool)
    ensures Encodable(FindOrLoad(text, load)) <==> text != [] && 3 + |text| <= 1024
    ensures Encodable(FindOrLoad(text, load)) ==> |Encode(FindOrLoad(text, load))| == 3 + |text|
    ensures Encodable(SetEnv(text)) <==> text != [] && 3 + |text| <= 1024 && text[0] != EQUALS
    ensures Encodable(SetEnv(text)) ==> |Encode(SetEnv(text))| == 3 + |text|
  {
  }

  /** Reading one request gives back that request and leaves everything after it. */
  lemma ParseOfEncode(c: Request, rest: Octets)
    requires Encodable(c)
    ensures Parse(Encode(c) + rest) == Some((c, rest))
  {
    if c.FindOrLoad? || c.SetEnv? {
      ParseOfText(c, rest);
    } else if c.OnHandle? || c.CatLog? {
      ParseOfHandle(c, rest);
    } else if c.StartStop? {
      ParseOfStartStop(c, rest);
    } else if c.Signal? {
      ParseOfSignal(c, rest);
    }
  }

  lemma ParseTextExtends(s: Octets, more: Octets)
    requires ParseText(s).Some?
    ensures ParseText(s + more) == Some((ParseText(s).value.0, ParseText(s).value.1 + more))
  {
    TailUnread(s, more, 1, 2);
    var end := 3 + UnsignedAt(s, 1, 2).value;
    assert (s + more)[3..end] == s[3..end] && (s + more)[end..] == s[end..] + more;
  }

  /** What has been read does not change when more bytes arrive. */
  lemma ParseExtends(s: Octets, more: Octets)
    requires Parse(s).Some?
    ensures Parse(s + more) == Some((Parse(s).value.0, Parse(s).value.1 + more))
  {
    var t := s + more;
    assert t[1..] == s[1..] + more;
    if s[0] == 1 || s[0] == 2 || s[0] == 17 {
      ParseTextExtends(s, more);
    } else if s[0] == 24 {
      assert t[2..] == s[2..] + more;
    } else if 5 <= |s| {
      TailUnread(s, more, 1, 4);
      assert t[5..] == s[5..] + more;
      if 6 <= |s| {
        TailUnread(s, more, 2, 4);
        assert t[6..] == s[6..] + more;
      }
      if 9 <= |s| {
        TailUnread(s, more, 5, 4);
        assert t[9..] == s[9..] + more;
      }
    }
  }

  /** A request that is only partly there is not mistaken for another one. */
  lemma ParseOfPrefix(c: Request, n: nat)
    requires Encodable(c) && n < |Encode(c)|
    ensures Parse(Encode(c)[..n]) == None
  {
    hide Parse, Encode;
    var e := Encode(c);
    match Parse(e[..n])
    case None =>
    case Some((d, left)) =>
      ParseExtends(e[..n], e[n..]);
      assert e[..n] + e[n..] == e + [];
      ParseOfEncode(c, []);
  }

  function EncodeAll(cs: seq<Request>): Octets
    requires forall c <- cs :: Encodable(c)
  {
    if cs == [] then [] else Encode(cs[0]) + EncodeAll(cs[1..])
  }

  /** The requests of a stream, up to `n` of them. */
  function ParseAll(s: Octets, n: nat): seq<Request> {
    if n == 0 then []
    else
      match Parse(s)
      case None => []
      case Some((c, rest)) => [c] + ParseAll(rest, n - 1)
  }

  /** Any concatenation of requests reads back as exactly the requests sent, in order. */
  lemma {:induction false} ParseAllOfEncodeAll(cs: seq<Request>, n: nat)
    requires forall c <- cs :: Encodable(c)
    requires |cs| <= n
    ensures ParseAll(EncodeAll(cs), n) == cs
    decreases |cs|
  {
    hide Parse, Encode, Encodable;
    if cs == [] {
      EmptyParses();
    } else {
      ParseOfEncode(cs[0], EncodeAll(cs[1..]));
      ParseAllOfEncodeAll(cs[1..], n - 1);
      assert cs == [cs[0]] + cs[1..];
    }
  }

  lemma EmptyParses()
    ensures Parse([]) == None
  {
  }
}
