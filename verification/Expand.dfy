// Variable substitution of dinix-init: a loop over characters, the grammar it reads,
// and what the two have to do with each other.

module Expand {
  import opened Prelude

  // ---- Characters and names ----

  /** Unicode's Alphabetic and Numeric properties, of which only the ASCII part is fixed. */
  datatype Properties = Properties(alphabetic: char -> bool, numeric: char -> bool)

  predicate AsciiLetter(c: char) { 'a' <= c <= 'z' || 'A' <= c <= 'Z' }
  predicate AsciiDigit(c: char) { '0' <= c <= '9' }

  ghost predicate ExtendsAscii(u: Properties) {
    forall c: char | c < 128 as char :: u.alphabetic(c) == AsciiLetter(c) && u.numeric(c) == AsciiDigit(c)
  }

  type Unicode = u: Properties | ExtendsAscii(u)
    ghost witness Properties(c => AsciiLetter(c), c => AsciiDigit(c))

  predicate NameStart(u: Unicode, c: char) { u.alphabetic(c) || c == '_' }
  predicate NameChar(u: Unicode, c: char) { u.alphabetic(c) || u.numeric(c) || c == '_' }

  predicate Name(u: Unicode, s: string) {
    s != [] && NameStart(u, s[0]) && forall i | 0 <= i < |s| :: NameChar(u, s[i])
  }

  // ---- Tokens and their values ----

  datatype Operator = None_ | ColonDash | Dash | ColonPlus | Plus

  function Sign(op: Operator): string {
    match op
    case None_ => ""
    case ColonDash => ":-"
    case Dash => "-"
    case ColonPlus => ":+"
    case Plus => "+"
  }

  datatype Token =
    | Plain(c: char)
    | Doubled
    | Lone
    | Bare(name: string)
    | Braced(name: string, op: Operator, word: string)

  type Lookup = string -> Option<string>

  /** The value of `${name op word}`: section 2.6.2 of POSIX.1 XCU, with `word` taken literally. */
  function Substitute(value: Option<string>, op: Operator, word: string): string {
    var set_ := value.Some?;
    var nonEmpty := value.Some? && value.value != "";
    var own := if value.Some? then value.value else "";
    match op
    case None_ => own
    case ColonDash => if nonEmpty then own else word
    case Dash => if set_ then own else word
    case ColonPlus => if nonEmpty then word else ""
    case Plus => if set_ then word else ""
  }

  function Value(t: Token, lookup: Lookup): string {
    match t
    case Plain(c) => [c]
    case Doubled => "$"
    case Lone => "$"
    case Bare(name) => Substitute(lookup(name), None_, "")
    case Braced(name, op, word) => Substitute(lookup(name), op, word)
  }

  function Values(ts: seq<Token>, lookup: Lookup): string {
    if ts == [] then "" else Value(ts[0], lookup) + Values(ts[1..], lookup)
  }

  // ---- The grammar ----

  /** How a token is written. */
  function Text(t: Token): (s: string)
    ensures t.Plain? || t.Lone? || t.Doubled? ==> s != []
  {
    match t
    case Plain(c) => [c]
    case Doubled => "$$"
    case Lone => "$"
    case Bare(name) => "$" + name
    case Braced(name, op, word) => "${" + name + Sign(op) + word + "}"
  }

  function Texts(ts: seq<Token>): string {
    if ts == [] then "" else Text(ts[0]) + Texts(ts[1..])
  }

  predicate TokenOk(u: Unicode, t: Token) {
    match t
    case Plain(c) => c != '$'
    case Doubled => true
    case Lone => true
    case Bare(name) => Name(u, name)
    case Braced(name, op, word) => Name(u, name) && '}' !in word && (op == None_ ==> word == "")
  }

  /** What may come right after a token: a bare name takes all it can, and a dollar sign
      stands for itself only before something that could not make a substitution of it. */
  predicate MayPrecede(u: Unicode, t: Token, next: string) {
    match t
    case Lone => next != [] ==> next[0] != '$' && next[0] != '{' && !NameStart(u, next[0])
    case Bare(_) => next != [] ==> !NameChar(u, next[0])
    case _ => true
  }

  /** `ts` is a reading of its own text. */
  predicate Sentence(u: Unicode, ts: seq<Token>) {
    ts != [] ==> TokenOk(u, ts[0]) && MayPrecede(u, ts[0], Texts(ts[1..])) && Sentence(u, ts[1..])
  }

  // ---- The reader of expand.rs ----

  datatype ExpandError = UnmatchedBrace | UnknownOperator | NotAName

  /** Where the first character of `stops` is, or the length. */
  function FindAny(s: string, stops: set<char>): (i: nat)
    ensures i <= |s|
    ensures i < |s| ==> s[i] in stops
    ensures forall j | 0 <= j < i :: s[j] !in stops
  {
    if s == [] || s[0] in stops then 0 else 1 + FindAny(s[1..], stops)
  }

  /** Where a run of name characters at the front of `s` ends. */
  function NameEnd(u: Unicode, s: string): (i: nat)
    ensures i <= |s|
    ensures i < |s| ==> !NameChar(u, s[i])
    ensures forall j | 0 <= j < i :: NameChar(u, s[j])
  {
    if s == [] || !NameChar(u, s[0]) then 0 else 1 + NameEnd(u, s[1..])
  }

  /** The operator that `rest` begins with, which is not empty. */
  function OperatorOf(rest: string): Option<Operator> {
    if ":-" <= rest then Some(ColonDash)
    else if ":+" <= rest then Some(ColonPlus)
    else if "-" <= rest then Some(Dash)
    else if "+" <= rest then Some(Plus)
    else None
  }

  function ReadBraced(u: Unicode, inner: string): Result<Token, ExpandError> {
    var at := FindAny(inner, {':', '-', '+'});
    var name, rest := inner[..at], inner[at..];
    var op := if rest == [] then Some(None_) else OperatorOf(rest);
    if op.None? then Err(UnknownOperator)
    else if !Name(u, name) then Err(NotAName)
    else Ok(Braced(name, op.value, rest[|Sign(op.value)|..]))
  }

  /** What follows "${": everything up to the first closing brace. */
  function ReadSubstitution(u: Unicode, s: string): (r: Result<Token, ExpandError>)
    ensures r.Ok? ==> r.value.Braced? && 0 < |Text(r.value)| <= |s| + 2
  {
    var length := FindAny(s, {'}'});
    if length == |s| then Err(UnmatchedBrace)
    else
      var t :- ReadBraced(u, s[..length]);
      assert |Text(t)| == length + 3;
      Ok(t)
  }

  /** The first token of `s`. */
  function ReadToken(u: Unicode, s: string): (r: Result<Token, ExpandError>)
    requires s != []
    ensures r.Ok? ==> 0 < |Text(r.value)| <= |s|
  {
    if s[0] != '$' then Ok(Plain(s[0]))
    else if |s| == 1 then Ok(Lone)
    else if s[1] == '$' then Ok(Doubled)
    else if s[1] == '{' then ReadSubstitution(u, s[2..])
    else if NameStart(u, s[1]) then Ok(Bare(s[1..1 + NameEnd(u, s[1..])]))
    else Ok(Lone)
  }

  function Tokens(u: Unicode, s: string): Result<seq<Token>, ExpandError>
    decreases |s|
  {
    if s == [] then Ok([])
    else
      var t :- ReadToken(u, s);
      var ts :- Tokens(u, s[|Text(t)|..]);
      Ok([t] + ts)
  }

  function Expansion(u: Unicode, s: string, lookup: Lookup): Result<string, ExpandError> {
    var ts :- Tokens(u, s);
    Ok(Values(ts, lookup))
  }

  // ---- Reader and grammar agree ----

  lemma ReadSubstitutionSound(u: Unicode, s: string)
    requires ReadSubstitution(u, s).Ok?
    ensures
      var t := ReadSubstitution(u, s).value;
      TokenOk(u, t) && Text(t) == "${" + s[..|Text(t)| - 2]
  {
    hide ReadBraced, TokenOk;
    var length := FindAny(s, {'}'});
    assert forall j | 0 <= j < length :: s[..length][j] == s[j] != '}';
    ReadBracedSound(u, s[..length]);
    assert s[..length + 1] == s[..length] + "}";
  }

  lemma ReadBracedSound(u: Unicode, inner: string)
    requires '}' !in inner && ReadBraced(u, inner).Ok?
    ensures
      var t := ReadBraced(u, inner).value;
      TokenOk(u, t) && Text(t) == "${" + inner + "}"
  {
    hide Name, FindAny, OperatorOf, Sign;
    var at := FindAny(inner, {':', '-', '+'});
    var rest, t := inner[at..], ReadBraced(u, inner).value;
    assert inner == inner[..at] + rest;
    OperatorSplits(rest);
    NotInPart(inner, '}', at + |Sign(t.op)|, t.word);
    assert Text(t) == "${" + (t.name + (Sign(t.op) + t.word)) + "}";
    NoSign();
  }

  lemma NotInPart(s: string, c: char, at: nat, part: string)
    requires c !in s && at <= |s| && part == s[at..]
    ensures c !in part
  {
    assert forall i | 0 <= i < |part| :: part[i] == s[at + i] && s[at + i] in s;
  }

  lemma NoSign()
    ensures Sign(None_) == ""
  {
  }

  lemma OperatorSplits(rest: string)
    ensures Sign(None_) == ""
    ensures OperatorOf(rest).Some? ==>
      var sign := Sign(OperatorOf(rest).value);
      |sign| <= |rest| && rest == sign + rest[|sign|..] && OperatorOf(rest).value != None_
  {
  }

  lemma ReadTokenSound(u: Unicode, s: string)
    requires s != [] && ReadToken(u, s).Ok?
    ensures
      var t := ReadToken(u, s).value;
      && TokenOk(u, t) && MayPrecede(u, t, s[|Text(t)|..])
      && Text(t) == s[..|Text(t)|]
  {
    hide ReadSubstitution, Name, NameStart, NameChar;
    if s[0] == '$' && |s| > 1 && s[1] == '{' {
      SubstitutionIsSound(u, s);
    } else if s[0] == '$' && |s| > 1 && s[1] != '$' && NameStart(u, s[1]) {
      BareIsSound(u, s);
    }
  }

  lemma SubstitutionIsSound(u: Unicode, s: string)
    requires |s| > 1 && s[..2] == "${" && ReadSubstitution(u, s[2..]).Ok?
    ensures
      var t := ReadSubstitution(u, s[2..]).value;
      && TokenOk(u, t) && MayPrecede(u, t, s[|Text(t)|..])
      && Text(t) == s[..|Text(t)|]
  {
    hide ReadSubstitution, TokenOk, Text;
    ReadSubstitutionSound(u, s[2..]);
    var n := |Text(ReadSubstitution(u, s[2..]).value)|;
    assert s[..n] == s[..2] + s[2..][..n - 2];
  }

  lemma BareIsSound(u: Unicode, s: string)
    requires |s| > 1 && s[0] == '$' && NameStart(u, s[1])
    ensures
      var t := Bare(s[1..1 + NameEnd(u, s[1..])]);
      && TokenOk(u, t) && MayPrecede(u, t, s[|Text(t)|..])
      && Text(t) == s[..|Text(t)|]
  {
    hide Name, NameStart, NameChar, NameEnd;
    ReadBareSound(u, s[1..]);
    var n := NameEnd(u, s[1..]);
    assert s[1..][..n] == s[1..1 + n] && s[1..][n..] == s[1 + n..];
    assert s[..1 + n] == "$" + s[1..1 + n];
  }

  lemma ReadBareSound(u: Unicode, s: string)
    requires s != [] && NameStart(u, s[0])
    ensures var n := NameEnd(u, s); Name(u, s[..n]) && (s[n..] != [] ==> !NameChar(u, s[n..][0]))
  {
  }

  lemma FindAnyIs(s: string, stops: set<char>, n: nat)
    requires n <= |s| && (n < |s| ==> s[n] in stops)
    requires forall j | 0 <= j < n :: s[j] !in stops
    ensures FindAny(s, stops) == n
  {
  }

  lemma SignsAreNotInNames(u: Unicode)
    ensures forall c | c in {':', '-', '+', '$', '{', '}'} :: !NameChar(u, c)
  {
    assert forall c: char | c < 128 as char :: u.alphabetic(c) == AsciiLetter(c) && u.numeric(c) == AsciiDigit(c);
  }

  lemma OperatorReadBack(op: Operator, word: string)
    requires op != None_
    ensures OperatorOf(Sign(op) + word) == Some(op)
    ensures Sign(op) != "" && Sign(op)[0] in {':', '-', '+'}
  {
    var s := Sign(op) + word;
    assert s[0] == Sign(op)[0];
    assert |Sign(op)| == 2 ==> s[1] == Sign(op)[1];
  }

  lemma ReadBracedComplete(u: Unicode, t: Token)
    requires t.Braced? && TokenOk(u, t)
    ensures ReadBraced(u, t.name + Sign(t.op) + t.word) == Ok(t)
  {
    hide OperatorOf, Sign, NameChar, NameStart;
    var sign := Sign(t.op);
    var tail := sign + t.word;
    var inner, n := t.name + sign + t.word, |t.name|;
    assert inner == t.name + tail;
    SignsAreNotInNames(u);
    assert forall j | 0 <= j < n :: inner[j] == t.name[j] && NameChar(u, t.name[j]);
    NoSign();
    if t.op != None_ {
      OperatorReadBack(t.op, t.word);
      assert inner[n] == sign[0];
    }
    FindAnyIs(inner, {':', '-', '+'}, n);
    assert inner[..n] == t.name && inner[n..] == tail;
    assert tail[|sign|..] == t.word;
  }

  lemma ReadBareComplete(u: Unicode, name: string, next: string)
    requires Name(u, name) && MayPrecede(u, Bare(name), next)
    ensures ReadToken(u, "$" + name + next) == Ok(Bare(name))
  {
    var s := "$" + name + next;
    assert s[1..] == name + next;
    assert forall i | 0 <= i < |name| :: (name + next)[i] == name[i];
    NameEndIs(u, name + next, |name|);
    assert s[1..1 + |name|] == name;
    assert s[1] == name[0];
  }

  lemma ReadSubstitutionComplete(u: Unicode, t: Token, next: string)
    requires t.Braced? && TokenOk(u, t)
    ensures ReadSubstitution(u, t.name + Sign(t.op) + t.word + "}" + next) == Ok(t)
  {
    hide ReadBraced;
    var inner := t.name + Sign(t.op) + t.word;
    var s := inner + "}" + next;
    assert forall j | 0 <= j < |t.name| :: NameChar(u, t.name[j]);
    forall j | 0 <= j < |inner|
      ensures s[j] != '}'
    {
      assert s[j] == inner[j];
      if j < |t.name| {
        assert inner[j] == t.name[j];
      } else if j >= |t.name| + |Sign(t.op)| {
        assert inner[j] == t.word[j - |t.name| - |Sign(t.op)|];
      }
    }
    FindAnyIs(s, {'}'}, |inner|);
    assert s[..|inner|] == inner;
    ReadBracedComplete(u, t);
  }

  lemma ReadBracesComplete(u: Unicode, t: Token, next: string)
    requires t.Braced? && TokenOk(u, t)
    ensures ReadToken(u, Text(t) + next) == Ok(t)
  {
    hide ReadSubstitution, Name, Sign;
    var tail := t.name + Sign(t.op) + t.word + "}" + next;
    var s := Text(t) + next;
    assert s == "${" + tail;
    assert s[0] == '$' && s[1] == '{' && s[2..] == tail;
    ReadSubstitutionComplete(u, t, next);
  }

  lemma ReadOtherComplete(u: Unicode, t: Token, next: string)
    requires !t.Bare? && !t.Braced? && TokenOk(u, t) && MayPrecede(u, t, next)
    ensures ReadToken(u, Text(t) + next) == Ok(t)
  {
    hide ReadSubstitution, Name;
  }

  /** A token that may stand before `next` is read back from in front of it. */
  lemma ReadTokenComplete(u: Unicode, t: Token, next: string)
    requires TokenOk(u, t) && MayPrecede(u, t, next)
    ensures ReadToken(u, Text(t) + next) == Ok(t)
  {
    hide ReadToken, ReadSubstitution, Name, Sign;
    match t
    case Bare(name) => ReadBareComplete(u, name, next);
    case Braced(_, _, _) => ReadBracesComplete(u, t, next);
    case _ => ReadOtherComplete(u, t, next);
  }

  lemma NameEndIs(u: Unicode, s: string, n: nat)
    requires n <= |s| && (n < |s| ==> !NameChar(u, s[n]))
    requires forall j | 0 <= j < n :: NameChar(u, s[j])
    ensures NameEnd(u, s) == n
  {
  }

  /** Tokens in front of any string are read as themselves. */
  lemma {:induction false} TokensInFront(u: Unicode, ts: seq<Token>, next: string)
    requires Sentence(u, ts)
    requires ts != [] ==> MayPrecede(u, ts[|ts| - 1], next)
    ensures Tokens(u, Texts(ts) + next) ==
            match Tokens(u, next)
            case Err(e) => Err(e)
            case Ok(others) => Ok(ts + others)
    decreases |ts|
  {
    hide Tokens, TokenOk, MayPrecede, Text;
    if ts == [] {
      assert Texts(ts) + next == next;
      assert Tokens(u, next).Ok? ==> [] + Tokens(u, next).value == Tokens(u, next).value;
    } else {
      var t, rest := ts[0], Texts(ts[1..]) + next;
      assert (Text(t) + Texts(ts[1..])) + next == Text(t) + rest;
      MayPrecedeMore(u, t, Texts(ts[1..]), next, ts[1..]);
      TokenInFront(u, t, rest);
      if ts[1..] != [] {
        assert ts[1..][|ts| - 2] == ts[|ts| - 1];
      }
      TokensInFront(u, ts[1..], next);
      if Tokens(u, next).Ok? {
        FirstAndRest(ts, Tokens(u, next).value);
      }
    }
  }

  lemma FirstAndRest(ts: seq<Token>, more: seq<Token>)
    requires ts != []
    ensures [ts[0]] + (ts[1..] + more) == ts + more
  {
  }

  lemma TokenInFront(u: Unicode, t: Token, rest: string)
    requires TokenOk(u, t) && MayPrecede(u, t, rest)
    ensures Tokens(u, Text(t) + rest) ==
            match Tokens(u, rest)
            case Err(e) => Err(e)
            case Ok(others) => Ok([t] + others)
  {
    hide ReadToken, TokenOk, MayPrecede, Text;
    ReadTokenComplete(u, t, rest);
    TokenNotEmpty(u, t);
    assert (Text(t) + rest)[|Text(t)|..] == rest;
  }

  lemma TokenNotEmpty(u: Unicode, t: Token)
    ensures |Text(t)| > 0
  {
  }

  lemma MayPrecedeMore(u: Unicode, t: Token, text: string, next: string, ts: seq<Token>)
    requires text == Texts(ts) && MayPrecede(u, t, text)
    requires ts == [] ==> MayPrecede(u, t, next)
    ensures MayPrecede(u, t, text + next)
  {
    if ts == [] {
      assert text + next == next;
    } else {
      TokenNotEmpty(u, ts[0]);
      assert (text + next)[0] == text[0];
    }
  }

  lemma {:induction false} TokensSound(u: Unicode, s: string)
    requires Tokens(u, s).Ok?
    ensures Sentence(u, Tokens(u, s).value) && Texts(Tokens(u, s).value) == s
    decreases |s|
  {
    hide ReadToken, TokenOk, MayPrecede, Text;
    if s != [] {
      var t := ReadToken(u, s).value;
      ReadTokenSound(u, s);
      var ts := Tokens(u, s[|Text(t)|..]).value;
      TokensSound(u, s[|Text(t)|..]);
      assert ([t] + ts)[1..] == ts && ([t] + ts)[0] == t;
      assert s == s[..|Text(t)|] + s[|Text(t)|..];
    }
  }

  /** expand succeeds exactly on the strings that the grammar derives, whatever the variables
      hold, and there its result is the values of the tokens, one after the other, for the
      one reading there is. */
  lemma ExpansionRefinesGrammar(u: Unicode, s: string, lookup: Lookup)
    ensures Expansion(u, s, lookup).Ok? <==> exists ts :: Sentence(u, ts) && Texts(ts) == s
    ensures forall ts | Sentence(u, ts) && Texts(ts) == s :: Expansion(u, s, lookup) == Ok(Values(ts, lookup))
  {
    hide ReadToken, TokenOk, MayPrecede;
    if Tokens(u, s).Ok? {
      TokensSound(u, s);
    }
    forall ts | Sentence(u, ts) && Texts(ts) == s
      ensures Tokens(u, s) == Ok(ts)
    {
      EndPrecedesNothing(u);
      TokensInFront(u, ts, "");
      assert Texts(ts) + "" == s && ts + [] == ts;
    }
  }

  lemma EndPrecedesNothing(u: Unicode)
    ensures forall t :: MayPrecede(u, t, "")
  {
  }

  /** The variables a reading names. */
  function Named(ts: seq<Token>): set<string> {
    if ts == [] then {}
    else (if ts[0].Bare? || ts[0].Braced? then {ts[0].name} else {}) + Named(ts[1..])
  }

  lemma {:induction false} ValuesDependOnNamed(ts: seq<Token>, one: Lookup, other: Lookup)
    requires forall name | name in Named(ts) :: one(name) == other(name)
    ensures Values(ts, one) == Values(ts, other)
  {
    if ts != [] {
      ValuesDependOnNamed(ts[1..], one, other);
    }
  }

  /** Environments that agree on the variables the text names give the same result. */
  lemma ExpansionDependsOnNamed(u: Unicode, s: string, one: Lookup, other: Lookup)
    requires Tokens(u, s).Ok? ==> forall name | name in Named(Tokens(u, s).value) :: one(name) == other(name)
    ensures Expansion(u, s, one) == Expansion(u, s, other)
  {
    if Tokens(u, s).Ok? {
      ValuesDependOnNamed(Tokens(u, s).value, one, other);
    }
  }

  // ---- The loop ----

  function Prepend(out: string, r: Result<string, ExpandError>): Result<string, ExpandError> {
    if r.Ok? then Ok(out + r.value) else r
  }

  lemma ExpansionStep(u: Unicode, s: string, lookup: Lookup, out: string)
    requires s != ""
    ensures Prepend(out, Expansion(u, s, lookup)) ==
            match ReadToken(u, s)
            case Err(e) => Err(e)
            case Ok(t) => Prepend(out + Value(t, lookup), Expansion(u, s[|Text(t)|..], lookup))
  {
    hide ReadToken, Text, Value;
    if ReadToken(u, s).Ok? {
      var t := ReadToken(u, s).value;
      TokenNotEmpty(u, t);
      var rest := Tokens(u, s[|Text(t)|..]);
      if rest.Ok? {
        assert ([t] + rest.value)[1..] == rest.value;
        var here, last := Value(t, lookup), Values(rest.value, lookup);
        assert out + (here + last) == (out + here) + last;
      }
    }
  }

  /** expand_braced */
  function ExpandBraced(u: Unicode, inner: string, lookup: Lookup): (r: Result<string, ExpandError>)
    ensures r == match ReadBraced(u, inner)
                 case Err(e) => Err(e)
                 case Ok(t) => Ok(Value(t, lookup))
  {
    var at := FindAny(inner, {':', '-', '+'});
    if at == |inner| then
      if !Name(u, inner) then Err(NotAName)
      else
        assert inner[..at] == inner && inner[at..] == "";
        Ok(if lookup(inner).Some? then lookup(inner).value else "")
    else
      var name, rest := inner[..at], inner[at..];
      var op :- if OperatorOf(rest).Some? then Ok(OperatorOf(rest).value) else Err(UnknownOperator);
      if !Name(u, name) then Err(NotAName)
      else Ok(Substitute(lookup(name), op, rest[|Sign(op)|..]))
  }

  /** The inner loop after "${": up to the closing brace, which is taken as well. */
  method TakeInner(input: string, start: nat) returns (inner: string, closed: bool, i: nat)
    requires start <= |input|
    ensures start <= i <= |input| && '}' !in inner && (!closed ==> i == |input|)
    ensures input[start..i] == if closed then inner + "}" else inner
  {
    i, inner, closed := start, "", false;
    while i < |input| && !closed
      invariant start <= i <= |input| && i == start + |inner| + if closed then 1 else 0
      invariant inner == input[start..start + |inner|] && '}' !in inner
      invariant closed ==> input[i - 1] == '}'
      decreases |input| - i, !closed
    {
      var d := input[i];
      SliceGrows(input, start, i);
      i := i + 1;
      if d == '}' {
        closed := true;
      } else {
        inner := inner + [d];
      }
    }
    if closed {
      SliceGrows(input, start, i - 1);
    }
  }

  lemma SliceGrows(s: string, start: nat, end: nat)
    requires start <= end < |s|
    ensures s[start..end + 1] == s[start..end] + [s[end]]
  {
  }

  /** The inner loop after "$" and a character that starts a name. */
  method TakeName(u: Unicode, input: string, start: nat) returns (name: string, i: nat)
    requires start <= |input|
    ensures start <= i <= |input| && name == input[start..i]
    ensures forall j | 0 <= j < |name| :: NameChar(u, name[j])
    ensures i < |input| ==> !NameChar(u, input[i])
  {
    i, name := start, "";
    while i < |input| && NameChar(u, input[i])
      invariant start <= i <= |input|
      invariant name == input[start..i] && forall j | 0 <= j < |name| :: NameChar(u, name[j])
    {
      SliceGrows(input, start, i);
      name := name + [input[i]];
      i := i + 1;
    }
  }

  /** What the match after a dollar sign pushes, and where the next turn of the loop begins. */
  method ExpandDollar(u: Unicode, input: string, start: nat, lookup: Lookup)
    returns (r: Result<string, ExpandError>, end: nat)
    requires start < |input| && input[start] == '$'
    ensures start < end <= |input|
    ensures
      match ReadToken(u, input[start..])
      case Err(e) => r == Err(e)
      case Ok(t) => r == Ok(Value(t, lookup)) && end == start + |Text(t)|
  {
    hide ReadToken, ReadBraced, Text, Value, Name, Substitute, NameStart, NameChar;
    ghost var s := input[start..];
    var i := start + 1;
    if i < |input| && input[i] == '$' {
      DollarStep(u, s, lookup);
      return Ok("$"), i + 1;
    } else if i < |input| && input[i] == '{' {
      var inner, closed, stop := TakeInner(input, i + 1);
      BraceAt(u, input, start, inner, closed, stop);
      if !closed {
        return Err(UnmatchedBrace), stop;
      }
      r, end := ExpandBraced(u, inner, lookup), stop;
    } else if i < |input| && NameStart(u, input[i]) {
      var name, stop := TakeName(u, input, i);
      NameIsNotEmpty(u, input, i, stop);
      BareAt(u, input, start, name, stop, lookup);
      return Ok(if lookup(name).Some? then lookup(name).value else ""), stop;
    } else {
      DollarStep(u, s, lookup);
      return Ok("$"), i;
    }
  }

  lemma BraceAt(u: Unicode, input: string, start: nat, inner: string, closed: bool, end: nat)
    requires start + 2 <= end <= |input| && input[start] == '$' && input[start + 1] == '{'
    requires '}' !in inner && input[start + 2..end] == if closed then inner + "}" else inner
    requires !closed ==> end == |input|
    ensures
      var s := input[start..];
      && (!closed ==> ReadToken(u, s) == Err(UnmatchedBrace))
      && (closed ==> ReadToken(u, s) == ReadBraced(u, inner))
      && (closed && ReadBraced(u, inner).Ok? ==> start + |Text(ReadBraced(u, inner).value)| == end)
  {
    hide ReadToken, ReadBraced, Text;
    assert input[start..] == "${" + input[start + 2..end] + input[end..];
    BraceStep(u, input[start..], inner, closed, input[end..]);
  }

  lemma BareAt(u: Unicode, input: string, start: nat, name: string, end: nat, lookup: Lookup)
    requires start + 1 < end <= |input| && input[start] == '$' && name == input[start + 1..end]
    requires input[start + 1] != '$' && input[start + 1] != '{' && NameStart(u, input[start + 1])
    requires forall j | 0 <= j < |name| :: NameChar(u, name[j])
    requires end < |input| ==> !NameChar(u, input[end])
    ensures ReadToken(u, input[start..]) == Ok(Bare(name)) && start + |Text(Bare(name))| == end
    ensures Value(Bare(name), lookup) == if lookup(name).Some? then lookup(name).value else ""
  {
    hide ReadToken, Text, Value, NameStart, NameChar;
    assert input[start..] == "$" + name + input[end..];
    BareStep(u, input[start..], lookup, name, input[end..]);
  }

  /** expand: characters are taken from the front of the input until there are none. */
  method Expand(u: Unicode, input: string, lookup: Lookup) returns (r: Result<string, ExpandError>)
    ensures r == Expansion(u, input, lookup)
  {
    hide Expansion, Prepend, ReadToken, Text, Value;
    var out := "";
    var i := 0;
    StartsEmpty(u, input, lookup);
    while i < |input|
      invariant 0 <= i <= |input|
      invariant Expansion(u, input, lookup) == Prepend(out, Expansion(u, input[i..], lookup))
    {
      ghost var s := input[i..];
      ExpansionStep(u, s, lookup, out);
      if input[i] != '$' {
        PlainStep(u, s, lookup);
        out := out + [input[i]];
        i := i + 1;
      } else {
        var value, end := ExpandDollar(u, input, i, lookup);
        if value.Err? {
          return value;
        }
        assert s[end - i..] == input[end..];
        out := out + value.value;
        i := end;
      }
    }
    assert input[i..] == "";
    EndsEmpty(u, lookup, out);
    return Ok(out);
  }

  lemma NameIsNotEmpty(u: Unicode, input: string, i: nat, end: nat)
    requires i <= end <= |input| && i < |input| && NameStart(u, input[i])
    requires end < |input| ==> !NameChar(u, input[end])
    ensures i < end && input[i..end][0] == input[i]
  {
  }

  lemma StartsEmpty(u: Unicode, input: string, lookup: Lookup)
    ensures Expansion(u, input, lookup) == Prepend("", Expansion(u, input[0..], lookup))
  {
    assert input[0..] == input;
    var whole := Expansion(u, input, lookup);
    assert whole.Ok? ==> "" + whole.value == whole.value;
  }

  lemma EndsEmpty(u: Unicode, lookup: Lookup, out: string)
    ensures Prepend(out, Expansion(u, "", lookup)) == Ok(out)
  {
    assert Tokens(u, "") == Ok([]);
    assert out + "" == out;
  }

  lemma PlainStep(u: Unicode, s: string, lookup: Lookup)
    requires s != "" && s[0] != '$'
    ensures ReadToken(u, s) == Ok(Plain(s[0])) && Text(Plain(s[0])) == [s[0]] == Value(Plain(s[0]), lookup)
  {
  }

  lemma DollarStep(u: Unicode, s: string, lookup: Lookup)
    requires s != "" && s[0] == '$'
    ensures |s| > 1 && s[1] == '$' ==> ReadToken(u, s) == Ok(Doubled)
    ensures |s| == 1 || (s[1] != '$' && s[1] != '{' && !NameStart(u, s[1])) ==> ReadToken(u, s) == Ok(Lone)
    ensures |Text(Doubled)| == 2 && |Text(Lone)| == 1 && Value(Doubled, lookup) == Value(Lone, lookup) == "$"
  {
  }

  lemma BraceStep(u: Unicode, s: string, inner: string, closed: bool, next: string)
    requires '}' !in inner && s == "${" + (if closed then inner + "}" else inner) + next
    requires !closed ==> next == ""
    ensures !closed ==> ReadToken(u, s) == Err(UnmatchedBrace)
    ensures closed ==> ReadToken(u, s) == ReadBraced(u, inner)
    ensures closed && ReadBraced(u, inner).Ok? ==> |Text(ReadBraced(u, inner).value)| == |inner| + 3
  {
    hide ReadBraced;
    assert s[2..] == (if closed then inner + "}" else inner) + next;
    assert forall j | 0 <= j < |inner| :: s[2..][j] == inner[j];
    FindAnyIs(s[2..], {'}'}, |inner|);
    if closed {
      assert s[2..][..|inner|] == inner;
      if ReadBraced(u, inner).Ok? {
        ReadBracedSound(u, inner);
      }
    }
  }

  lemma BareStep(u: Unicode, s: string, lookup: Lookup, name: string, next: string)
    requires s == "$" + name + next && name != "" && NameStart(u, name[0])
    requires forall j | 0 <= j < |name| :: NameChar(u, name[j])
    requires next != "" ==> !NameChar(u, next[0])
    requires name[0] != '$' && name[0] != '{'
    ensures ReadToken(u, s) == Ok(Bare(name)) && |Text(Bare(name))| == |name| + 1
    ensures Value(Bare(name), lookup) == if lookup(name).Some? then lookup(name).value else ""
  {
    ReadBareComplete(u, name, next);
  }

  // ---- Composition, escaping, the state directory ----

  /** `a` ends at the end of a token that `b` does not continue. */
  predicate Joins(u: Unicode, a: string, b: string) {
    var ts := Tokens(u, a);
    ts.Ok? && (ts.value != [] ==> MayPrecede(u, ts.value[|ts.value| - 1], b))
  }

  lemma {:induction false} ValuesAppend(a: seq<Token>, b: seq<Token>, lookup: Lookup)
    ensures Values(a + b, lookup) == Values(a, lookup) + Values(b, lookup)
  {
    hide Value;
    if a == [] {
      assert a + b == b;
      assert "" + Values(b, lookup) == Values(b, lookup);
    } else {
      ValuesAppend(a[1..], b, lookup);
      assert (a + b)[1..] == a[1..] + b && (a + b)[0] == a[0];
      var v, rest, last := Value(a[0], lookup), Values(a[1..], lookup), Values(b, lookup);
      assert v + (rest + last) == (v + rest) + last;
    }
  }

  /** At a token boundary the expansion of a concatenation is the concatenation of the
      expansions, and fails exactly when the second part does. */
  lemma ExpansionComposes(u: Unicode, a: string, b: string, lookup: Lookup)
    requires Joins(u, a, b)
    ensures Expansion(u, a + b, lookup) ==
            match Expansion(u, b, lookup)
            case Err(e) => Err(e)
            case Ok(v) => Ok(Expansion(u, a, lookup).value + v)
  {
    hide ReadToken, TokenOk;
    var ts := Tokens(u, a).value;
    TokensSound(u, a);
    TokensInFront(u, ts, b);
    if Tokens(u, b).Ok? {
      ValuesAppend(ts, Tokens(u, b).value, lookup);
    }
  }

  function Escape(s: string): string {
    if s == [] then "" else (if s[0] == '$' then "$$" else [s[0]]) + Escape(s[1..])
  }

  /** Doubling every dollar sign is undone by expansion. */
  lemma {:induction false} EscapeInverse(u: Unicode, s: string, lookup: Lookup)
    ensures Expansion(u, Escape(s), lookup) == Ok(s)
  {
    if s != [] {
      var t := if s[0] == '$' then Doubled else Plain(s[0]);
      EscapeInverse(u, s[1..], lookup);
      ReadTokenComplete(u, t, Escape(s[1..]));
      assert Escape(s) == Text(t) + Escape(s[1..]);
      assert (Text(t) + Escape(s[1..]))[|Text(t)|..] == Escape(s[1..]);
      assert s == [s[0]] + s[1..];
      assert Tokens(u, Escape(s)) == Ok([t] + Tokens(u, Escape(s[1..])).value);
    }
  }

  lemma {:induction false} NoDollars(s: string)
    requires '$' !in s
    ensures Escape(s) == s
  {
    if s != [] {
      NoDollars(s[1..]);
    }
  }

  /** service-lib.nix: where services keep their state. */
  const STATE_DIR := "${" + "DINIX_STATE_DIR" + ":-" + "/var/lib" + "}"

  /** A service's state directory expands to the base the operator chose, or /var/lib when
      that is unset or empty, followed by the service's own part. */
  lemma StateDirExpands(u: Unicode, name: string, lookup: Lookup)
    requires '$' !in name
    ensures Expansion(u, STATE_DIR + "/" + name, lookup) == Ok(StateBase(lookup) + "/" + name)
  {
    hide Expansion, Joins, Escape;
    var tail := "/" + name;
    NoDollars(tail);
    EscapeInverse(u, tail, lookup);
    StateDirAlone(u, tail, lookup);
    ExpansionComposes(u, STATE_DIR, tail, lookup);
    assert STATE_DIR + "/" + name == STATE_DIR + tail;
    assert StateBase(lookup) + "/" + name == StateBase(lookup) + tail;
  }

  /** The base the operator chose, or /var/lib. */
  function StateBase(lookup: Lookup): string {
    var chosen := lookup("DINIX_STATE_DIR");
    if chosen.Some? && chosen.value != "" then chosen.value else "/var/lib"
  }

  lemma StateDirAlone(u: Unicode, tail: string, lookup: Lookup)
    ensures Expansion(u, STATE_DIR, lookup) == Ok(StateBase(lookup)) && Joins(u, STATE_DIR, tail)
  {
    hide Tokens, Value;
    var t := Braced("DINIX_STATE_DIR", ColonDash, "/var/lib");
    StateDirToken(u);
    StateDirValue(lookup);
    assert [t][1..] == [] && Values([], lookup) == "";
    assert Value(t, lookup) + "" == Value(t, lookup);
  }

  lemma StateDirValue(lookup: Lookup)
    ensures Value(Braced("DINIX_STATE_DIR", ColonDash, "/var/lib"), lookup) == StateBase(lookup)
  {
  }

  lemma OneToken(u: Unicode, t: Token)
    requires TokenOk(u, t)
    ensures Tokens(u, Text(t)) == Ok([t])
  {
    hide ReadToken, TokenOk, Text;
    EndPrecedesNothing(u);
    ReadTokenComplete(u, t, "");
    TokenNotEmpty(u, t);
    assert Text(t) + "" == Text(t) && Text(t)[|Text(t)|..] == "";
    assert Tokens(u, "") == Ok([]);
    assert [t] + [] == [t];
  }

  lemma CapitalsMakeNames(u: Unicode, s: string)
    requires s != "" && forall c | c in s :: 'A' <= c <= 'Z' || c == '_'
    ensures Name(u, s)
  {
    assert s[0] in s;
    assert forall i | 0 <= i < |s| :: s[i] in s;
    assert forall c: char | 'A' <= c <= 'Z' :: c < 128 as char && u.alphabetic(c);
  }

  lemma StateDirText()
    ensures Text(Braced("DINIX_STATE_DIR", ColonDash, "/var/lib")) == STATE_DIR
  {
  }

  lemma StateDirName(u: Unicode)
    ensures Name(u, "DINIX_STATE_DIR")
  {
    hide Name;
    CapitalsMakeNames(u, "DINIX_STATE_DIR");
  }

  lemma StateDirToken(u: Unicode)
    ensures Tokens(u, STATE_DIR) == Ok([Braced("DINIX_STATE_DIR", ColonDash, "/var/lib")])
  {
    hide Tokens, Text, Name;
    var t := Braced("DINIX_STATE_DIR", ColonDash, "/var/lib");
    StateDirName(u);
    StateDirText();
    var word := "/var/lib";
    assert '}' !in word;
    assert TokenOk(u, t);
    OneToken(u, t);
  }
}
