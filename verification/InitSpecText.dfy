// The writer of init.spec, in Nix, and the reader, in Rust, undo each other.

module InitSpecText {
  import opened Prelude
  import opened InitSpec
  import Attrs
  import Expand

  // ---- The configuration ----

  datatype Required = Required(path: string, kind: Kind)
  datatype Wanted = Wanted(path: string, mode: string, uid: Option<int>, gid: Option<int>)

  datatype Entry = Check(required: Required) | Make(wanted: Wanted)

  // ---- Rendering ----

  /** concatStringsSep */
  function Join(parts: seq<string>, separator: string): string {
    if parts == [] then ""
    else if |parts| == 1 then parts[0]
    else parts[0] + separator + Join(parts[1..], separator)
  }

  /** concatLines */
  function ConcatLines(lines: seq<string>): string {
    if lines == [] then "" else lines[0] + "\n" + ConcatLines(lines[1..])
  }

  function Digit(d: nat): (c: char)
    requires d < 10
    ensures '0' <= c <= '9' && c as int == '0' as int + d
  {
    ('0' as int + d) as char
  }

  function Digits(n: nat, radix: nat): (s: string)
    requires 2 <= radix <= 10
    ensures s != "" && AllDigits(s, radix) && Worth(s, radix) == n
  {
    if n < radix then
      OneMoreDigit("", n, radix);
      assert "" + [Digit(n)] == [Digit(n)];
      [Digit(n)]
    else
      Quotient(n, radix);
      var s := Digits(n / radix, radix);
      OneMoreDigit(s, n % radix, radix);
      s + [Digit(n % radix)]
  }

  lemma Quotient(n: nat, radix: nat)
    requires 2 <= radix <= n
    ensures 0 <= n / radix < n && 0 <= n % radix < radix && radix * (n / radix) + n % radix == n
  {
  }

  lemma OneMoreDigit(s: string, d: nat, radix: nat)
    requires 2 <= radix <= 10 && AllDigits(s, radix) && d < radix
    ensures AllDigits(s + [Digit(d)], radix)
    ensures Worth(s + [Digit(d)], radix) == radix * Worth(s, radix) + d
  {
    assert (s + [Digit(d)])[..|s|] == s;
  }

  function ToString(n: int): string {
    if n < 0 then "-" + Digits(-n, 10) else Digits(n, 10)
  }

  function KindName(kind: Kind): string {
    match kind
    case Any => "any"
    case Directory => "dir"
    case File => "file"
  }

  function IdText(id: Option<int>): string {
    if id.None? then "-" else ToString(id.value)
  }

  function Fields(e: Entry): (fields: seq<string>)
    ensures fields != []
  {
    match e
    case Check(r) => ["must-exist", r.path, KindName(r.kind)]
    case Make(w) => ["dir", w.path, w.mode, IdText(w.uid), IdText(w.gid)]
  }

  function EntryLine(e: Entry): string { Join(Fields(e), "\t") }

  function EntryLines(entries: seq<Entry>): seq<string> {
    seq(|entries|, i requires 0 <= i < |entries| => EntryLine(entries[i]))
  }

  const HEADER := "# Generated by dinix. " + "See dinix-init/src/spec.rs."

  function Rendered(entries: seq<Entry>): string {
    ConcatLines([HEADER] + EntryLines(entries))
  }

  function AsChecks(list: seq<Required>): (entries: seq<Entry>)
    ensures |entries| == |list|
    ensures forall i | 0 <= i < |list| :: entries[i] == Check(list[i])
  {
    seq(|list|, i requires 0 <= i < |list| => Check(list[i]))
  }

  function AsMakes(list: seq<Wanted>): (entries: seq<Entry>)
    ensures |entries| == |list|
    ensures forall i | 0 <= i < |list| :: entries[i] == Make(list[i])
  {
    seq(|list|, i requires 0 <= i < |list| => Make(list[i]))
  }

  /** Checks first, then directories, each in the order of the attribute names. */
  ghost function Entries(mustExist: map<string, Required>, dirs: map<string, Wanted>): seq<Entry> {
    AsChecks(Attrs.Listing(mustExist)) + AsMakes(Attrs.Listing(dirs))
  }

  ghost function InitSpecText(mustExist: map<string, Required>, dirs: map<string, Wanted>): string {
    Rendered(Entries(mustExist, dirs))
  }

  // ---- What an entry asks for ----

  predicate IsId(id: Option<int>) { id.None? || 0 <= id.value < 0x1_0000_0000 }

  function AsId(id: Option<int>): Option<U32>
    requires IsId(id)
  {
    if id.None? then None else Some(id.value)
  }

  function IdOf(id: Option<int>): Result<Option<U32>, Reason> {
    if IsId(id) then Ok(AsId(id)) else Err(NotAnId(IdText(id)))
  }

  function Meaning(u: Expand.Unicode, lookup: Expand.Lookup, e: Entry): Result<Step, Reason> {
    match e
    case Check(r) =>
      var path :- ParsePath(u, lookup, r.path);
      Ok(MustExist(path, r.kind))
    case Make(w) =>
      var path :- ParsePath(u, lookup, w.path);
      var mode :- ParseMode(w.mode);
      var uid :- IdOf(w.uid);
      var gid :- IdOf(w.gid);
      Ok(Dir(path, mode, uid, gid))
  }

  function Meanings(u: Expand.Unicode, lookup: Expand.Lookup, entries: seq<Entry>, before: nat)
    : Result<seq<Step>, ParseError>
  {
    if entries == [] then Ok([])
    else
      match Meaning(u, lookup, entries[0])
      case Err(reason) => Err(ParseError(before + 1, reason))
      case Ok(step) =>
        var steps :- Meanings(u, lookup, entries[1..], before + 1);
        Ok([step] + steps)
  }

  predicate FreeOf(s: string, stops: set<char>) { forall i | 0 <= i < |s| :: s[i] !in stops }

  predicate Printable(e: Entry) {
    match e
    case Check(r) => FreeOf(r.path, {'\t', '\n'})
    case Make(w) => FreeOf(w.path, {'\t', '\n'}) && FreeOf(w.mode, {'\t', '\n'})
  }

  // ---- Numbers survive ----

  lemma DigitsAreNumbers(s: string, radix: nat)
    requires 2 <= radix <= 10 && s != "" && AllDigits(s, radix)
    ensures FreeOf(s, {'\t', '\n', '\r', '+', '-'})
    ensures FromStrRadix(s, radix) == if Worth(s, radix) < 0x1_0000_0000 then Some(Worth(s, radix)) else None
  {
    assert IsDigit(s[0], radix);
    forall i | 0 <= i < |s|
      ensures s[i] !in {'\t', '\n', '\r', '+', '-'}
    {
      assert IsDigit(s[i], radix);
    }
  }

  lemma {:induction false} LeadingZeros(zeros: string, s: string, radix: nat)
    requires 2 <= radix <= 10 && AllDigits(s, radix)
    requires forall i | 0 <= i < |zeros| :: zeros[i] == '0'
    ensures AllDigits(zeros + s, radix) && Worth(zeros + s, radix) == Worth(s, radix)
    decreases |s|, |zeros|
  {
    assert forall i | 0 <= i < |zeros + s| :: (zeros + s)[i] == if i < |zeros| then '0' else s[i - |zeros|];
    if s != "" {
      var shorter := s[..|s| - 1];
      LeadingZeros(zeros, shorter, radix);
      assert (zeros + s)[..|zeros + s| - 1] == zeros + shorter;
    } else if zeros != "" {
      assert zeros + s == zeros && zeros[..|zeros| - 1] + s == zeros[..|zeros| - 1];
      LeadingZeros(zeros[..|zeros| - 1], s, radix);
    }
  }

  /** Every mode below 2^32, written in octal with any number of leading zeros, is read back. */
  lemma ModeRecovered(mode: U32, zeros: string)
    requires forall i | 0 <= i < |zeros| :: zeros[i] == '0'
    ensures ParseMode(zeros + Digits(mode, 8)) == Ok(mode)
    ensures FreeOf(zeros + Digits(mode, 8), {'\t', '\n'})
  {
    var s := zeros + Digits(mode, 8);
    LeadingZeros(zeros, Digits(mode, 8), 8);
    DigitsAreNumbers(s, 8);
  }

  lemma IdTextIsText(id: Option<int>)
    ensures IdText(id) != "" && FreeOf(IdText(id), {'\t', '\n', '\r'})
  {
    if id.Some? {
      DigitsAreNumbers(Digits(if id.value < 0 then -id.value else id.value, 10), 10);
    }
  }

  /** Owners are read back when they fit, and refused when they do not. */
  lemma IdRecovered(id: Option<int>)
    ensures ParseId(IdText(id)) == IdOf(id)
  {
    if id.Some? && id.value >= 0 {
      var s := Digits(id.value, 10);
      DigitsAreNumbers(s, 10);
      assert s[0] != '-';
    } else if id.Some? {
      var s := IdText(id);
      assert s[0] == '-' && |s| > 1;
      assert !IsDigit(s[0], 10);
    }
  }

  // ---- Text survives ----

  lemma FirstPart(first: string, c: char, rest: string)
    requires FreeOf(first, {c})
    ensures Expand.FindAny(first, {c}) == |first|
    ensures
      var s := first + [c] + rest;
      Expand.FindAny(s, {c}) == |first| && s[..|first|] == first && s[|first| + 1..] == rest
  {
    var s := first + [c] + rest;
    assert forall i | 0 <= i < |first| :: s[i] == first[i];
    Expand.FindAnyIs(s, {c}, |first|);
    Expand.FindAnyIs(first, {c}, |first|);
  }

  lemma {:induction false} SplitOfJoin(fields: seq<string>, separator: char)
    requires fields != [] && forall i | 0 <= i < |fields| :: FreeOf(fields[i], {separator})
    ensures Split(Join(fields, [separator]), separator) == fields
  {
    hide FreeOf, Expand.FindAny;
    var rest := Join(fields[1..], [separator]);
    FirstPart(fields[0], separator, rest);
    if |fields| == 1 {
      assert fields == [fields[0]];
    } else {
      SplitOfJoin(fields[1..], separator);
    }
  }

  lemma {:induction false} LinesOfConcat(lines: seq<string>)
    requires forall i | 0 <= i < |lines| :: FreeOf(lines[i], {'\n'})
    ensures Lines(ConcatLines(lines)) == lines
  {
    hide FreeOf, Expand.FindAny;
    if lines != [] {
      FirstPart(lines[0], '\n', ConcatLines(lines[1..]));
      LinesOfConcat(lines[1..]);
    }
  }

  lemma {:induction false} JoinIsFree(fields: seq<string>, stops: set<char>)
    requires '\t' !in stops && forall i | 0 <= i < |fields| :: FreeOf(fields[i], stops)
    ensures FreeOf(Join(fields, "\t"), stops)
  {
    if |fields| > 1 {
      JoinIsFree(fields[1..], stops);
      assert FreeOf(fields[0], stops);
      var s, first, rest := Join(fields, "\t"), fields[0], Join(fields[1..], "\t");
      assert forall i | 0 <= i < |s| ::
        s[i] == if i < |first| then first[i] else if i == |first| then '\t' else rest[i - |first| - 1];
    }
  }

  lemma {:induction false} JoinEndsAsLast(fields: seq<string>, separator: string)
    requires fields != [] && fields[|fields| - 1] != ""
    ensures
      var s, last := Join(fields, separator), fields[|fields| - 1];
      s != "" && s[|s| - 1] == last[|last| - 1]
  {
    if |fields| > 1 {
      assert fields[1..][|fields| - 2] == fields[|fields| - 1];
      JoinEndsAsLast(fields[1..], separator);
    }
  }

  lemma FieldsAreFree(e: Entry)
    requires Printable(e)
    ensures forall i | 0 <= i < |Fields(e)| :: FreeOf(Fields(e)[i], {'\t'}) && FreeOf(Fields(e)[i], {'\n'})
  {
    match e
    case Check(r) =>
    case Make(w) =>
      IdTextIsText(w.uid);
      IdTextIsText(w.gid);
  }

  /** A line is read as the fields it was made of. */
  lemma EntryLineIsRead(e: Entry)
    requires Printable(e)
    ensures FreeOf(EntryLine(e), {'\n'})
    ensures Trimmed(EntryLine(e)) == EntryLine(e) && !Skipped(EntryLine(e))
    ensures Split(EntryLine(e), '\t') == Fields(e)
  {
    var fields, line := Fields(e), EntryLine(e);
    FieldsAreFree(e);
    JoinIsFree(fields, {'\n'});
    SplitOfJoin(fields, '\t');
    EndsWell(e);
    JoinEndsAsLast(fields, "\t");
    assert line[0] == fields[0][0];
  }

  lemma EndsWell(e: Entry)
    ensures
      var last := Fields(e)[|Fields(e)| - 1];
      last != "" && last[|last| - 1] != '\r'
  {
    if e.Make? {
      IdTextIsText(e.wanted.gid);
    }
  }

  lemma EntryIsUnderstood(u: Expand.Unicode, lookup: Expand.Lookup, e: Entry)
    ensures StepOf(u, lookup, Fields(e)) == Meaning(u, lookup, e)
  {
    hide ParsePath, ParseMode, ParseId, IdOf, IdText;
    match e
    case Check(r) =>
    case Make(w) =>
      IdRecovered(w.uid);
      IdRecovered(w.gid);
  }

  lemma {:induction false} EntriesAreUnderstood(u: Expand.Unicode, lookup: Expand.Lookup, entries: seq<Entry>,
                                               before: nat)
    requires forall i | 0 <= i < |entries| :: Printable(entries[i])
    ensures StepsFrom(u, lookup, EntryLines(entries), before) == Meanings(u, lookup, entries, before)
    decreases |entries|
  {
    hide StepOf, Split, Trimmed, Skipped, Meaning, EntryLine, Printable, Fields;
    if entries != [] {
      EntryLineIsRead(entries[0]);
      EntryIsUnderstood(u, lookup, entries[0]);
      assert EntryLines(entries)[1..] == EntryLines(entries[1..]);
      EntriesAreUnderstood(u, lookup, entries[1..], before + 1);
    }
  }

  lemma HeaderIsSkipped()
    ensures FreeOf(HEADER, {'\n'}) && Skipped(Trimmed(HEADER))
  {
    var one, two := "# Generated by dinix. ", "See dinix-init/src/spec.rs.";
    assert one[0] == '#' && '\n' !in one;
    assert two[|two| - 1] == '.' && '\n' !in two;
    assert HEADER == one + two;
    assert forall i | 0 <= i < |HEADER| :: HEADER[i] in HEADER;
  }

  /** Reading what was written gives what every entry asks for, in order, or the first
      complaint there is about one, with the number of its line. */
  lemma RenderedIsUnderstood(u: Expand.Unicode, lookup: Expand.Lookup, entries: seq<Entry>)
    requires forall i | 0 <= i < |entries| :: Printable(entries[i])
    ensures Parse(u, lookup, Rendered(entries)) == Meanings(u, lookup, entries, 1)
  {
    hide Printable, EntryLine, Skipped, Trimmed;
    var lines := [HEADER] + EntryLines(entries);
    HeaderIsSkipped();
    forall i | 0 <= i < |lines|
      ensures FreeOf(lines[i], {'\n'})
    {
      if i > 0 {
        EntryLineIsRead(entries[i - 1]);
      }
    }
    LinesOfConcat(lines);
    assert lines[1..] == EntryLines(entries) && lines[0] == HEADER;
    EntriesAreUnderstood(u, lookup, entries, 1);
  }

  // ---- The round trip ----

  predicate GoodPath(u: Expand.Unicode, lookup: Expand.Lookup, path: string) {
    path != "" && Expand.Expansion(u, path, lookup).Ok?
  }

  predicate Good(u: Expand.Unicode, lookup: Expand.Lookup, e: Entry) {
    match e
    case Check(r) => GoodPath(u, lookup, r.path)
    case Make(w) => GoodPath(u, lookup, w.path) && FromStrRadix(w.mode, 8).Some? && IsId(w.uid) && IsId(w.gid)
  }

  function Asked(u: Expand.Unicode, lookup: Expand.Lookup, e: Entry): Step
    requires Good(u, lookup, e)
  {
    match e
    case Check(r) => MustExist(Expand.Expansion(u, r.path, lookup).value, r.kind)
    case Make(w) =>
      Dir(Expand.Expansion(u, w.path, lookup).value, FromStrRadix(w.mode, 8).value, AsId(w.uid), AsId(w.gid))
  }

  lemma {:induction false} MeaningsOfGood(u: Expand.Unicode, lookup: Expand.Lookup, entries: seq<Entry>, before: nat)
    ensures
      var r := Meanings(u, lookup, entries, before);
      && (r.Ok? <==> forall i | 0 <= i < |entries| :: Good(u, lookup, entries[i]))
      && (r.Ok? ==> |r.value| == |entries|
                    && forall i | 0 <= i < |entries| :: r.value[i] == Asked(u, lookup, entries[i]))
      && (r.Err? ==> before < r.error.lineNumber <= before + |entries|
                     && !Good(u, lookup, entries[r.error.lineNumber - before - 1])
                     && forall i | 0 <= i < r.error.lineNumber - before - 1 :: Good(u, lookup, entries[i]))
    decreases |entries|
  {
    hide Expand.Expansion, FromStrRadix, IsId;
    if entries != [] {
      MeaningOfGood(u, lookup, entries[0]);
      hide Meaning, Good, Asked;
      MeaningsOfGood(u, lookup, entries[1..], before + 1);
      var r := Meanings(u, lookup, entries, before);
      var rest := Meanings(u, lookup, entries[1..], before + 1);
      assert forall i | 0 < i < |entries| :: entries[i] == entries[1..][i - 1];
      if Good(u, lookup, entries[0]) && rest.Ok? {
        assert r.value == [Asked(u, lookup, entries[0])] + rest.value;
      }
    }
  }

  lemma MeaningOfGood(u: Expand.Unicode, lookup: Expand.Lookup, e: Entry)
    ensures Meaning(u, lookup, e).Ok? <==> Good(u, lookup, e)
    ensures Good(u, lookup, e) ==> Meaning(u, lookup, e) == Ok(Asked(u, lookup, e))
  {
    hide Expand.Expansion, FromStrRadix, IsId;
  }

  ghost predicate PrintableConfig(mustExist: map<string, Required>, dirs: map<string, Wanted>) {
    && (forall k | k in mustExist :: Printable(Check(mustExist[k])))
    && (forall k | k in dirs :: Printable(Make(dirs[k])))
  }

  lemma EntriesArePrintable(mustExist: map<string, Required>, dirs: map<string, Wanted>)
    requires PrintableConfig(mustExist, dirs)
    ensures
      var entries := Entries(mustExist, dirs);
      forall i | 0 <= i < |entries| :: Printable(entries[i])
  {
    hide Printable;
    var entries := Entries(mustExist, dirs);
    var checks, makes := Attrs.Listing(mustExist), Attrs.Listing(dirs);
    forall i | 0 <= i < |entries|
      ensures Printable(entries[i])
    {
      if i < |checks| {
        assert checks[i] in checks && checks[i] in mustExist.Values;
      } else {
        assert makes[i - |checks|] in makes && makes[i - |checks|] in dirs.Values;
      }
    }
  }

  /** The generated spec is accepted exactly when every path expands, every mode is octal and
      every owner fits; it then asks for the checks and the directories of the configuration,
      one step for each, checks first and each in the order of their names; and otherwise the
      line complained about is that of the first entry which is at fault. */
  lemma RoundTrip(u: Expand.Unicode, lookup: Expand.Lookup, mustExist: map<string, Required>, dirs: map<string, Wanted>)
    requires PrintableConfig(mustExist, dirs)
    ensures
      var r := Parse(u, lookup, InitSpecText(mustExist, dirs));
      var entries := Entries(mustExist, dirs);
      && (r.Ok? <==> forall i | 0 <= i < |entries| :: Good(u, lookup, entries[i]))
      && (r.Ok? ==>
            && |r.value| == |entries| == |mustExist| + |dirs|
            && (forall i | 0 <= i < |entries| :: r.value[i] == Asked(u, lookup, entries[i]))
            && (forall i | 0 <= i < |entries| :: r.value[i].MustExist? <==> i < |mustExist|))
      && (r.Err? ==>
            && 2 <= r.error.lineNumber < |entries| + 2
            && !Good(u, lookup, entries[r.error.lineNumber - 2])
            && forall i | 0 <= i < r.error.lineNumber - 2 :: Good(u, lookup, entries[i]))
  {
    hide Good, Asked, Printable, PrintableConfig, Parse, Meanings, Rendered, AsChecks, AsMakes, Attrs.Listing;
    var entries := Entries(mustExist, dirs);
    var checks, makes := Attrs.Listing(mustExist), Attrs.Listing(dirs);
    EntriesArePrintable(mustExist, dirs);
    RenderedIsUnderstood(u, lookup, entries);
    MeaningsOfGood(u, lookup, entries, 1);
    ChecksComeFirst(checks, makes);
    var r := Parse(u, lookup, InitSpecText(mustExist, dirs));
    if r.Ok? {
      forall i | 0 <= i < |entries|
        ensures r.value[i].MustExist? <==> i < |mustExist|
      {
        AskedKind(u, lookup, entries[i]);
      }
    }
  }

  /** The step that asks for the check configured under `name`. */
  lemma CheckOfName(u: Expand.Unicode, lookup: Expand.Lookup, mustExist: map<string, Required>,
                    dirs: map<string, Wanted>, name: string)
    returns (at: nat)
    requires PrintableConfig(mustExist, dirs) && name in mustExist
    requires Parse(u, lookup, InitSpecText(mustExist, dirs)).Ok?
    ensures
      var steps := Parse(u, lookup, InitSpecText(mustExist, dirs)).value;
      var path := Expand.Expansion(u, mustExist[name].path, lookup);
      && at < |mustExist| <= |steps| && path.Ok?
      && steps[at] == MustExist(path.value, mustExist[name].kind)
      && forall i | 0 <= i < |mustExist| :: steps[i].MustExist?
  {
    hide Good, Asked, PrintableConfig, Parse, Rendered, AsChecks, AsMakes, Attrs.Listing, Expand.Expansion;
    RoundTrip(u, lookup, mustExist, dirs);
    var checks, makes := Attrs.Listing(mustExist), Attrs.Listing(dirs);
    ChecksComeFirst(checks, makes);
    assert mustExist[name] in mustExist.Values;
    at :| 0 <= at < |checks| && checks[at] == mustExist[name];
    AskedForCheck(u, lookup, mustExist[name]);
  }

  lemma AskedForCheck(u: Expand.Unicode, lookup: Expand.Lookup, r: Required)
    requires Good(u, lookup, Check(r))
    ensures Expand.Expansion(u, r.path, lookup).Ok?
    ensures Asked(u, lookup, Check(r)) == MustExist(Expand.Expansion(u, r.path, lookup).value, r.kind)
  {
  }

  /** How the three kinds of check are written. */
  lemma CheckLines(path: string)
    ensures EntryLine(Check(Required(path, Any))) == "must-exist\t" + path + "\tany"
    ensures EntryLine(Check(Required(path, Directory))) == "must-exist\t" + path + "\tdir"
    ensures EntryLine(Check(Required(path, File))) == "must-exist\t" + path + "\tfile"
  {
    forall word
      ensures Join(["must-exist", path, word], "\t") == "must-exist\t" + path + "\t" + word
    {
      assert ["must-exist", path, word][1..] == [path, word] && [path, word][1..] == [word];
      assert Join([path, word], "\t") == path + "\t" + word;
      assert "must-exist" + "\t" + (path + "\t" + word) == "must-exist\t" + path + "\t" + word;
    }
  }

  lemma AskedKind(u: Expand.Unicode, lookup: Expand.Lookup, e: Entry)
    requires Good(u, lookup, e)
    ensures Asked(u, lookup, e).MustExist? <==> e.Check?
  {
  }

  lemma ChecksComeFirst(checks: seq<Required>, makes: seq<Wanted>)
    ensures
      var entries := AsChecks(checks) + AsMakes(makes);
      && |entries| == |checks| + |makes|
      && (forall i | 0 <= i < |checks| :: entries[i] == Check(checks[i]))
      && (forall j | |checks| <= j < |entries| :: entries[j] == Make(makes[j - |checks|]))
  {
    hide AsChecks, AsMakes;
  }
}
