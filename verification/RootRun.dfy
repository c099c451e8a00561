// Paths as they are written, what root can always make of them, and inputs at which a run
// does not leave what it was asked for.

module RootRun {
  import opened Prelude
  import opened FileTree
  import opened InitRun
  import InitSpec
  import InitSpecText

  // ---- Paths as they are written ----

  function AsNames(names: seq<string>): (parts: seq<Component>)
    ensures |parts| == |names| && forall i | 0 <= i < |names| :: parts[i] == Name(names[i])
  {
    seq(|names|, i requires 0 <= i < |names| => Name(names[i]))
  }

  function AbsolutePath(names: seq<string>): FsPath { FsPath(true, AsNames(names), Plain) }

  lemma {:induction false} PartsOfNames(names: seq<string>)
    requires forall i | 0 <= i < |names| :: names[i] !in {"", ".", ".."}
    ensures PartsOf(names) == AsNames(names)
  {
    if names != [] {
      PartsOfNames(names[1..]);
      assert forall i | 0 <= i < |names| - 1 :: names[1..][i] == names[i + 1];
    }
  }

  /** An absolute path written with single slashes is walked name by name, and does not ask
      for a directory at its end. */
  lemma PathOfNames(names: seq<string>)
    requires names != []
    requires forall i | 0 <= i < |names| :: names[i] !in {"", ".", ".."} && InitSpecText.FreeOf(names[i], {'/'})
    ensures PathOf("/" + InitSpecText.Join(names, "/"))
            == AbsolutePath(names)
  {
    hide InitSpecText.FreeOf, InitSpecText.Join, InitSpec.Split, PartsOf, EndingOf;
    var fields := [""] + names;
    NamesAreSplit(names);
    PartsOfNames(names);
    FieldsOfNames(names);
    assert ("/" + InitSpecText.Join(names, "/"))[0] == '/';
  }

  lemma {:induction false} JoinBefore(names: seq<string>, last: string)
    requires names != []
    ensures InitSpecText.Join(names + [last], "/") == InitSpecText.Join(names, "/") + "/" + last
  {
    var longer := names + [last];
    if |names| == 1 {
      assert longer[1..] == [last];
      assert InitSpecText.Join(longer, "/") == names[0] + "/" + InitSpecText.Join([last], "/");
    } else {
      assert longer[1..] == names[1..] + [last] && longer[0] == names[0];
      JoinBefore(names[1..], last);
      assert names[0] + "/" + (InitSpecText.Join(names[1..], "/") + "/" + last)
             == (names[0] + "/" + InitSpecText.Join(names[1..], "/")) + "/" + last;
    }
  }

  lemma {:induction false} PartsBefore(names: seq<string>, last: string)
    requires last == "" || last == "."
    ensures PartsOf(names + [last]) == PartsOf(names)
  {
    var longer := names + [last];
    if names == [] {
      assert longer == [last] && longer[1..] == [];
    } else {
      assert longer[1..] == names[1..] + [last] && longer[0] == names[0];
      PartsBefore(names[1..], last);
    }
  }

  /** What stands between slashes, after a first one. */
  lemma PathOfFields(fields: seq<string>)
    requires fields != [] && forall i | 0 <= i < |fields| :: InitSpecText.FreeOf(fields[i], {'/'})
    ensures PathOf("/" + InitSpecText.Join(fields, "/"))
            == FsPath(true, PartsOf([""] + fields), EndingOf([""] + fields))
  {
    hide InitSpecText.FreeOf, InitSpecText.Join, InitSpec.Split, PartsOf, EndingOf;
    NamesAreSplit(fields);
    assert ("/" + InitSpecText.Join(fields, "/"))[0] == '/';
  }

  lemma AfterEmpty(fields: seq<string>)
    ensures PartsOf([""] + fields) == PartsOf(fields)
  {
    assert ([""] + fields)[1..] == fields && [] + PartsOf(fields) == PartsOf(fields);
  }

  lemma EndingAfter(fields: seq<string>)
    ensures EndingOf(fields + ["."]) == Dot
    ensures EndingOf(fields + ["."] + [""]) == Dot
    ensures fields != [] && fields[|fields| - 1] !in {"", "."} ==> EndingOf(fields + [""]) == Slash
  {
    var dotted := fields + ["."];
    assert (dotted + [""])[..|dotted|] == dotted && dotted[..|fields|] == fields;
    assert (fields + [""])[..|fields|] == fields;
  }

  /** The same path with a slash at its end asks for a directory there. */
  lemma PathOfNamesWithSlash(names: seq<string>)
    requires names != []
    requires forall i | 0 <= i < |names| :: names[i] !in {"", ".", ".."} && InitSpecText.FreeOf(names[i], {'/'})
    ensures PathOf("/" + InitSpecText.Join(names, "/") + "/") == FsPath(true, AsNames(names), Slash)
  {
    hide InitSpecText.FreeOf, InitSpecText.Join, PartsOf, EndingOf, PathOf;
    var text := InitSpecText.Join(names, "/");
    MoreFields(names, "");
    PathOfFields(names + [""]);
    JoinBefore(names, "");
    assert "/" + (text + "/" + "") == "/" + text + "/";
    PartsOfNames(names);
    AfterEmpty(names + [""]);
    PartsBefore(names, "");
    assert [""] + (names + [""]) == ([""] + names) + [""];
    EndingAfter([""] + names);
  }

  /** And so it does with a dot at its end; but such a path cannot be made, only found. */
  lemma PathOfNamesWithDot(names: seq<string>)
    requires names != []
    requires forall i | 0 <= i < |names| :: names[i] !in {"", ".", ".."} && InitSpecText.FreeOf(names[i], {'/'})
    ensures PathOf("/" + InitSpecText.Join(names, "/") + "/.") == FsPath(true, AsNames(names), Dot)
  {
    hide InitSpecText.FreeOf, InitSpecText.Join, PartsOf, EndingOf, PathOf;
    var text, dotted := InitSpecText.Join(names, "/"), names + ["."];
    MoreFields(names, ".");
    PathOfFields(dotted);
    JoinBefore(names, ".");
    assert "/" + (text + "/" + ".") == "/" + text + "/.";
    PartsOfNames(names);
    AfterEmpty(dotted);
    PartsBefore(names, ".");
    assert [""] + dotted == ([""] + names) + ["."];
    EndingAfter([""] + names);
  }

  /** With a slash behind the dot as well. */
  lemma PathOfNamesWithDotSlash(names: seq<string>)
    requires names != []
    requires forall i | 0 <= i < |names| :: names[i] !in {"", ".", ".."} && InitSpecText.FreeOf(names[i], {'/'})
    ensures PathOf("/" + InitSpecText.Join(names, "/") + "/./") == FsPath(true, AsNames(names), Dot)
  {
    hide InitSpecText.FreeOf, InitSpecText.Join, PartsOf, EndingOf, PathOf;
    var text, dotted := InitSpecText.Join(names, "/"), names + ["."];
    var fields := dotted + [""];
    MoreFields(names, ".");
    MoreFields(dotted, "");
    PathOfFields(fields);
    DotSlashText(names);
    PartsOfNames(names);
    AfterEmpty(fields);
    PartsBefore(names, ".");
    PartsBefore(dotted, "");
    assert [""] + fields == ([""] + names) + ["."] + [""];
    EndingAfter([""] + names);
  }

  lemma DotSlashText(names: seq<string>)
    requires names != []
    ensures "/" + InitSpecText.Join(names + ["."] + [""], "/") == "/" + InitSpecText.Join(names, "/") + "/./"
  {
    hide InitSpecText.Join;
    var text := InitSpecText.Join(names, "/");
    JoinBefore(names, ".");
    JoinBefore(names + ["."], "");
    assert "/" + ((text + "/" + ".") + "/" + "") == "/" + text + "/./";
  }

  lemma MoreFields(fields: seq<string>, last: string)
    requires last == "" || last == "."
    requires forall i | 0 <= i < |fields| :: InitSpecText.FreeOf(fields[i], {'/'})
    ensures forall i | 0 <= i <= |fields| :: InitSpecText.FreeOf((fields + [last])[i], {'/'})
  {
  }

  lemma FieldsOfNames(names: seq<string>)
    requires names != [] && names[|names| - 1] !in {"", "."}
    ensures PartsOf([""] + names) == PartsOf(names) && EndingOf([""] + names) == Plain
  {
    var fields := [""] + names;
    assert fields[1..] == names && fields[|fields| - 1] == names[|names| - 1];
    assert [] + PartsOf(names) == PartsOf(names);
  }

  lemma NamesAreSplit(names: seq<string>)
    requires names != [] && forall i | 0 <= i < |names| :: InitSpecText.FreeOf(names[i], {'/'})
    ensures InitSpec.Split("/" + InitSpecText.Join(names, "/"), '/') == [""] + names
  {
    hide InitSpec.Split, InitSpecText.Join, InitSpecText.FreeOf;
    var fields := [""] + names;
    NothingInEmpty('/');
    forall i | 0 <= i < |fields|
      ensures InitSpecText.FreeOf(fields[i], {'/'})
    {
      assert fields[i] == if i == 0 then "" else names[i - 1];
    }
    InitSpecText.SplitOfJoin(fields, '/');
    JoinAfterEmpty(names);
  }

  lemma NothingInEmpty(c: char)
    ensures InitSpecText.FreeOf("", {c})
  {
  }

  lemma JoinAfterEmpty(names: seq<string>)
    requires names != []
    ensures InitSpecText.Join([""] + names, ['/']) == "/" + InitSpecText.Join(names, "/")
  {
    var fields := [""] + names;
    assert fields[0] == "" && fields[1..] == names && |fields| > 1;
    var rest := InitSpecText.Join(fields[1..], "/");
    assert InitSpecText.Join(fields, "/") == fields[0] + "/" + rest;
    assert "" + "/" == "/";
  }

  /** The directory to make before a path: the path without its last name; none before the root,
      and none but where one stands before a single relative name. */
  lemma ParentOfNames(names: seq<string>)
    requires names != []
    ensures Parent(AbsolutePath(names)) == Some(AbsolutePath(names[..|names| - 1]))
    ensures Parent(AbsolutePath([])) == None
    ensures Parent(FsPath(false, AsNames(names), Plain))
            == Some(if |names| == 1 then Empty else FsPath(false, AsNames(names[..|names| - 1]), Plain))
    ensures Parent(FsPath(false, [], Dot)) == Some(Empty)
  {
    assert AsNames(names)[..|names| - 1] == AsNames(names[..|names| - 1]);
  }

  // ---- What root can always make ----

  /** What there is already on the way from `base` along `names` is directories. */
  ghost predicate ClearWay(t: Tree, base: Key, names: seq<string>) {
    forall i | 0 <= i <= |names| && base + names[..i] in t :: t[base + names[..i]].Directory?
  }

  function Start(cwd: Key, p: FsPath): Key
    requires p.FsPath?
  {
    if p.absolute then [] else cwd
  }

  /** A path, absolute or not, whose first part leads to the directory `base`, through links and
      up and down, and goes on from there by names with nothing but directories in the way. */
  ghost predicate Reachable(t: Tree, cwd: Key, p: FsPath, before: seq<Component>, base: Key, names: seq<string>) {
    && p.FsPath? && p.ending != Dot && names != [] && p.parts == before + AsNames(names)
    && Walk(t, Start(cwd, p), before + [Here], true, MAX_LINKS) == Ok(base)
    && ClearWay(t, base, names)
  }

  lemma {:induction false} MissingBelow(t: Tree, base: Key, names: seq<string>, i: nat)
    requires WellFormed(t) && i <= |names| && base + names[..i] !in t
    ensures base + names !in t
    decreases |names|
  {
    if i < |names| {
      var above := names[..|names| - 1];
      assert above[..i] == names[..i] && (base + names)[..|base + names| - 1] == base + above;
      MissingBelow(t, base, above, i);
    } else {
      assert names[..i] == names;
    }
  }

  /** From `base`, name by name, to a directory or to what is not there. */
  lemma {:induction false} WalkClear(t: Tree, base: Key, names: seq<string>, i: nat, links: nat)
    requires WellFormed(t) && ClearWay(t, base, names) && i <= |names| && base + names[..i] in t
    ensures Walk(t, base + names[..i], AsNames(names[i..]) + [Here], true, links)
            == if base + names in t then Ok(base + names) else Err(ENOENT)
    decreases |names| - i
  {
    hide Walk, WellFormed, AsNames;
    var at := base + names[..i];
    ClearHere(t, base, names, i);
    if i == |names| {
      NoNames(names);
      WalkNothing(t, at, links);
    } else {
      var rest := AsNames(names[i + 1..]) + [Here];
      ClearHere(t, base, names, i + 1);
      NextName(names, i);
      WalkName(t, at, names[i], rest, links);
      hide ClearWay;
      if base + names[..i + 1] in t {
        WalkClear(t, base, names, i + 1, links);
      } else {
        MissingBelow(t, base, names, i + 1);
      }
    }
  }

  lemma ClearHere(t: Tree, base: Key, names: seq<string>, i: nat)
    requires ClearWay(t, base, names) && i <= |names|
    ensures base + names[..i] in t ==> IsDirectory(t, base + names[..i])
    ensures i > 0 ==> base + names[..i - 1] + [names[i - 1]] == base + names[..i]
  {
  }

  lemma NoNames(names: seq<string>)
    ensures names[..|names|] == names && AsNames(names[|names|..]) + [Here] == [Here]
  {
  }

  lemma NextName(names: seq<string>, i: nat)
    requires i < |names|
    ensures AsNames(names[i..]) + [Here] == [Name(names[i])] + (AsNames(names[i + 1..]) + [Here])
  {
  }

  lemma WalkNothing(t: Tree, at: Key, links: nat)
    requires IsDirectory(t, at)
    ensures Walk(t, at, [Here], true, links) == Ok(at)
  {
  }

  lemma WalkName(t: Tree, at: Key, n: string, rest: seq<Component>, links: nat)
    requires IsDirectory(t, at) && rest != [] && (at + [n] in t ==> !t[at + [n]].Link?)
    ensures Walk(t, at, [Name(n)] + rest, true, links)
            == if at + [n] in t then Walk(t, at + [n], rest, true, links) else Err(ENOENT)
  {
    assert ([Name(n)] + rest)[1..] == rest;
  }

  /** A walk that gets to a directory goes on from there, with what links it has left. */
  lemma {:induction false} WalkOn(t: Tree, at: Key, before: seq<Component>, base: Key, rest: seq<Component>,
                                  links: nat, r: Result<Key, Errno>)
    requires Walk(t, at, before + [Here], true, links) == Ok(base) && rest != []
    requires forall n: nat :: Walk(t, base, rest, true, n) == r
    ensures Walk(t, at, before + rest, true, links) == r
    decreases links, |before|
  {
    if before == [] {
      assert before + [Here] == [Here] && before + rest == rest;
    } else {
      assert (before + [Here])[1..] == before[1..] + [Here] && (before + rest)[1..] == before[1..] + rest;
      match before[0]
      case Here => WalkOn(t, at, before[1..], base, rest, links, r);
      case Up => WalkOn(t, if at == [] then [] else at[..|at| - 1], before[1..], base, rest, links, r);
      case Name(n) =>
        var next := at + [n];
        if !t[next].Link? {
          WalkOn(t, next, before[1..], base, rest, links, r);
        } else {
          var target := t[next].target;
          var onward := Steps(target) + before[1..];
          assert onward + [Here] == Steps(target) + (before[1..] + [Here]);
          assert onward + rest == Steps(target) + (before[1..] + rest);
          WalkOn(t, if target.absolute then [] else at, onward, base, rest, links - 1, r);
        }
    }
  }

  /** The directory that is to hold the last name, if it is there. */
  lemma AboveIsFound(t: Tree, cwd: Key, p: FsPath, before: seq<Component>, base: Key, names: seq<string>)
    requires WellFormed(t) && Reachable(t, cwd, p, before, base, names)
    ensures
      var last, above := |p.parts| - 1, base + names[..|names| - 1];
      && p.parts != [] && p.parts[last] == Name(names[|names| - 1])
      && Walk(t, Start(cwd, p), p.parts[..last] + [Here], true, MAX_LINKS)
         == (if above in t then Ok(above) else Err(ENOENT))
      && (above in t ==> IsDirectory(t, above))
      && above + [names[|names| - 1]] == base + names
  {
    hide Walk, WellFormed;
    var last, above := |p.parts| - 1, names[..|names| - 1];
    PrefixIsClear(t, base, names);
    BaseIsDirectory(t, Start(cwd, p), before, base);
    assert p.parts[..last] + [Here] == before + (AsNames(above) + [Here]);
    assert above[..0] == [] && above[0..] == above && base + [] == base;
    forall n: nat
      ensures
        Walk(t, base, AsNames(above) + [Here], true, n)
        == if base + above in t then Ok(base + above) else Err(ENOENT)
    {
      WalkClear(t, base, above, 0, n);
    }
    WalkOn(t, Start(cwd, p), before, base, AsNames(above) + [Here], MAX_LINKS,
           if base + above in t then Ok(base + above) else Err(ENOENT));
    assert above == above[..|above|];
    assert base + above + [names[|names| - 1]] == base + names;
  }

  lemma BaseIsDirectory(t: Tree, at: Key, before: seq<Component>, base: Key)
    requires Walk(t, at, before + [Here], true, MAX_LINKS) == Ok(base)
    ensures IsDirectory(t, base)
  {
    ReachesADirectory(t, at, before, MAX_LINKS);
  }

  lemma PrefixIsClear(t: Tree, base: Key, names: seq<string>)
    requires ClearWay(t, base, names) && names != []
    ensures ClearWay(t, base, names[..|names| - 1])
    ensures base + names in t ==> t[base + names].Directory?
  {
    var above := names[..|names| - 1];
    assert forall i | 0 <= i <= |above| :: above[..i] == names[..i];
    assert names[..|names|] == names;
  }

  /** Where the whole way is there, stat and lstat find the directory at its end. */
  lemma EndIsFound(t: Tree, cwd: Key, p: FsPath, before: seq<Component>, base: Key, names: seq<string>)
    requires WellFormed(t) && Reachable(t, cwd, p, before, base, names) && base + names in t
    ensures LinkStat(t, cwd, p) == Ok(base + names) && IsDir(t, cwd, p) && t[base + names].Directory?
  {
    hide Walk, Find, WellFormed, ClearWay, IsDir;
    AboveIsFound(t, cwd, p, before, base, names);
    PrefixIsClear(t, base, names);
    PrefixIsThere(t, base, names, |names| - 1);
    LastIsFound(t, cwd, p, base + names[..|names| - 1], names[|names| - 1]);
  }

  lemma LastIsFound(t: Tree, cwd: Key, p: FsPath, above: Key, n: string)
    requires p.FsPath? && p.ending != Dot && p.parts != [] && p.parts[|p.parts| - 1] == Name(n)
    requires Walk(t, Start(cwd, p), p.parts[..|p.parts| - 1] + [Here], true, MAX_LINKS) == Ok(above)
    requires IsDirectory(t, above + [n])
    ensures LinkStat(t, cwd, p) == Ok(above + [n]) && IsDir(t, cwd, p)
  {
    hide Walk;
    var last, after := |p.parts| - 1, if p.ending == Plain then [] else [Here];
    assert Steps(p) == p.parts[..last] + [Name(n)] + after;
    WalkInto(t, Start(cwd, p), p.parts[..last], n, after, false, MAX_LINKS);
    WalkInto(t, Start(cwd, p), p.parts[..last], n, after, true, MAX_LINKS);
  }

  lemma PrefixIsThere(t: Tree, base: Key, names: seq<string>, i: nat)
    requires WellFormed(t) && i <= |names| && base + names in t
    ensures base + names[..i] in t
  {
    if base + names[..i] !in t {
      MissingBelow(t, base, names, i);
    }
  }

  lemma MkdirReachable(t: Tree, a: Account, cwd: Key, p: FsPath, before: seq<Component>, base: Key, names: seq<string>)
    requires WellFormed(t) && Reachable(t, cwd, p, before, base, names)
    requires forall tree, k :: a.mayAdd(tree, k)
    ensures
      var made := Mkdir(t, a, cwd, p);
      if base + names in t then made == Err(EEXIST) && IsDir(t, cwd, p)
      else if base + names[..|names| - 1] in t then made.Ok? && base + names in made.value
      else made == Err(ENOENT)
  {
    hide Walk, WellFormed, IsDir, Reachable;
    ReachableIsPath(t, cwd, p, before, base, names);
    AboveIsFound(t, cwd, p, before, base, names);
    if base + names in t {
      PrefixIsThere(t, base, names, |names| - 1);
      EndIsFound(t, cwd, p, before, base, names);
    }
  }

  lemma ReachableIsPath(t: Tree, cwd: Key, p: FsPath, before: seq<Component>, base: Key, names: seq<string>)
    requires Reachable(t, cwd, p, before, base, names)
    ensures p.FsPath? && p.ending != Dot && names != []
  {
  }

  lemma ClearLater(t: Tree, later: Tree, base: Key, names: seq<string>)
    requires ClearWay(t, base, names) && Extends(t, later)
    ensures ClearWay(later, base, names)
  {
    forall i | 0 <= i <= |names| && base + names[..i] in later
      ensures later[base + names[..i]].Directory?
    {
      if base + names[..i] in t {
        assert SameShape(t[base + names[..i]], later[base + names[..i]]);
      }
    }
  }

  lemma ReachableLater(t: Tree, later: Tree, cwd: Key, p: FsPath, before: seq<Component>, base: Key, names: seq<string>)
    requires Reachable(t, cwd, p, before, base, names) && Extends(t, later)
    ensures Reachable(later, cwd, p, before, base, names)
  {
    hide Walk, Extends, ClearWay;
    WalkIsStable(t, later, Start(cwd, p), before + [Here], true, MAX_LINKS);
    ClearLater(t, later, base, names);
  }

  /** The path without its last name, where there is another one before that. */
  lemma ParentIsReachable(t: Tree, cwd: Key, p: FsPath, before: seq<Component>, base: Key, names: seq<string>)
    requires Reachable(t, cwd, p, before, base, names) && |names| > 1
    ensures Parent(p).Some? && Reachable(t, cwd, Parent(p).value, before, base, names[..|names| - 1])
  {
    hide Walk, ClearWay;
    assert p.parts[..|p.parts| - 1] == before + AsNames(names[..|names| - 1]);
    PrefixIsClear(t, base, names);
  }

  /** create_dir_all makes every directory of the way that is missing. */
  lemma {:induction false} CreateDirAllReaches(t: Tree, a: Account, cwd: Key, p: FsPath, before: seq<Component>,
                                               base: Key, names: seq<string>)
    requires WellFormed(t) && Reachable(t, cwd, p, before, base, names)
    requires forall tree, k :: a.mayAdd(tree, k)
    ensures
      var after := CreateDirAll(t, a, cwd, p);
      after.error.None? && base + names in after.tree
    decreases |names|
  {
    hide Mkdir, IsDir, Parent, WellFormed, Reachable, Extends;
    ReachableIsPath(t, cwd, p, before, base, names);
    MkdirReachable(t, a, cwd, p, before, base, names);
    var above := names[..|names| - 1];
    if base + names !in t && base + above !in t {
      OneNameHasBase(t, cwd, p, before, base, names);
      ParentIsReachable(t, cwd, p, before, base, names);
      var q := Parent(p).value;
      CreateDirAllReaches(t, a, cwd, q, before, base, above);
      CreateDirAllExtends(t, a, cwd, q);
      CreateDirAllKeepsForm(t, a, cwd, q);
      var made := CreateDirAll(t, a, cwd, q).tree;
      ReachableLater(t, made, cwd, p, before, base, names);
      MkdirReachable(made, a, cwd, p, before, base, names);
    }
  }

  lemma OneNameHasBase(t: Tree, cwd: Key, p: FsPath, before: seq<Component>, base: Key, names: seq<string>)
    requires Reachable(t, cwd, p, before, base, names)
    ensures |names| > 1 || base + names[..|names| - 1] in t
  {
    BaseIsDirectory(t, Start(cwd, p), before, base);
    if |names| == 1 {
      assert base + names[..0] == base;
    }
  }

  /** Root, where nothing but directories is in the way, gets a path made and set as asked, with
      all the directories on the way; and it is where the path led. */
  lemma RootSucceeds(t: Tree, a: Account, cwd: Key, step: InitSpec.Step, before: seq<Component>, base: Key,
                     names: seq<string>)
    requires WellFormed(t) && step.Dir? && step.mode < 0x1000
    requires a.root && forall tree, k :: a.mayAdd(tree, k)
    requires Reachable(t, cwd, PathOf(step.path), before, base, names)
    ensures
      var done := Apply(t, a, cwd, step);
      && done.error.None? && Holds(done.tree, cwd, step) && Names(done.tree, cwd, step, base + names)
      && forall i | 0 <= i <= |names| :: IsDirectory(done.tree, base + names[..i])
  {
    hide CreateDirAll, PathOf, Walk, WellFormed, ClearWay, Reachable, Extends;
    var p := PathOf(step.path);
    CreateDirAllReaches(t, a, cwd, p, before, base, names);
    CreateDirAllExtends(t, a, cwd, p);
    CreateDirAllKeepsForm(t, a, cwd, p);
    var made := CreateDirAll(t, a, cwd, p).tree;
    ReachableLater(t, made, cwd, p, before, base, names);
    EndIsFound(made, cwd, p, before, base, names);
    ApplyEstablishes(t, a, cwd, step);
    ApplyExtends(t, a, cwd, step);
    ApplyKeepsForm(t, a, cwd, step);
    SettleExtends(made, a, base + names, step.mode, step.uid, step.gid);
    var after := Apply(t, a, cwd, step).tree;
    ReachableLater(t, after, cwd, p, before, base, names);
    EndIsFound(after, cwd, p, before, base, names);
    ReachableIsClear(after, cwd, p, before, base, names);
    AllTheWay(after, base, names);
  }

  lemma AllTheWay(t: Tree, base: Key, names: seq<string>)
    requires WellFormed(t) && ClearWay(t, base, names) && base + names in t
    ensures forall i | 0 <= i <= |names| :: IsDirectory(t, base + names[..i])
  {
    hide WellFormed;
    forall i | 0 <= i <= |names|
      ensures IsDirectory(t, base + names[..i])
    {
      PrefixIsThere(t, base, names, i);
    }
  }

  lemma ReachableIsClear(t: Tree, cwd: Key, p: FsPath, before: seq<Component>, base: Key, names: seq<string>)
    requires Reachable(t, cwd, p, before, base, names)
    ensures ClearWay(t, base, names)
  {
  }

  /** As every absolute path of names is, with nothing but directories in its way. */
  lemma NamesAreReachable(t: Tree, cwd: Key, names: seq<string>)
    requires WellFormed(t) && names != [] && ClearWay(t, [], names)
    ensures Reachable(t, cwd, AbsolutePath(names), [], [], names)
  {
    assert [] + [Here] == [Here] && [] + AsNames(names) == AsNames(names);
  }

  /** And who may not add to the directory above fails, and leaves the tree as it was. */
  lemma NobodyMayAdd(t: Tree, a: Account, cwd: Key, step: InitSpec.Step, before: seq<Component>, base: Key,
                     names: seq<string>)
    requires WellFormed(t) && step.Dir? && Reachable(t, cwd, PathOf(step.path), before, base, names)
    requires base + names !in t && base + names[..|names| - 1] in t && !a.mayAdd(t, base + names[..|names| - 1])
    ensures Apply(t, a, cwd, step) == Done(t, Some(Creating(EACCES)))
  {
    hide Walk, WellFormed, Reachable, PathOf, IsDir;
    var p := PathOf(step.path);
    AboveIsFound(t, cwd, p, before, base, names);
    ReachableIsPath(t, cwd, p, before, base, names);
    assert Mkdir(t, a, cwd, p) == Err(EACCES);
    hide Mkdir;
    NothingThere(t, cwd, p, base, names);
  }

  lemma NothingThere(t: Tree, cwd: Key, p: FsPath, base: Key, names: seq<string>)
    requires p.FsPath? && p.parts != [] && p.parts[|p.parts| - 1].Name? && names != [] && base + names !in t
    requires p.parts[|p.parts| - 1] == Name(names[|names| - 1])
    requires
      Walk(t, Start(cwd, p), p.parts[..|p.parts| - 1] + [Here], true, MAX_LINKS) == Ok(base + names[..|names| - 1])
    requires base + names[..|names| - 1] + [names[|names| - 1]] == base + names
    ensures !IsDir(t, cwd, p)
  {
    hide Walk;
    var last, after := |p.parts| - 1, if p.ending == Plain then [] else [Here];
    assert Steps(p) == p.parts[..last] + [Name(names[|names| - 1])] + after;
    if IsDir(t, cwd, p) {
      WalkThrough(t, Start(cwd, p), p.parts[..last], names[|names| - 1], after, true, MAX_LINKS);
    }
  }

  /** Where such a path leads. */
  lemma DestinationIsForeseen(t: Tree, cwd: Key, p: FsPath, before: seq<Component>, base: Key, names: seq<string>)
    requires WellFormed(t) && Reachable(t, cwd, p, before, base, names)
    ensures Destination(t, cwd, p) == Ok(base + names)
  {
    hide WellFormed, Reachable, Destination, Find, CreateDirAll, Extends;
    CreateDirAllReaches(t, Root(), cwd, p, before, base, names);
    CreateDirAllExtends(t, Root(), cwd, p);
    CreateDirAllKeepsForm(t, Root(), cwd, p);
    var made := CreateDirAll(t, Root(), cwd, p).tree;
    ReachableLater(t, made, cwd, p, before, base, names);
    EndIsFound(made, cwd, p, before, base, names);
    DestinationComesTrue(t, made, cwd, p);
  }

  // ---- A whole spec, judged before it is run ----

  /** What root can be asked for in `t`: a check that passes, a path that lstat finds a directory
      at, or one that nothing is in the way of. */
  ghost predicate Makeable(t: Tree, cwd: Key, step: InitSpec.Step) {
    match step
    case MustExist(_, _) => Holds(t, cwd, step)
    case Dir(path, _, _, _) =>
      || (LinkStat(t, cwd, PathOf(path)).Ok? && t[LinkStat(t, cwd, PathOf(path)).value].Directory?)
      || exists before, base, names :: Reachable(t, cwd, PathOf(path), before, base, names)
  }

  lemma MakeableLater(t: Tree, later: Tree, cwd: Key, step: InitSpec.Step)
    requires Extends(t, later) && Makeable(t, cwd, step)
    ensures Makeable(later, cwd, step)
  {
    hide PathOf, Extends, CheckExists, Find, Reachable;
    match step
    case MustExist(path, kind) => CheckIsStable(t, later, cwd, PathOf(path), kind);
    case Dir(path, _, _, _) =>
      if LinkStat(t, cwd, PathOf(path)).Ok? && t[LinkStat(t, cwd, PathOf(path)).value].Directory? {
        FindIsStable(t, later, cwd, PathOf(path), false);
        StaysDirectory(t, later, LinkStat(t, cwd, PathOf(path)).value);
      } else {
        var before, base, names :| Reachable(t, cwd, PathOf(path), before, base, names);
        ReachableLater(t, later, cwd, PathOf(path), before, base, names);
      }
  }

  lemma StaysDirectory(t: Tree, later: Tree, k: Key)
    requires Extends(t, later) && IsDirectory(t, k)
    ensures IsDirectory(later, k)
  {
    assert SameShape(t[k], later[k]);
  }

  /** What is there already root only has to set. */
  lemma RootSettles(t: Tree, a: Account, cwd: Key, step: InitSpec.Step)
    requires a.root && step.Dir?
    requires LinkStat(t, cwd, PathOf(step.path)).Ok? && t[LinkStat(t, cwd, PathOf(step.path)).value].Directory?
    ensures Apply(t, a, cwd, step).error.None?
  {
    hide CreateDirAll, PathOf, Find;
    StatAgrees(t, cwd, PathOf(step.path));
    NothingToMake(t, a, cwd, PathOf(step.path), false);
  }

  lemma RootMakes(t: Tree, a: Account, cwd: Key, step: InitSpec.Step)
    requires WellFormed(t) && a.root && (forall tree, k :: a.mayAdd(tree, k)) && Makeable(t, cwd, step)
    ensures Apply(t, a, cwd, step).error.None?
  {
    hide WellFormed, PathOf, CheckExists, Find, CreateDirAll, Reachable;
    if step.Dir? {
      var p := PathOf(step.path);
      if LinkStat(t, cwd, p).Ok? && t[LinkStat(t, cwd, p).value].Directory? {
        RootSettles(t, a, cwd, step);
      } else {
        var before, base, names :| Reachable(t, cwd, p, before, base, names);
        CreateDirAllReaches(t, a, cwd, p, before, base, names);
        CreateDirAllExtends(t, a, cwd, p);
        CreateDirAllKeepsForm(t, a, cwd, p);
        var made := CreateDirAll(t, a, cwd, p).tree;
        ReachableLater(t, made, cwd, p, before, base, names);
        EndIsFound(made, cwd, p, before, base, names);
      }
    }
  }

  lemma {:induction false} RootRuns(t: Tree, a: Account, cwd: Key, steps: seq<InitSpec.Step>)
    requires WellFormed(t) && a.root && forall tree, k :: a.mayAdd(tree, k)
    requires forall i | 0 <= i < |steps| :: Makeable(t, cwd, steps[i])
    ensures Run(t, a, cwd, steps).error.None?
    decreases |steps|
  {
    hide Apply, Makeable, WellFormed, Extends;
    if steps != [] {
      var first := Apply(t, a, cwd, steps[0]);
      RootMakes(t, a, cwd, steps[0]);
      ApplyExtends(t, a, cwd, steps[0]);
      ApplyKeepsForm(t, a, cwd, steps[0]);
      forall i | 0 <= i < |steps| - 1
        ensures Makeable(first.tree, cwd, steps[1..][i])
      {
        MakeableLater(t, first.tree, cwd, steps[i + 1]);
      }
      RootRuns(first.tree, a, cwd, steps[1..]);
    }
  }

  /** A spec judged by the tree it starts from: run by root, with nothing in the way of its
      paths, it succeeds; it leaves everything it asks for exactly when it is compatible with that
      tree; and then anyone can run it again and nothing happens. */
  lemma RootRunsSpec(t: Tree, a: Account, cwd: Key, steps: seq<InitSpec.Step>)
    requires WellFormed(t) && a.root && forall tree, k :: a.mayAdd(tree, k)
    requires forall i | 0 <= i < |steps| :: Makeable(t, cwd, steps[i])
    ensures
      var r := Run(t, a, cwd, steps);
      && r.error.None?
      && ((forall i | 0 <= i < |steps| :: Holds(r.tree, cwd, steps[i])) <==> Compatible(t, cwd, steps))
      && (Compatible(t, cwd, steps) ==> forall b :: Run(r.tree, b, cwd, steps) == Outcome(r.tree, None, None))
  {
    hide Run, Holds, Compatible, WellFormed, Makeable;
    RootRuns(t, a, cwd, steps);
    SuccessMeansAllHold(t, a, cwd, steps);
    SecondRunDoesNothing(t, a, cwd, steps);
  }

  // ---- What goes wrong, at an input each ----

  /** A root directory with a directory /d of mode 0700 and a link /l to it. */
  function Small(): Tree {
    map[[] := Directory(0x1ed, 0, 0),
        ["d"] := Directory(0x1c0, 0, 0),
        ["l"] := Link(FsPath(true, [Name("d")], Plain))]
  }

  function Root(): Account { Account(0, 0, true, 0x1ed, (_, _) => true) }

  /** Small, with another mode for /d. */
  function WithMode(mode: Mode): Tree { Small()[["d"] := Directory(mode, 0, 0)] }

  lemma PathOfOne(name: string)
    requires name !in {"", ".", ".."} && InitSpecText.FreeOf(name, {'/'})
    ensures PathOf("/" + name) == FsPath(true, [Name(name)], Plain)
    ensures PathOf("/" + name + "/") == FsPath(true, [Name(name)], Slash)
  {
    hide PathOf;
    PathOfNames([name]);
    PathOfNamesWithSlash([name]);
    assert AsNames([name]) == [Name(name)];
  }

  lemma SmallPaths()
    ensures PathOf("/d") == FsPath(true, [Name("d")], Plain)
    ensures PathOf("/l/") == FsPath(true, [Name("l")], Slash)
  {
    PathOfOne("d");
    PathOfOne("l");
    hide PathOf;
    assert "/" + "d" == "/d" && "/" + "l" + "/" == "/l/";
  }

  /** /d is found in every tree that has it. */
  lemma DirectoryIsThere(t: Tree, mode: Mode)
    requires t == WithMode(mode)
    ensures
      var p := FsPath(true, [Name("d")], Plain);
      LinkStat(t, [], p) == Stat(t, [], p) == Ok(["d"]) && IsDir(t, [], p)
  {
    assert [] + ["d"] == ["d"];
    assert Steps(FsPath(true, [Name("d")], Plain)) == [Name("d")];
  }

  /** A `dir` step on /d, as root. */
  lemma OnDirectory(mode: Mode, wanted: U32)
    ensures
      var t := WithMode(mode);
      var p := FsPath(true, [Name("d")], Plain);
      ApplyDir(t, Root(), [], p, wanted, None, None)
      == Done(WithMode(if mode == wanted then mode else wanted % 0x1000), None)
  {
    var t, p := WithMode(mode), FsPath(true, [Name("d")], Plain);
    DirectoryIsThere(t, mode);
    NothingToMake(t, Root(), [], p, false);
    hide Find, CreateDirAll, IsDir;
    assert t[["d"] := Directory(wanted % 0x1000, 0, 0)] == WithMode(wanted % 0x1000);
  }

  /** Run by root, `dir /l/ 0755 - -` sets the mode of /d, where the link /l leads. */
  lemma SlashReachesThroughLink()
    ensures Apply(Small(), Root(), [], InitSpec.Dir("/l/", 0x1ed, None, None)) == Done(WithMode(0x1ed), None)
  {
    SmallPaths();
    var t, p := Small(), FsPath(true, [Name("l")], Slash);
    LinkLeadsToDirectory();
    hide PathOf;
    LinkIsRefusedExactly(t, Root(), [], InitSpec.Dir("/l/", 0x1ed, None, None));
    hide Find, Apply;
    assert t[["d"] := Directory(0x1ed, 0, 0)] == WithMode(0x1ed);
  }

  lemma LinkLeadsToDirectory()
    ensures
      var t, p := Small(), FsPath(true, [Name("l")], Slash);
      EndsInLink(t, [], p) && IsDir(t, [], p) && Stat(t, [], p) == Ok(["d"])
  {
    var t, p := Small(), FsPath(true, [Name("l")], Slash);
    assert [] + ["d"] == ["d"] && [] + ["l"] == ["l"];
    assert p.parts[..0] + [Here] == [Here] && Steps(p) == [Name("l"), Here];
    assert Steps(t[["l"]].target) + [Here] == [Name("d"), Here];
    assert [Name("l"), Here][1..] == [Here] && [Name("d"), Here][1..] == [Here];
    assert Walk(t, ["d"], [Here], true, 39) == Ok(["d"]);
    assert Walk(t, [], [Name("d"), Here], true, 39) == Ok(["d"]);
  }

  /** What a `dir` step on /d leaves, and whether it holds. */
  lemma StepOnDirectory(mode: Mode, wanted: U32)
    ensures
      Apply(WithMode(mode), Root(), [], InitSpec.Dir("/d", wanted, None, None))
      == Done(WithMode(if mode == wanted then mode else wanted % 0x1000), None)
    ensures Holds(WithMode(mode), [], InitSpec.Dir("/d", wanted, None, None)) <==> mode == wanted
  {
    SmallPaths();
    OnDirectory(mode, wanted);
    DirectoryIsThere(WithMode(mode), mode);
    hide PathOf, ApplyDir, Find;
  }

  lemma TwoSteps(t: Tree, one: InitSpec.Step, middle: Tree, other: InitSpec.Step, after: Tree)
    requires Apply(t, Root(), [], one) == Done(middle, None)
    requires Apply(middle, Root(), [], other) == Done(after, None)
    ensures Run(t, Root(), [], [one, other]) == Outcome(after, None, None)
  {
    hide Apply, Root;
    assert [one, other][1..] == [other] && [other][1..] == [];
    assert Run(after, Root(), [], []) == Outcome(after, None, None);
    assert Run(middle, Root(), [], [other]) == Outcome(after, None, None);
  }

  /** `dir /d 10755 - -` succeeds, and /d does not have the mode asked for: it cannot. */
  lemma TooManyModeBits()
    ensures
      var step := InitSpec.Dir("/d", 0x11ed, None, None);
      var done := Apply(Small(), Root(), [], step);
      done == Done(WithMode(0x1ed), None) && !Holds(done.tree, [], step)
  {
    SmallIsSmall();
    hide Small, WithMode, Root, Apply, Holds;
    StepOnDirectory(0x1c0, 0x11ed);
    StepOnDirectory(0x1ed, 0x11ed);
  }

  lemma SmallIsSmall()
    ensures WithMode(0x1c0) == Small()
  {
  }

  /** A link that leads to itself: following it takes all the links there are to be followed. */
  lemma {:induction false} GoesRound(links: nat)
    ensures Walk(Round(), [], [Name("l")], true, links) == Err(ELOOP)
  {
    assert [] + ["l"] == ["l"];
    if links > 0 {
      GoesRound(links - 1);
      assert Steps(Round()[["l"]].target) + [Name("l")][1..] == [Name("l")];
    }
  }

  function Round(): Tree {
    map[[] := Directory(0x1ed, 0, 0), ["l"] := Link(FsPath(true, [Name("l")], Plain))]
  }

  /** A check on it does not say that something is missing. */
  lemma LoopIsNotMissing(kind: InitSpec.Kind)
    ensures Apply(Round(), Root(), [], InitSpec.MustExist("/l", kind)) == Done(Round(), Some(Checking(ELOOP)))
  {
    PathOfOne("l");
    assert "/" + "l" == "/l";
    hide PathOf, Find, Round;
    FoundRound();
  }

  lemma FoundRound()
    ensures Stat(Round(), [], FsPath(true, [Name("l")], Plain)) == Err(ELOOP)
  {
    hide Walk, Round;
    GoesRound(MAX_LINKS);
    assert Steps(FsPath(true, [Name("l")], Plain)) == [Name("l")];
  }

  /** Two steps that disagree about /d both succeed, and the first does not hold afterwards. */
  lemma LaterStepWins()
    ensures
      var one, other := InitSpec.Dir("/d", 0x1c0, None, None), InitSpec.Dir("/d", 0x1ed, None, None);
      var r := Run(Small(), Root(), [], [one, other]);
      r == Outcome(WithMode(0x1ed), None, None) && !Holds(r.tree, [], one) && Holds(r.tree, [], other)
  {
    hide Small, WithMode, Root, Apply, Holds, Run;
    TwoStepsRun();
    StepOnDirectory(0x1ed, 0x1c0);
    StepOnDirectory(0x1ed, 0x1ed);
  }

  function OnD(wanted: U32): InitSpec.Step { InitSpec.Dir("/d", wanted, None, None) }

  lemma StepOnD(mode: Mode, wanted: Mode)
    ensures Apply(WithMode(mode), Root(), [], OnD(wanted)) == Done(WithMode(wanted), None)
  {
    hide WithMode, Root, Apply;
    StepOnDirectory(mode, wanted);
  }

  lemma TwoStepsRun()
    ensures
      var one, other := InitSpec.Dir("/d", 0x1c0, None, None), InitSpec.Dir("/d", 0x1ed, None, None);
      Run(Small(), Root(), [], [one, other]) == Outcome(WithMode(0x1ed), None, None)
  {
    assert OnD(0x1c0) == InitSpec.Dir("/d", 0x1c0, None, None) && OnD(0x1ed) == InitSpec.Dir("/d", 0x1ed, None, None);
    SmallIsSmall();
    hide OnD, Small, WithMode, Root, Apply, Run;
    StepOnD(0x1c0, 0x1c0);
    StepOnD(0x1c0, 0x1ed);
    TwoSteps(Small(), OnD(0x1c0), Small(), OnD(0x1ed), WithMode(0x1ed));
  }
}
