// A file tree with directories, files and symbolic links, and the calls dinix-init makes on it.

module FileTree {
  import opened Prelude
  import InitSpec

  type U32 = InitSpec.U32

  // ---- Paths ----

  /** One name of a path; `Here` stands for what a trailing slash or dot asks for: a directory. */
  datatype Component = Name(name: string) | Up | Here

  datatype Ending = Plain | Slash | Dot

  datatype FsPath = Empty | FsPath(absolute: bool, parts: seq<Component>, ending: Ending)

  function PartsOf(fields: seq<string>): seq<Component> {
    if fields == [] then []
    else
      (if fields[0] == "" || fields[0] == "." then []
       else if fields[0] == ".." then [Up]
       else [Name(fields[0])]) + PartsOf(fields[1..])
  }

  function EndingOf(fields: seq<string>): Ending {
    if fields == [] then Plain
    else if fields[|fields| - 1] == "." then Dot
    else if fields[|fields| - 1] != "" then Plain
    else if EndingOf(fields[..|fields| - 1]) == Dot then Dot
    else Slash
  }

  function PathOf(s: string): FsPath {
    if s == "" then Empty
    else
      var fields := InitSpec.Split(s, '/');
      FsPath(s[0] == '/', PartsOf(fields), EndingOf(fields))
  }

  /** The components the kernel walks. */
  function Steps(p: FsPath): seq<Component>
    requires p.FsPath?
  {
    p.parts + if p.ending == Plain then [] else [Here]
  }

  /** Path::parent, which is about the text only. */
  function Parent(p: FsPath): Option<FsPath>
    requires p.FsPath?
  {
    if p.parts == [] then (if p.absolute then None else Some(Empty))
    else if |p.parts| == 1 && !p.absolute then Some(Empty)
    else Some(FsPath(p.absolute, p.parts[..|p.parts| - 1], Plain))
  }

  // ---- Trees ----

  /** Where a node is: the names from the root down to it, with no link among them. */
  type Key = seq<string>

  type Mode = n: int | 0 <= n < 0x1000

  datatype Node =
    | Directory(mode: Mode, uid: U32, gid: U32)
    | File(mode: Mode, uid: U32, gid: U32)
    | Link(target: FsPath)

  type Tree = map<Key, Node>

  predicate IsDirectory(t: Tree, k: Key) { k in t && t[k].Directory? }

  ghost predicate WellFormed(t: Tree) {
    && IsDirectory(t, [])
    && forall k | k in t && k != [] :: IsDirectory(t, k[..|k| - 1])
  }

  datatype Errno = ENOENT | EEXIST | ENOTDIR | ELOOP | EACCES | EPERM | EINVAL

  /** How many links the kernel follows in one walk. */
  const MAX_LINKS: nat := 40

  function Walk(t: Tree, at: Key, parts: seq<Component>, follow: bool, links: nat): (r: Result<Key, Errno>)
    ensures r.Ok? && parts != [] ==> r.value in t
    decreases links, |parts|
  {
    if parts == [] then Ok(at)
    else if !IsDirectory(t, at) then Err(ENOTDIR)
    else
      match parts[0]
      case Here => if |parts| == 1 then Ok(at) else Walk(t, at, parts[1..], follow, links)
      case Up =>
        var above := if at == [] then [] else at[..|at| - 1];
        if |parts| > 1 then Walk(t, above, parts[1..], follow, links)
        else if above in t then Ok(above) else Err(ENOENT)
      case Name(n) =>
        var next := at + [n];
        if next !in t then Err(ENOENT)
        else if !t[next].Link? then
          if |parts| == 1 then Ok(next) else Walk(t, next, parts[1..], follow, links)
        else if |parts| == 1 && !follow then Ok(next)
        else if links == 0 then Err(ELOOP)
        else if t[next].target.Empty? then Err(ENOENT)
        else
          var target := t[next].target;
          var onward := Steps(target) + parts[1..];
          var start := if target.absolute then [] else at;
          if onward == [] then (if start in t then Ok(start) else Err(ENOENT))
          else Walk(t, start, onward, follow, links - 1)
  }

  function Find(t: Tree, cwd: Key, p: FsPath, follow: bool): (r: Result<Key, Errno>)
    ensures r.Ok? ==> r.value in t
  {
    if p.Empty? then Err(ENOENT)
    else
      var start := if p.absolute then [] else cwd;
      var parts := Steps(p);
      if parts == [] then (if start in t then Ok(start) else Err(ENOENT))
      else Walk(t, start, parts, follow, MAX_LINKS)
  }

  /** stat */
  function Stat(t: Tree, cwd: Key, p: FsPath): (r: Result<Key, Errno>)
    ensures r.Ok? ==> r.value in t
  {
    Find(t, cwd, p, true)
  }

  /** lstat: the last component is not followed. */
  function LinkStat(t: Tree, cwd: Key, p: FsPath): (r: Result<Key, Errno>)
    ensures r.Ok? ==> r.value in t
  {
    Find(t, cwd, p, false)
  }

  predicate IsDir(t: Tree, cwd: Key, p: FsPath) {
    var found := Stat(t, cwd, p);
    found.Ok? && t[found.value].Directory?
  }

  // ---- Calls ----

  /** Who runs, and what the kernel lets them do: any rule for who may add to a directory,
      and what a directory they make starts out with. */
  datatype Account = Account(uid: U32, gid: U32, root: bool, newMode: Mode, mayAdd: (Tree, Key) -> bool)

  /** mkdir */
  function Mkdir(t: Tree, a: Account, cwd: Key, p: FsPath): Result<Tree, Errno> {
    if p.Empty? then Err(ENOENT)
    else if p.parts == [] || p.ending == Dot || !p.parts[|p.parts| - 1].Name? then
      var found :- Find(t, cwd, p, true);
      Err(EEXIST)
    else
      var start := if p.absolute then [] else cwd;
      var last := |p.parts| - 1;
      var above :- Walk(t, start, p.parts[..last] + [Here], true, MAX_LINKS);
      var k := above + [p.parts[last].name];
      if k in t then Err(EEXIST)
      else if !a.mayAdd(t, above) then Err(EACCES)
      else Ok(t[k := Directory(a.newMode, a.uid, a.gid)])
  }

  /** chmod; only the lower twelve bits of the mode are looked at. */
  function Chmod(t: Tree, a: Account, k: Key, mode: U32): Result<Tree, Errno>
    requires k in t && !t[k].Link?
  {
    if a.root || t[k].uid == a.uid then Ok(t[k := t[k].(mode := mode % 0x1000)]) else Err(EPERM)
  }

  /** chown; an owner that is not given stays. */
  function Chown(t: Tree, a: Account, k: Key, uid: Option<U32>, gid: Option<U32>): Result<Tree, Errno>
    requires k in t && !t[k].Link?
  {
    if !a.root then Err(EPERM)
    else
      var node := t[k].(uid := if uid.Some? then uid.value else t[k].uid);
      Ok(t[k := node.(gid := if gid.Some? then gid.value else node.gid)])
  }

  function Size(p: FsPath): nat { if p.Empty? then 0 else 1 + |p.parts| }

  datatype Attempt = Attempt(tree: Tree, error: Option<Errno>)

  /** create_dir_all of Rust's standard library. */
  function CreateDirAll(t: Tree, a: Account, cwd: Key, p: FsPath): Attempt
    decreases Size(p)
  {
    if p.Empty? then Attempt(t, None)
    else
      match Mkdir(t, a, cwd, p)
      case Ok(made) => Attempt(made, None)
      case Err(e) =>
        if e != ENOENT then Attempt(t, if IsDir(t, cwd, p) then None else Some(e))
        else if Parent(p).None? then Attempt(t, Some(EINVAL))
        else
          var above := CreateDirAll(t, a, cwd, Parent(p).value);
          if above.error.Some? then above
          else
            match Mkdir(above.tree, a, cwd, p)
            case Ok(made) => Attempt(made, None)
            case Err(e) => Attempt(above.tree, if IsDir(above.tree, cwd, p) then None else Some(e))
  }

  // ---- Steps only add to the tree ----

  predicate SameShape(before: Node, after: Node) { before == after || (before.Directory? && after.Directory?) }

  /** Nothing goes away, links and files stay as they are, and all that is new is directories. */
  ghost predicate Extends(before: Tree, after: Tree) {
    && (forall k | k in before :: k in after && SameShape(before[k], after[k]))
    && (forall k | k in after && k !in before :: after[k].Directory?)
  }

  lemma ExtendsIsTransitive(a: Tree, b: Tree, c: Tree)
    requires Extends(a, b) && Extends(b, c)
    ensures Extends(a, c)
  {
    forall k | k in c && k !in a
      ensures c[k].Directory?
    {
      if k in b {
        assert b[k].Directory?;
      }
    }
  }

  /** A path that leads somewhere leads there in every extension of the tree. */
  lemma {:induction false} WalkIsStable(t: Tree, later: Tree, at: Key, parts: seq<Component>, follow: bool, links: nat)
    requires Extends(t, later) && Walk(t, at, parts, follow, links).Ok?
    ensures Walk(later, at, parts, follow, links) == Walk(t, at, parts, follow, links)
    decreases links, |parts|
  {
    if parts != [] {
      assert IsDirectory(later, at);
      match parts[0]
      case Here =>
        if |parts| > 1 {
          WalkIsStable(t, later, at, parts[1..], follow, links);
        }
      case Up =>
        if |parts| > 1 {
          WalkIsStable(t, later, if at == [] then [] else at[..|at| - 1], parts[1..], follow, links);
        }
      case Name(n) =>
        var next := at + [n];
        assert SameShape(t[next], later[next]);
        if !t[next].Link? {
          if |parts| > 1 {
            WalkIsStable(t, later, next, parts[1..], follow, links);
          }
        } else if |parts| > 1 || follow {
          var target := t[next].target;
          var onward := Steps(target) + parts[1..];
          if onward != [] {
            WalkIsStable(t, later, if target.absolute then [] else at, onward, follow, links - 1);
          }
        }
    }
  }

  lemma FindIsStable(t: Tree, later: Tree, cwd: Key, p: FsPath, follow: bool)
    requires Extends(t, later) && Find(t, cwd, p, follow).Ok?
    ensures Find(later, cwd, p, follow) == Find(t, cwd, p, follow)
  {
    var start := if p.absolute then [] else cwd;
    if Steps(p) != [] {
      WalkIsStable(t, later, start, Steps(p), follow, MAX_LINKS);
    }
  }

  // ---- Where a path will lead ----

  /** Where lstat will find a path once all that is missing on its way has been made: a name
      that is not there is taken for a directory. */
  function Lead(t: Tree, at: Key, parts: seq<Component>, links: nat): Result<Key, Errno>
    decreases links, |parts|
  {
    if parts == [] then Ok(at)
    else if at in t && !t[at].Directory? then Err(ENOTDIR)
    else
      match parts[0]
      case Here => Lead(t, at, parts[1..], links)
      case Up => Lead(t, if at == [] then [] else at[..|at| - 1], parts[1..], links)
      case Name(n) =>
        var next := at + [n];
        if next !in t || !t[next].Link? then Lead(t, next, parts[1..], links)
        else if |parts| == 1 then Ok(next)
        else if links == 0 then Err(ELOOP)
        else if t[next].target.Empty? then Err(ENOENT)
        else
          var target := t[next].target;
          Lead(t, if target.absolute then [] else at, Steps(target) + parts[1..], links - 1)
  }

  function Destination(t: Tree, cwd: Key, p: FsPath): Result<Key, Errno> {
    if p.Empty? then Err(ENOENT) else Lead(t, if p.absolute then [] else cwd, Steps(p), MAX_LINKS)
  }

  lemma {:induction false} LeadComesTrue(t: Tree, later: Tree, at: Key, parts: seq<Component>, links: nat)
    requires Extends(t, later) && Walk(later, at, parts, false, links).Ok?
    ensures Lead(t, at, parts, links) == Walk(later, at, parts, false, links)
    decreases links, |parts|
  {
    if parts != [] {
      assert at in t ==> SameShape(t[at], later[at]);
      match parts[0]
      case Here => LeadComesTrue(t, later, at, parts[1..], links);
      case Up => LeadComesTrue(t, later, if at == [] then [] else at[..|at| - 1], parts[1..], links);
      case Name(n) =>
        var next := at + [n];
        assert next in t ==> SameShape(t[next], later[next]);
        if !later[next].Link? {
          LeadComesTrue(t, later, next, parts[1..], links);
        } else if |parts| > 1 {
          var target := later[next].target;
          LeadComesTrue(t, later, if target.absolute then [] else at, Steps(target) + parts[1..], links - 1);
        }
    }
  }

  /** Wherever lstat finds a path in a tree that only has more, it leads there beforehand. */
  lemma DestinationComesTrue(t: Tree, later: Tree, cwd: Key, p: FsPath)
    requires Extends(t, later) && LinkStat(later, cwd, p).Ok?
    ensures Destination(t, cwd, p) == LinkStat(later, cwd, p)
  {
    LeadComesTrue(t, later, if p.absolute then [] else cwd, Steps(p), MAX_LINKS);
  }

  /** Where lstat finds something other than a link, stat finds the same. */
  lemma {:induction false} NotALink(t: Tree, at: Key, parts: seq<Component>, links: nat)
    requires Walk(t, at, parts, false, links).Ok? && parts != []
    requires !t[Walk(t, at, parts, false, links).value].Link?
    ensures Walk(t, at, parts, true, links) == Walk(t, at, parts, false, links)
    decreases links, |parts|
  {
    match parts[0]
    case Here =>
      if |parts| > 1 {
        NotALink(t, at, parts[1..], links);
      }
    case Up =>
      if |parts| > 1 {
        NotALink(t, if at == [] then [] else at[..|at| - 1], parts[1..], links);
      }
    case Name(n) =>
      var next := at + [n];
      if !t[next].Link? {
        if |parts| > 1 {
          NotALink(t, next, parts[1..], links);
        }
      } else {
        var target := t[next].target;
        var onward := Steps(target) + parts[1..];
        NotALink(t, if target.absolute then [] else at, onward, links - 1);
      }
  }

  lemma StatAgrees(t: Tree, cwd: Key, p: FsPath)
    requires LinkStat(t, cwd, p).Ok? && !t[LinkStat(t, cwd, p).value].Link?
    ensures Stat(t, cwd, p) == LinkStat(t, cwd, p)
  {
    if Steps(p) != [] {
      NotALink(t, if p.absolute then [] else cwd, Steps(p), MAX_LINKS);
    }
  }

  /** A walk through a name goes through the directory that holds it. */
  lemma {:induction false} WalkThrough(t: Tree, at: Key, before: seq<Component>, n: string, after: seq<Component>,
                                      follow: bool, links: nat)
    requires Walk(t, at, before + [Name(n)] + after, follow, links).Ok?
    ensures
      var above := Walk(t, at, before + [Here], true, links);
      && above.Ok? && above.value + [n] in t
      && (after == [] && !follow ==> Walk(t, at, before + [Name(n)] + after, follow, links) == Ok(above.value + [n]))
    decreases links, |before|
  {
    var parts := before + [Name(n)] + after;
    if before == [] {
      assert parts == [Name(n)] + after && before + [Here] == [Here];
    } else {
      var rest := before[1..] + [Name(n)] + after;
      assert parts[0] == before[0] && parts[1..] == rest;
      assert (before + [Here])[1..] == before[1..] + [Here] && (before + [Here])[0] == before[0];
      match before[0]
      case Here => WalkThrough(t, at, before[1..], n, after, follow, links);
      case Up => WalkThrough(t, if at == [] then [] else at[..|at| - 1], before[1..], n, after, follow, links);
      case Name(m) =>
        var next := at + [m];
        if !t[next].Link? {
          WalkThrough(t, next, before[1..], n, after, follow, links);
        } else {
          var target := t[next].target;
          var start := if target.absolute then [] else at;
          assert Steps(target) + rest == (Steps(target) + before[1..]) + [Name(n)] + after;
          assert Steps(target) + (before[1..] + [Here]) == (Steps(target) + before[1..]) + [Here];
          WalkThrough(t, start, Steps(target) + before[1..], n, after, follow, links - 1);
        }
    }
  }

  /** And one that gets to a directory goes on to what it holds. */
  lemma {:induction false} WalkInto(t: Tree, at: Key, before: seq<Component>, n: string, after: seq<Component>,
                                   follow: bool, links: nat)
    requires Walk(t, at, before + [Here], true, links).Ok?
    requires after == [] || after == [Here]
    requires
      var k := Walk(t, at, before + [Here], true, links).value + [n];
      k in t && (t[k].Directory? || (after == [] && !follow))
    ensures Walk(t, at, before + [Name(n)] + after, follow, links)
            == Ok(Walk(t, at, before + [Here], true, links).value + [n])
    decreases links, |before|
  {
    var parts := before + [Name(n)] + after;
    if before == [] {
      assert parts == [Name(n)] + after && before + [Here] == [Here];
    } else {
      var rest := before[1..] + [Name(n)] + after;
      assert parts[0] == before[0] && parts[1..] == rest;
      assert (before + [Here])[1..] == before[1..] + [Here] && (before + [Here])[0] == before[0];
      match before[0]
      case Here => WalkInto(t, at, before[1..], n, after, follow, links);
      case Up => WalkInto(t, if at == [] then [] else at[..|at| - 1], before[1..], n, after, follow, links);
      case Name(m) =>
        var next := at + [m];
        if !t[next].Link? {
          WalkInto(t, next, before[1..], n, after, follow, links);
        } else {
          var target := t[next].target;
          var start := if target.absolute then [] else at;
          assert Steps(target) + rest == (Steps(target) + before[1..]) + [Name(n)] + after;
          assert Steps(target) + (before[1..] + [Here]) == (Steps(target) + before[1..]) + [Here];
          WalkInto(t, start, Steps(target) + before[1..], n, after, follow, links - 1);
        }
    }
  }
}
