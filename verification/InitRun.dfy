// dinix-init: the steps of a spec applied to the file tree, one after the other.

module InitRun {
  import opened Prelude
  import opened FileTree
  import Expand
  import InitSpec
  import InitSpecText

  datatype Failure =
    | Creating(error: Errno)
    | Checking(error: Errno)
    | IsASymlink
    | NotADirectory
    | SettingMode(error: Errno)
    | SettingOwner(error: Errno)
    | Missing
    | WrongKind

  datatype Done = Done(tree: Tree, error: Option<Failure>)

  // ---- One step ----

  /** owner_matches */
  predicate OwnerMatches(node: Node, uid: Option<U32>, gid: Option<U32>)
    requires node.Directory?
  {
    (uid.None? || node.uid == uid.value) && (gid.None? || node.gid == gid.value)
  }

  /** Mode first, then owner, and neither when it is right already. */
  function Settle(t: Tree, a: Account, k: Key, mode: U32, uid: Option<U32>, gid: Option<U32>): Done
    requires IsDirectory(t, k)
  {
    var moded := if t[k].mode != mode then Chmod(t, a, k, mode) else Ok(t);
    if moded.Err? then Done(t, Some(SettingMode(moded.error)))
    else if OwnerMatches(t[k], uid, gid) then Done(moded.value, None)
    else
      var owned := Chown(moded.value, a, k, uid, gid);
      if owned.Err? then Done(moded.value, Some(SettingOwner(owned.error))) else Done(owned.value, None)
  }

  function ApplyDir(t: Tree, a: Account, cwd: Key, p: FsPath, mode: U32, uid: Option<U32>, gid: Option<U32>): Done {
    var made := CreateDirAll(t, a, cwd, p);
    var found := LinkStat(made.tree, cwd, p);
    if made.error.Some? then Done(made.tree, Some(Creating(made.error.value)))
    else if found.Err? then Done(made.tree, Some(Checking(found.error)))
    else if made.tree[found.value].Link? then Done(made.tree, Some(IsASymlink))
    else if !made.tree[found.value].Directory? then Done(made.tree, Some(NotADirectory))
    else Settle(made.tree, a, found.value, mode, uid, gid)
  }

  predicate IsKind(node: Node, kind: InitSpec.Kind) {
    match kind
    case Any => true
    case Directory => node.Directory?
    case File => node.File?
  }

  function CheckExists(t: Tree, cwd: Key, p: FsPath, kind: InitSpec.Kind): Option<Failure> {
    match Stat(t, cwd, p)
    case Err(e) => Some(if e == ENOENT then Missing else Checking(e))
    case Ok(k) => if IsKind(t[k], kind) then None else Some(WrongKind)
  }

  function Apply(t: Tree, a: Account, cwd: Key, step: InitSpec.Step): Done {
    match step
    case Dir(path, mode, uid, gid) => ApplyDir(t, a, cwd, PathOf(path), mode, uid, gid)
    case MustExist(path, kind) => Done(t, CheckExists(t, cwd, PathOf(path), kind))
  }

  // ---- A run ----

  /** The tree that is left, and the step that failed. */
  datatype Outcome = Outcome(tree: Tree, stopped: Option<nat>, error: Option<Failure>)

  function Run(t: Tree, a: Account, cwd: Key, steps: seq<InitSpec.Step>): Outcome
    decreases |steps|
  {
    if steps == [] then Outcome(t, None, None)
    else
      var first := Apply(t, a, cwd, steps[0]);
      if first.error.Some? then Outcome(first.tree, Some(0), first.error)
      else
        var rest := Run(first.tree, a, cwd, steps[1..]);
        rest.(stopped := if rest.stopped.None? then None else Some(1 + rest.stopped.value))
  }

  // ---- Every step extends the tree ----

  lemma MkdirAdds(t: Tree, a: Account, cwd: Key, p: FsPath)
    requires Mkdir(t, a, cwd, p).Ok?
    ensures
      var made := Mkdir(t, a, cwd, p).value;
      Extends(t, made) && forall k | k in t :: made[k] == t[k]
  {
    hide Walk, Find;
  }

  lemma {:induction false} CreateDirAllExtends(t: Tree, a: Account, cwd: Key, p: FsPath)
    ensures
      var after := CreateDirAll(t, a, cwd, p).tree;
      Extends(t, after) && forall k | k in t :: after[k] == t[k]
    decreases Size(p)
  {
    hide Mkdir, IsDir, Parent, Extends;
    assert Extends(t, t) by {
      ExtendsItself(t);
    }
    if !p.Empty? {
      var once := Mkdir(t, a, cwd, p);
      if once.Ok? {
        MkdirAdds(t, a, cwd, p);
      } else if once.error == ENOENT && Parent(p).Some? {
        ParentIsSmaller(p);
        CreateDirAllExtends(t, a, cwd, Parent(p).value);
        var above := CreateDirAll(t, a, cwd, Parent(p).value);
        if above.error.None? && Mkdir(above.tree, a, cwd, p).Ok? {
          MkdirAdds(above.tree, a, cwd, p);
          ExtendsIsTransitive(t, above.tree, Mkdir(above.tree, a, cwd, p).value);
          KeysStay(t, above.tree);
        }
      }
    }
  }

  lemma ExtendsItself(t: Tree)
    ensures Extends(t, t)
  {
  }

  lemma KeysStay(t: Tree, later: Tree)
    requires Extends(t, later)
    ensures forall k | k in t :: k in later
  {
  }

  lemma ParentIsSmaller(p: FsPath)
    requires p.FsPath? && Parent(p).Some?
    ensures Size(Parent(p).value) < Size(p)
  {
  }

  lemma SettleExtends(t: Tree, a: Account, k: Key, mode: U32, uid: Option<U32>, gid: Option<U32>)
    requires IsDirectory(t, k)
    ensures
      var after := Settle(t, a, k, mode, uid, gid).tree;
      Extends(t, after) && after.Keys == t.Keys && forall j | j in t && j != k :: after[j] == t[j]
  {
  }

  lemma ApplyExtends(t: Tree, a: Account, cwd: Key, step: InitSpec.Step)
    ensures Extends(t, Apply(t, a, cwd, step).tree)
  {
    hide Settle, CreateDirAll, PathOf;
    if step.Dir? {
      var p := PathOf(step.path);
      CreateDirAllExtends(t, a, cwd, p);
      var made := CreateDirAll(t, a, cwd, p);
      var found := LinkStat(made.tree, cwd, p);
      if found.Ok? && made.tree[found.value].Directory? {
        SettleExtends(made.tree, a, found.value, step.mode, step.uid, step.gid);
        ExtendsIsTransitive(t, made.tree, Settle(made.tree, a, found.value, step.mode, step.uid, step.gid).tree);
      }
    }
  }

  lemma {:induction false} RunExtends(t: Tree, a: Account, cwd: Key, steps: seq<InitSpec.Step>)
    ensures Extends(t, Run(t, a, cwd, steps).tree)
    decreases |steps|
  {
    hide Apply;
    if steps != [] {
      var first := Apply(t, a, cwd, steps[0]);
      ApplyExtends(t, a, cwd, steps[0]);
      RunExtends(first.tree, a, cwd, steps[1..]);
      ExtendsIsTransitive(t, first.tree, Run(first.tree, a, cwd, steps[1..]).tree);
    }
  }

  // ---- The frame of a run ----

  /** lstat finds `k` at the path of the `dir` step `step`. */
  predicate Names(t: Tree, cwd: Key, step: InitSpec.Step, k: Key) {
    step.Dir? && LinkStat(t, cwd, PathOf(step.path)) == Ok(k)
  }

  /** What one step changes of what was there is the directory it names. */
  lemma ApplyFrame(t: Tree, a: Account, cwd: Key, step: InitSpec.Step, k: Key)
    requires k in t && k in Apply(t, a, cwd, step).tree && Apply(t, a, cwd, step).tree[k] != t[k]
    ensures t[k].Directory? && Names(Apply(t, a, cwd, step).tree, cwd, step, k)
  {
    hide Settle, CreateDirAll, PathOf, Find;
    var p := PathOf(step.path);
    CreateDirAllExtends(t, a, cwd, p);
    var made := CreateDirAll(t, a, cwd, p).tree;
    var found := LinkStat(made, cwd, p);
    SettleExtends(made, a, found.value, step.mode, step.uid, step.gid);
    FindIsStable(made, Settle(made, a, found.value, step.mode, step.uid, step.gid).tree, cwd, p, false);
  }

  lemma NamesIsStable(t: Tree, later: Tree, cwd: Key, step: InitSpec.Step, k: Key)
    requires Extends(t, later) && Names(t, cwd, step, k)
    ensures Names(later, cwd, step, k)
  {
    FindIsStable(t, later, cwd, PathOf(step.path), false);
  }

  /** The run came as far as step `i`: no earlier one failed. */
  predicate Began(r: Outcome, i: nat) { r.stopped.Some? ==> i <= r.stopped.value }

  /** A whole run, whether it succeeds or is cut short, adds nothing but directories, takes
      nothing away, and changes of what was there no more than the mode and the owner of
      directories that lstat finds at the path of one of the `dir` steps it came to. */
  lemma {:induction false} RunFrame(t: Tree, a: Account, cwd: Key, steps: seq<InitSpec.Step>)
    ensures
      var r := Run(t, a, cwd, steps);
      && Extends(t, r.tree)
      && forall k | k in t && r.tree[k] != t[k] ::
           t[k].Directory? && exists i :: 0 <= i < |steps| && Names(r.tree, cwd, steps[i], k) && Began(r, i)
    decreases |steps|
  {
    hide Apply, Names;
    RunExtends(t, a, cwd, steps);
    if steps != [] {
      var first, after := Apply(t, a, cwd, steps[0]), Run(t, a, cwd, steps).tree;
      ApplyExtends(t, a, cwd, steps[0]);
      RunFrame(first.tree, a, cwd, steps[1..]);
      RunExtends(first.tree, a, cwd, steps[1..]);
      forall k | k in t && after[k] != t[k]
        ensures
          t[k].Directory?
          && exists i :: 0 <= i < |steps| && Names(after, cwd, steps[i], k) && Began(Run(t, a, cwd, steps), i)
      {
        if first.tree[k] != t[k] {
          ApplyFrame(t, a, cwd, steps[0], k);
          if first.error.None? {
            NamesIsStable(first.tree, after, cwd, steps[0], k);
          }
          assert Began(Run(t, a, cwd, steps), 0);
        } else {
          var rest := Run(first.tree, a, cwd, steps[1..]);
          var i :| 0 <= i < |steps| - 1 && Names(after, cwd, steps[1..][i], k) && Began(rest, i);
          assert Names(after, cwd, steps[i + 1], k) && Began(Run(t, a, cwd, steps), i + 1);
        }
      }
    }
  }

  /** A run stops at the first step that fails, and leaves what that step left. */
  lemma {:induction false} RunStops(t: Tree, a: Account, cwd: Key, steps: seq<InitSpec.Step>)
    ensures
      var r := Run(t, a, cwd, steps);
      && (r.stopped.None? <==> r.error.None?)
      && (r.stopped.Some? ==>
            && r.stopped.value < |steps|
            && var before := Run(t, a, cwd, steps[..r.stopped.value]);
               before.error.None? && Apply(before.tree, a, cwd, steps[r.stopped.value]) == Done(r.tree, r.error))
    decreases |steps|
  {
    hide Apply;
    if steps != [] {
      var first := Apply(t, a, cwd, steps[0]);
      if first.error.None? {
        RunStops(first.tree, a, cwd, steps[1..]);
        var r := Run(t, a, cwd, steps);
        if r.stopped.Some? {
          assert steps[..r.stopped.value][1..] == steps[1..][..r.stopped.value - 1];
        }
      }
    }
  }

  lemma {:induction false} CreateDirAllKeepsForm(t: Tree, a: Account, cwd: Key, p: FsPath)
    requires WellFormed(t)
    ensures WellFormed(CreateDirAll(t, a, cwd, p).tree)
    decreases Size(p)
  {
    if !p.Empty? {
      MkdirKeepsForm(t, a, cwd, p);
      hide Mkdir;
      if Parent(p).Some? {
        CreateDirAllKeepsForm(t, a, cwd, Parent(p).value);
        MkdirKeepsForm(CreateDirAll(t, a, cwd, Parent(p).value).tree, a, cwd, p);
      }
    }
  }

  lemma {:induction false} ReachesADirectory(t: Tree, at: Key, parts: seq<Component>, links: nat)
    requires Walk(t, at, parts + [Here], true, links).Ok?
    ensures IsDirectory(t, Walk(t, at, parts + [Here], true, links).value)
    decreases links, |parts|
  {
    if parts != [] {
      assert (parts + [Here])[1..] == parts[1..] + [Here];
      match parts[0]
      case Here => ReachesADirectory(t, at, parts[1..], links);
      case Up => ReachesADirectory(t, if at == [] then [] else at[..|at| - 1], parts[1..], links);
      case Name(n) =>
        var next := at + [n];
        if !t[next].Link? {
          ReachesADirectory(t, next, parts[1..], links);
        } else {
          var target := t[next].target;
          assert Steps(target) + (parts[1..] + [Here]) == (Steps(target) + parts[1..]) + [Here];
          ReachesADirectory(t, if target.absolute then [] else at, Steps(target) + parts[1..], links - 1);
        }
    }
  }

  lemma MkdirKeepsForm(t: Tree, a: Account, cwd: Key, p: FsPath)
    requires WellFormed(t)
    ensures Mkdir(t, a, cwd, p).Ok? ==> WellFormed(Mkdir(t, a, cwd, p).value)
  {
    hide Walk;
    if Mkdir(t, a, cwd, p).Ok? {
      var start := if p.absolute then [] else cwd;
      var before := p.parts[..|p.parts| - 1];
      ReachesADirectory(t, start, before, MAX_LINKS);
      var above := Walk(t, start, before + [Here], true, MAX_LINKS).value;
      var k := above + [p.parts[|p.parts| - 1].name];
      assert k[..|k| - 1] == above;
    }
  }

  /** No run takes a directory out from under what it holds. */
  lemma {:induction false} RunKeepsForm(t: Tree, a: Account, cwd: Key, steps: seq<InitSpec.Step>)
    requires WellFormed(t)
    ensures WellFormed(Run(t, a, cwd, steps).tree)
    decreases |steps|
  {
    hide Apply, WellFormed;
    if steps != [] {
      ApplyKeepsForm(t, a, cwd, steps[0]);
      RunKeepsForm(Apply(t, a, cwd, steps[0]).tree, a, cwd, steps[1..]);
    }
  }

  lemma ApplyKeepsForm(t: Tree, a: Account, cwd: Key, step: InitSpec.Step)
    requires WellFormed(t)
    ensures WellFormed(Apply(t, a, cwd, step).tree)
  {
    hide Settle, CreateDirAll, PathOf, Find;
    if step.Dir? {
      var p := PathOf(step.path);
      CreateDirAllKeepsForm(t, a, cwd, p);
      var made := CreateDirAll(t, a, cwd, p).tree;
      var found := LinkStat(made, cwd, p);
      if found.Ok? && made[found.value].Directory? {
        SettleExtends(made, a, found.value, step.mode, step.uid, step.gid);
      }
    }
  }

  // ---- What a successful run leaves ----

  /** The tree already is what `step` asks for. */
  predicate Holds(t: Tree, cwd: Key, step: InitSpec.Step) {
    match step
    case Dir(path, mode, uid, gid) =>
      var found := LinkStat(t, cwd, PathOf(path));
      found.Ok? && t[found.value].Directory? && t[found.value].mode == mode && OwnerMatches(t[found.value], uid, gid)
    case MustExist(path, kind) => CheckExists(t, cwd, PathOf(path), kind).None?
  }

  lemma SettleSettles(t: Tree, a: Account, k: Key, mode: U32, uid: Option<U32>, gid: Option<U32>)
    requires IsDirectory(t, k) && Settle(t, a, k, mode, uid, gid).error.None?
    ensures
      var after := Settle(t, a, k, mode, uid, gid).tree;
      && IsDirectory(after, k) && OwnerMatches(after[k], uid, gid)
      && after[k].mode == (if t[k].mode == mode then mode else mode % 0x1000)
  {
  }

  /** A step that succeeds leaves what it asks for, except for bits a mode cannot have. */
  lemma ApplyEstablishes(t: Tree, a: Account, cwd: Key, step: InitSpec.Step)
    requires Apply(t, a, cwd, step).error.None?
    ensures Holds(Apply(t, a, cwd, step).tree, cwd, step) <==> (step.Dir? ==> step.mode < 0x1000)
  {
    hide Settle, CreateDirAll, PathOf, Find;
    if step.Dir? {
      var p := PathOf(step.path);
      var made := CreateDirAll(t, a, cwd, p).tree;
      var k := LinkStat(made, cwd, p).value;
      SettleSettles(made, a, k, step.mode, step.uid, step.gid);
      SettleExtends(made, a, k, step.mode, step.uid, step.gid);
      FindIsStable(made, Settle(made, a, k, step.mode, step.uid, step.gid).tree, cwd, p, false);
    }
  }

  /** mkdir on a path that leads to something only finds that it is there. */
  lemma NothingToMake(t: Tree, a: Account, cwd: Key, p: FsPath, follow: bool)
    requires Find(t, cwd, p, follow).Ok? && IsDir(t, cwd, p)
    ensures CreateDirAll(t, a, cwd, p) == Attempt(t, None)
  {
    var start := if p.absolute then [] else cwd;
    if p.parts != [] && p.ending != Dot && p.parts[|p.parts| - 1].Name? {
      hide Walk;
      var last := |p.parts| - 1;
      var after := if p.ending == Plain then [] else [Here];
      assert Steps(p) == p.parts[..last] + [Name(p.parts[last].name)] + after;
      WalkThrough(t, start, p.parts[..last], p.parts[last].name, after, follow, MAX_LINKS);
    }
  }

  /** Who can do nothing: not root, may add to no directory, and is not `owner`. */
  function Powerless(owner: U32): Account {
    Account(if owner == 0 then 1 else 0, 0, false, 0, (_, _) => false)
  }

  lemma HoldsIsDone(t: Tree, a: Account, cwd: Key, step: InitSpec.Step)
    requires Holds(t, cwd, step)
    ensures Apply(t, a, cwd, step) == Done(t, None)
  {
    hide CreateDirAll, PathOf, Find;
    if step.Dir? {
      var p := PathOf(step.path);
      StatAgrees(t, cwd, p);
      NothingToMake(t, a, cwd, p, false);
    }
  }

  /** A step is a no-op that succeeds for every account exactly when the tree already is what
      it asks for: then nothing is made, and neither mode nor owner is set. */
  lemma NoOpExactly(t: Tree, cwd: Key, step: InitSpec.Step)
    ensures Holds(t, cwd, step) <==> forall a :: Apply(t, a, cwd, step) == Done(t, None)
  {
    hide Apply, Holds;
    if Holds(t, cwd, step) {
      forall a
        ensures Apply(t, a, cwd, step) == Done(t, None)
      {
        HoldsIsDone(t, a, cwd, step);
      }
    }
    if forall a :: Apply(t, a, cwd, step) == Done(t, None) {
      PowerlessSuccessHolds(t, cwd, step);
    }
  }

  /** Two `dir` steps ask for things one directory can be at once. */
  predicate Agree(one: InitSpec.Step, other: InitSpec.Step) {
    && one.Dir? && other.Dir?
    && one.mode == other.mode
    && (one.uid.None? || other.uid.None? || one.uid == other.uid)
    && (one.gid.None? || other.gid.None? || one.gid == other.gid)
  }

  /** Steps that name the same directory agree; in particular no two steps may name the same. */
  ghost predicate Consistent(t: Tree, cwd: Key, steps: seq<InitSpec.Step>) {
    forall i, j, k | 0 <= i < j < |steps| && Names(t, cwd, steps[i], k) && Names(t, cwd, steps[j], k) ::
      Agree(steps[i], steps[j])
  }

  lemma CheckIsStable(t: Tree, later: Tree, cwd: Key, p: FsPath, kind: InitSpec.Kind)
    requires Extends(t, later) && CheckExists(t, cwd, p, kind).None?
    ensures CheckExists(later, cwd, p, kind).None?
  {
    FindIsStable(t, later, cwd, p, true);
    assert SameShape(t[Stat(t, cwd, p).value], later[Stat(t, cwd, p).value]);
  }

  /** A later step leaves what an earlier one asked for, if it names another directory or agrees. */
  lemma HoldsIsKept(t: Tree, a: Account, cwd: Key, held: InitSpec.Step, step: InitSpec.Step)
    requires Holds(t, cwd, held)
    requires
      var after := Apply(t, a, cwd, step).tree;
      forall k | Names(after, cwd, held, k) && Names(after, cwd, step, k) :: Agree(held, step)
    requires Apply(t, a, cwd, step).error.None?
    ensures Holds(Apply(t, a, cwd, step).tree, cwd, held)
  {
    var after := Apply(t, a, cwd, step).tree;
    ApplyExtends(t, a, cwd, step);
    if held.MustExist? {
      CheckIsStable(t, after, cwd, PathOf(held.path), held.kind);
    } else {
      var k := LinkStat(t, cwd, PathOf(held.path)).value;
      FindIsStable(t, after, cwd, PathOf(held.path), false);
      assert Names(after, cwd, held, k);
      if after[k] != t[k] {
        ApplyFrame(t, a, cwd, step, k);
        assert Names(after, cwd, step, k);
        assert Agree(held, step);
        DirChange(t, a, cwd, step, k);
      }
    }
  }

  /** What a step makes of the directory it names. */
  lemma DirChange(t: Tree, a: Account, cwd: Key, step: InitSpec.Step, k: Key)
    requires IsDirectory(t, k) && Apply(t, a, cwd, step).error.None?
    requires IsDirectory(Apply(t, a, cwd, step).tree, k)
    requires Names(Apply(t, a, cwd, step).tree, cwd, step, k)
    ensures
      var before, after := t[k], Apply(t, a, cwd, step).tree[k];
      && (after.mode == step.mode || after.mode == step.mode % 0x1000)
      && after.uid == (if step.uid.Some? then step.uid.value else before.uid)
      && after.gid == (if step.gid.Some? then step.gid.value else before.gid)
  {
    hide CreateDirAll, PathOf, Find;
    var p := PathOf(step.path);
    CreateDirAllExtends(t, a, cwd, p);
    var made := CreateDirAll(t, a, cwd, p).tree;
    var named := LinkStat(made, cwd, p).value;
    SettleExtends(made, a, named, step.mode, step.uid, step.gid);
    FindIsStable(made, Settle(made, a, named, step.mode, step.uid, step.gid).tree, cwd, p, false);
    assert named == k;
  }

  lemma {:induction false} ConsistentStepsHold(t: Tree, a: Account, cwd: Key, steps: seq<InitSpec.Step>)
    requires Run(t, a, cwd, steps).error.None?
    requires Consistent(Run(t, a, cwd, steps).tree, cwd, steps)
    requires forall i | 0 <= i < |steps| && steps[i].Dir? :: steps[i].mode < 0x1000
    ensures forall i | 0 <= i < |steps| :: Holds(Run(t, a, cwd, steps).tree, cwd, steps[i])
    decreases |steps|
  {
    hide Apply, Holds, Names, Agree;
    if steps != [] {
      var first, after := Apply(t, a, cwd, steps[0]).tree, Run(t, a, cwd, steps).tree;
      ApplyEstablishes(t, a, cwd, steps[0]);
      forall j, k | 0 <= j < |steps| - 1 && Names(after, cwd, steps[0], k) && Names(after, cwd, steps[1..][j], k)
        ensures Agree(steps[0], steps[1..][j])
      {
        assert steps[1..][j] == steps[j + 1];
      }
      HoldsThrough(first, a, cwd, steps[0], steps[1..]);
      assert Consistent(after, cwd, steps[1..]) by {
        assert forall i | 0 <= i < |steps| - 1 :: steps[1..][i] == steps[i + 1];
      }
      ConsistentStepsHold(first, a, cwd, steps[1..]);
      forall i | 0 <= i < |steps|
        ensures Holds(after, cwd, steps[i])
      {
        assert i > 0 ==> steps[i] == steps[1..][i - 1];
      }
    }
  }

  lemma {:induction false} HoldsThrough(t: Tree, a: Account, cwd: Key, held: InitSpec.Step, steps: seq<InitSpec.Step>)
    requires Holds(t, cwd, held) && Run(t, a, cwd, steps).error.None?
    requires
      var after := Run(t, a, cwd, steps).tree;
      forall j, k | 0 <= j < |steps| && Names(after, cwd, held, k) && Names(after, cwd, steps[j], k) ::
        Agree(held, steps[j])
    ensures Holds(Run(t, a, cwd, steps).tree, cwd, held)
    decreases |steps|
  {
    hide Apply, Holds, Names, Agree;
    if steps != [] {
      var next, after := Apply(t, a, cwd, steps[0]).tree, Run(t, a, cwd, steps).tree;
      RunExtends(next, a, cwd, steps[1..]);
      forall k | Names(next, cwd, held, k) && Names(next, cwd, steps[0], k)
        ensures Agree(held, steps[0])
      {
        NamesIsStable(next, after, cwd, held, k);
        NamesIsStable(next, after, cwd, steps[0], k);
      }
      HoldsIsKept(t, a, cwd, held, steps[0]);
      HoldsThrough(next, a, cwd, held, steps[1..]);
    }
  }

  /** A `dir` step that succeeds leaves a directory where its path leads. */
  lemma StepIsFound(t: Tree, a: Account, cwd: Key, step: InitSpec.Step)
    requires Apply(t, a, cwd, step).error.None? && step.Dir?
    ensures LinkStat(Apply(t, a, cwd, step).tree, cwd, PathOf(step.path)).Ok?
  {
    hide Settle, CreateDirAll, PathOf, Find;
    var p := PathOf(step.path);
    var made := CreateDirAll(t, a, cwd, p).tree;
    var k := LinkStat(made, cwd, p).value;
    SettleExtends(made, a, k, step.mode, step.uid, step.gid);
    FindIsStable(made, Settle(made, a, k, step.mode, step.uid, step.gid).tree, cwd, p, false);
  }

  lemma {:induction false} StepsAreFound(t: Tree, a: Account, cwd: Key, steps: seq<InitSpec.Step>, i: nat)
    requires Run(t, a, cwd, steps).error.None? && i < |steps| && steps[i].Dir?
    ensures LinkStat(Run(t, a, cwd, steps).tree, cwd, PathOf(steps[i].path)).Ok?
    decreases |steps|
  {
    hide Apply, PathOf, Find;
    var first := Apply(t, a, cwd, steps[0]).tree;
    if i == 0 {
      StepIsFound(t, a, cwd, steps[0]);
      RunExtends(first, a, cwd, steps[1..]);
      FindIsStable(first, Run(first, a, cwd, steps[1..]).tree, cwd, PathOf(steps[0].path), false);
    } else {
      StepsAreFound(first, a, cwd, steps[1..], i - 1);
    }
  }

  /** The paths of two `dir` steps lead to one place, as the tree stands. */
  predicate Meet(t: Tree, cwd: Key, one: InitSpec.Step, other: InitSpec.Step) {
    one.Dir? && other.Dir? && Destination(t, cwd, PathOf(one.path)) == Destination(t, cwd, PathOf(other.path))
  }

  /** What a spec has to keep to, in the tree it is run on: steps that lead to one place agree,
      and no mode has more than twelve bits. */
  ghost predicate Compatible(t: Tree, cwd: Key, steps: seq<InitSpec.Step>) {
    && (forall i, j | 0 <= i < j < |steps| && Meet(t, cwd, steps[i], steps[j]) :: Agree(steps[i], steps[j]))
    && forall i | 0 <= i < |steps| && steps[i].Dir? :: steps[i].mode < 0x1000
  }

  /** Where a run succeeds, its steps name one directory in the end exactly when their paths
      led to one place in the beginning. */
  lemma MeetIsForeseen(t: Tree, a: Account, cwd: Key, steps: seq<InitSpec.Step>, i: nat, j: nat)
    requires Run(t, a, cwd, steps).error.None? && i < |steps| && j < |steps| && steps[i].Dir? && steps[j].Dir?
    ensures
      var after := Run(t, a, cwd, steps).tree;
      Meet(t, cwd, steps[i], steps[j]) <==> exists k :: Names(after, cwd, steps[i], k) && Names(after, cwd, steps[j], k)
  {
    hide PathOf, Find, Run, Lead;
    var after := Run(t, a, cwd, steps).tree;
    RunExtends(t, a, cwd, steps);
    StepsAreFound(t, a, cwd, steps, i);
    StepsAreFound(t, a, cwd, steps, j);
    DestinationComesTrue(t, after, cwd, PathOf(steps[i].path));
    DestinationComesTrue(t, after, cwd, PathOf(steps[j].path));
    assert Names(after, cwd, steps[i], LinkStat(after, cwd, PathOf(steps[i].path)).value);
  }

  lemma CompatibleIsConsistent(t: Tree, a: Account, cwd: Key, steps: seq<InitSpec.Step>)
    requires Run(t, a, cwd, steps).error.None? && Compatible(t, cwd, steps)
    ensures Consistent(Run(t, a, cwd, steps).tree, cwd, steps)
  {
    hide Run, Meet, Agree, Names;
    var after := Run(t, a, cwd, steps).tree;
    forall i, j, k | 0 <= i < j < |steps| && Names(after, cwd, steps[i], k) && Names(after, cwd, steps[j], k)
      ensures Agree(steps[i], steps[j])
    {
      NamersAreDirs(after, cwd, steps[i], k);
      NamersAreDirs(after, cwd, steps[j], k);
      MeetIsForeseen(t, a, cwd, steps, i, j);
    }
  }

  lemma NamersAreDirs(t: Tree, cwd: Key, step: InitSpec.Step, k: Key)
    requires Names(t, cwd, step, k)
    ensures step.Dir?
  {
  }

  lemma HeldStepsAgree(t: Tree, cwd: Key, one: InitSpec.Step, other: InitSpec.Step, k: Key)
    requires Holds(t, cwd, one) && Holds(t, cwd, other) && Names(t, cwd, one, k) && Names(t, cwd, other, k)
    ensures Agree(one, other)
  {
    hide PathOf, Find;
  }

  lemma HeldModesFit(t: Tree, cwd: Key, step: InitSpec.Step)
    requires Holds(t, cwd, step) && step.Dir?
    ensures step.mode < 0x1000
  {
    hide PathOf, Find;
  }

  /** A run that succeeds, of any spec by any account, leaves everything its steps ask for -
      every `dir` path a real directory with the mode and the owner asked for, every check still
      passing - exactly when, in the tree it starts from, steps whose paths lead to one place
      agree, and no mode has more than twelve bits. */
  lemma SuccessMeansAllHold(t: Tree, a: Account, cwd: Key, steps: seq<InitSpec.Step>)
    requires Run(t, a, cwd, steps).error.None?
    ensures
      var after := Run(t, a, cwd, steps).tree;
      (forall i | 0 <= i < |steps| :: Holds(after, cwd, steps[i])) <==> Compatible(t, cwd, steps)
  {
    hide Run, Holds, Names, Agree, Meet, Consistent;
    var after := Run(t, a, cwd, steps).tree;
    if Compatible(t, cwd, steps) {
      CompatibleIsConsistent(t, a, cwd, steps);
      ConsistentStepsHold(t, a, cwd, steps);
    }
    if forall i | 0 <= i < |steps| :: Holds(after, cwd, steps[i]) {
      forall i, j | 0 <= i < j < |steps| && Meet(t, cwd, steps[i], steps[j])
        ensures Agree(steps[i], steps[j])
      {
        MeetersAreDirs(t, cwd, steps[i], steps[j]);
        MeetIsForeseen(t, a, cwd, steps, i, j);
        var k :| Names(after, cwd, steps[i], k) && Names(after, cwd, steps[j], k);
        HeldStepsAgree(after, cwd, steps[i], steps[j], k);
      }
      forall i | 0 <= i < |steps| && steps[i].Dir?
        ensures steps[i].mode < 0x1000
      {
        HeldModesFit(after, cwd, steps[i]);
      }
    }
  }

  lemma MeetersAreDirs(t: Tree, cwd: Key, one: InitSpec.Step, other: InitSpec.Step)
    requires Meet(t, cwd, one, other)
    ensures one.Dir? && other.Dir?
  {
  }

  lemma {:induction false} AllHoldIsDone(t: Tree, a: Account, cwd: Key, steps: seq<InitSpec.Step>)
    requires forall i | 0 <= i < |steps| :: Holds(t, cwd, steps[i])
    ensures Run(t, a, cwd, steps) == Outcome(t, None, None)
    decreases |steps|
  {
    hide Apply, Holds;
    if steps != [] {
      HoldsIsDone(t, a, cwd, steps[0]);
      AllHoldIsDone(t, a, cwd, steps[1..]);
    }
  }

  /** Who may do nothing makes nothing. */
  lemma {:induction false} PowerlessMakesNothing(t: Tree, owner: U32, cwd: Key, p: FsPath)
    ensures CreateDirAll(t, Powerless(owner), cwd, p).tree == t
    decreases Size(p)
  {
    if !p.Empty? {
      assert Mkdir(t, Powerless(owner), cwd, p).Err?;
      hide Mkdir, IsDir, Powerless;
      if Parent(p).Some? {
        PowerlessMakesNothing(t, owner, cwd, Parent(p).value);
      }
    }
  }

  /** A step that even those succeed at who can do nothing is done already. */
  lemma PowerlessSuccessHolds(t: Tree, cwd: Key, step: InitSpec.Step)
    requires forall owner :: Apply(t, Powerless(owner), cwd, step).error.None?
    ensures Holds(t, cwd, step)
  {
    hide CreateDirAll, PathOf, Find;
    assert Apply(t, Powerless(0), cwd, step).error.None?;
    if step.Dir? {
      var p := PathOf(step.path);
      PowerlessMakesNothing(t, 0, cwd, p);
      var k := LinkStat(t, cwd, p).value;
      PowerlessMakesNothing(t, t[k].uid, cwd, p);
      assert Apply(t, Powerless(t[k].uid), cwd, step).error.None?;
    }
  }

  lemma {:induction false} PowerlessRunHolds(t: Tree, cwd: Key, steps: seq<InitSpec.Step>)
    requires forall owner :: Run(t, Powerless(owner), cwd, steps).error.None?
    ensures forall i | 0 <= i < |steps| :: Holds(t, cwd, steps[i])
    decreases |steps|
  {
    hide Apply, Holds, Powerless;
    if steps != [] {
      forall owner
        ensures Apply(t, Powerless(owner), cwd, steps[0]).error.None?
      {
        assert Run(t, Powerless(owner), cwd, steps).error.None?;
      }
      PowerlessSuccessHolds(t, cwd, steps[0]);
      forall owner
        ensures Run(t, Powerless(owner), cwd, steps[1..]).error.None?
      {
        assert Run(t, Powerless(owner), cwd, steps).error.None?;
        HoldsIsDone(t, Powerless(owner), cwd, steps[0]);
      }
      PowerlessRunHolds(t, cwd, steps[1..]);
      forall i | 0 <= i < |steps|
        ensures Holds(t, cwd, steps[i])
      {
        assert i > 0 ==> steps[i] == steps[1..][i - 1];
      }
    }
  }

  /** After a run that succeeded, running the same spec again succeeds for every account
      whatever and changes nothing, exactly when the spec was compatible with the tree that the
      first run started from; otherwise some account would not even succeed. */
  lemma SecondRunDoesNothing(t: Tree, a: Account, cwd: Key, steps: seq<InitSpec.Step>)
    requires Run(t, a, cwd, steps).error.None?
    ensures
      var after := Run(t, a, cwd, steps).tree;
      && (Compatible(t, cwd, steps) ==> forall b :: Run(after, b, cwd, steps) == Outcome(after, None, None))
      && (!Compatible(t, cwd, steps) ==> exists b :: Run(after, b, cwd, steps).error.Some?)
  {
    hide Run, Holds, Compatible;
    SuccessMeansAllHold(t, a, cwd, steps);
    var after := Run(t, a, cwd, steps).tree;
    if Compatible(t, cwd, steps) {
      forall b
        ensures Run(after, b, cwd, steps) == Outcome(after, None, None)
      {
        AllHoldIsDone(after, b, cwd, steps);
      }
    } else if forall b :: Run(after, b, cwd, steps).error.None? {
      PowerlessRunHolds(after, cwd, steps);
    }
  }

  /** For one step that succeeded: it can be repeated by every account, as a no-op, exactly
      when the mode asked for is one a directory can have. */
  lemma RepeatableExactly(t: Tree, a: Account, cwd: Key, step: InitSpec.Step)
    requires Apply(t, a, cwd, step).error.None?
    ensures
      var after := Apply(t, a, cwd, step).tree;
      (forall b :: Apply(after, b, cwd, step) == Done(after, None)) <==> (step.Dir? ==> step.mode < 0x1000)
  {
    hide Apply, Holds;
    ApplyEstablishes(t, a, cwd, step);
    NoOpExactly(Apply(t, a, cwd, step).tree, cwd, step);
  }

  // ---- What is made, and what is refused ----

  lemma MkdirMakes(t: Tree, a: Account, cwd: Key, p: FsPath)
    requires Mkdir(t, a, cwd, p).Ok?
    ensures IsDir(Mkdir(t, a, cwd, p).value, cwd, p)
  {
    hide Walk;
    var made := Mkdir(t, a, cwd, p).value;
    MkdirAdds(t, a, cwd, p);
    var start, last := if p.absolute then [] else cwd, |p.parts| - 1;
    WalkIsStable(t, made, start, p.parts[..last] + [Here], true, MAX_LINKS);
    var after := if p.ending == Plain then [] else [Here];
    assert Steps(p) == p.parts[..last] + [Name(p.parts[last].name)] + after;
    WalkInto(made, start, p.parts[..last], p.parts[last].name, after, true, MAX_LINKS);
  }

  /** create_dir_all succeeds only if there is a directory at the end of the path afterwards. */
  lemma CreateDirAllMakes(t: Tree, a: Account, cwd: Key, p: FsPath)
    requires CreateDirAll(t, a, cwd, p).error.None? && p.FsPath?
    ensures IsDir(CreateDirAll(t, a, cwd, p).tree, cwd, p)
  {
    hide Mkdir, IsDir, Parent;
    if Mkdir(t, a, cwd, p).Ok? {
      MkdirMakes(t, a, cwd, p);
    } else if Parent(p).Some? {
      var above := CreateDirAll(t, a, cwd, Parent(p).value).tree;
      if Mkdir(above, a, cwd, p).Ok? {
        MkdirMakes(above, a, cwd, p);
      }
    }
  }

  /** The path's last name is a link. */
  ghost predicate EndsInLink(t: Tree, cwd: Key, p: FsPath) {
    && p.FsPath? && p.parts != [] && p.parts[|p.parts| - 1].Name?
    && var above := Walk(t, if p.absolute then [] else cwd, p.parts[..|p.parts| - 1] + [Here], true, MAX_LINKS);
       && above.Ok?
       && var k := above.value + [p.parts[|p.parts| - 1].name];
          k in t && t[k].Link?
  }

  lemma MkdirFindsLink(t: Tree, a: Account, cwd: Key, p: FsPath)
    requires EndsInLink(t, cwd, p) && p.ending != Dot
    ensures Mkdir(t, a, cwd, p) == Err(EEXIST)
    ensures p.ending == Plain ==> LinkStat(t, cwd, p).Ok? && t[LinkStat(t, cwd, p).value].Link?
  {
    hide Walk;
    var start, last := if p.absolute then [] else cwd, |p.parts| - 1;
    if p.ending == Plain {
      assert Steps(p) == p.parts[..last] + [Name(p.parts[last].name)] + [];
      WalkInto(t, start, p.parts[..last], p.parts[last].name, [], false, MAX_LINKS);
    }
  }

  /** A `dir` step on a path that ends in the name of a link fails and touches nothing,
      wherever the link leads. */
  lemma LinkIsRefused(t: Tree, a: Account, cwd: Key, step: InitSpec.Step)
    requires step.Dir? && EndsInLink(t, cwd, PathOf(step.path)) && PathOf(step.path).ending == Plain
    ensures
      var done := Apply(t, a, cwd, step);
      done.tree == t && done.error == Some(if IsDir(t, cwd, PathOf(step.path)) then IsASymlink else Creating(EEXIST))
  {
    hide Mkdir, IsDir, PathOf, Find, Walk;
    MkdirFindsLink(t, a, cwd, PathOf(step.path));
  }

  lemma LinkWithSlash(t: Tree, cwd: Key, p: FsPath)
    requires EndsInLink(t, cwd, p) && p.ending != Plain && IsDir(t, cwd, p)
    ensures LinkStat(t, cwd, p) == Stat(t, cwd, p)
  {
    WalkToHere(t, if p.absolute then [] else cwd, p.parts, MAX_LINKS);
  }

  /** With a directory asked for at the end, there is nothing left that is not followed. */
  lemma {:induction false} WalkToHere(t: Tree, at: Key, parts: seq<Component>, links: nat)
    ensures Walk(t, at, parts + [Here], true, links) == Walk(t, at, parts + [Here], false, links)
    decreases links, |parts|
  {
    if parts != [] {
      assert (parts + [Here])[1..] == parts[1..] + [Here] && (parts + [Here])[0] == parts[0];
      match parts[0]
      case Here => WalkToHere(t, at, parts[1..], links);
      case Up => WalkToHere(t, if at == [] then [] else at[..|at| - 1], parts[1..], links);
      case Name(n) =>
        var next := at + [n];
        if next in t && !t[next].Link? {
          WalkToHere(t, next, parts[1..], links);
        } else if next in t && links > 0 && t[next].target.FsPath? {
          var target := t[next].target;
          assert Steps(target) + (parts[1..] + [Here]) == (Steps(target) + parts[1..]) + [Here];
          WalkToHere(t, if target.absolute then [] else at, Steps(target) + parts[1..], links - 1);
        }
    }
  }

  /** On a path whose last name is a link to a directory, a `dir` step refuses the link if
      and only if the path does not end in a slash or a dot; if it does, the mode and the
      owner of what the link leads to are set. */
  lemma LinkIsRefusedExactly(t: Tree, a: Account, cwd: Key, step: InitSpec.Step)
    requires step.Dir?
    requires
      var p := PathOf(step.path);
      EndsInLink(t, cwd, p) && IsDir(t, cwd, p)
    ensures
      var p := PathOf(step.path);
      && (Apply(t, a, cwd, step).error == Some(IsASymlink) <==> p.ending == Plain)
      && (p.ending != Plain ==>
            Apply(t, a, cwd, step) == Settle(t, a, Stat(t, cwd, p).value, step.mode, step.uid, step.gid))
  {
    hide PathOf, Settle, Walk, Find;
    var p := PathOf(step.path);
    if p.ending == Plain {
      LinkIsRefused(t, a, cwd, step);
    } else {
      LinkWithSlash(t, cwd, p);
      NothingToMake(t, a, cwd, p, true);
      SettleNeverRefuses(t, a, Stat(t, cwd, p).value, step.mode, step.uid, step.gid);
    }
  }

  lemma SettleNeverRefuses(t: Tree, a: Account, k: Key, mode: U32, uid: Option<U32>, gid: Option<U32>)
    requires IsDirectory(t, k)
    ensures Settle(t, a, k, mode, uid, gid).error != Some(IsASymlink)
  {
  }

  // ---- The generated spec ----

  lemma {:induction false} ChecksChangeNothing(t: Tree, a: Account, cwd: Key, steps: seq<InitSpec.Step>, checks: nat,
                                              at: nat)
    requires at < checks <= |steps| && !Holds(t, cwd, steps[at])
    requires forall i | 0 <= i < checks :: steps[i].MustExist?
    ensures
      var r := Run(t, a, cwd, steps);
      r.tree == t && r.stopped.Some? && r.stopped.value <= at
    decreases |steps|
  {
    hide CheckExists;
    assert Apply(t, a, cwd, steps[0]).tree == t;
    if Apply(t, a, cwd, steps[0]).error.None? {
      assert forall i | 0 <= i < checks - 1 :: steps[1..][i] == steps[i + 1];
      ChecksChangeNothing(t, a, cwd, steps[1..], checks - 1, at - 1);
    }
  }

  /** A check passes exactly when stat finds something of the kind it asks for: anything, a
      directory, or a plain file; links are followed. What it says otherwise tells a path with
      nothing there from one that cannot be looked at, and both from the wrong kind. */
  lemma CheckMeans(t: Tree, a: Account, cwd: Key, path: string, kind: InitSpec.Kind)
    ensures
      var done := Apply(t, a, cwd, InitSpec.MustExist(path, kind));
      var found := Stat(t, cwd, PathOf(path));
      && done.tree == t
      && (done.error.None? <==>
            && found.Ok?
            && (kind.Any? || (kind.Directory? && t[found.value].Directory?) || (kind.File? && t[found.value].File?)))
      && (done.error == Some(Missing) <==> found == Err(ENOENT))
      && (forall e :: done.error == Some(Checking(e)) <==> found == Err(e) && e != ENOENT)
      && (done.error == Some(WrongKind) <==> found.Ok? && done.error.Some?)
  {
    hide PathOf, Find;
  }

  /** What is in `after` and not in `before` has the mode and the owner that new directories have. */
  ghost predicate Owned(before: Tree, after: Tree, a: Account) {
    forall k | k in after && k !in before :: after[k] == Directory(a.newMode, a.uid, a.gid)
  }

  lemma MkdirOwns(t: Tree, a: Account, cwd: Key, p: FsPath)
    requires Mkdir(t, a, cwd, p).Ok?
    ensures Owned(t, Mkdir(t, a, cwd, p).value, a)
  {
    hide Walk, Find;
  }

  lemma OwnedTogether(t: Tree, middle: Tree, after: Tree, a: Account)
    requires Owned(t, middle, a) && Owned(middle, after, a) && Extends(middle, after)
    requires forall k | k in middle :: after[k] == middle[k]
    ensures Owned(t, after, a)
  {
  }

  lemma NothingNew(t: Tree, a: Account)
    ensures Owned(t, t, a)
  {
  }

  lemma {:induction false} NewIsOwned(t: Tree, a: Account, cwd: Key, p: FsPath)
    ensures Owned(t, CreateDirAll(t, a, cwd, p).tree, a)
    decreases Size(p)
  {
    hide Mkdir, IsDir, Parent, Extends, Owned;
    NothingNew(t, a);
    if !p.Empty? {
      var once := Mkdir(t, a, cwd, p);
      if once.Ok? {
        MkdirOwns(t, a, cwd, p);
      } else if once.error == ENOENT && Parent(p).Some? {
        ParentIsSmaller(p);
        NewIsOwned(t, a, cwd, Parent(p).value);
        var above := CreateDirAll(t, a, cwd, Parent(p).value);
        if above.error.None? && Mkdir(above.tree, a, cwd, p).Ok? {
          MkdirOwns(above.tree, a, cwd, p);
          MkdirAdds(above.tree, a, cwd, p);
          OwnedTogether(t, above.tree, Mkdir(above.tree, a, cwd, p).value, a);
        }
      }
    }
  }

  /** What a `dir` step that succeeds leaves at its path: a directory, no link, with the mode
      asked for, and with the owner and the group asked for; one that is not asked for stays what
      it was, or is that of the account where the directory is new. */
  lemma DirMeans(t: Tree, a: Account, cwd: Key, step: InitSpec.Step)
    requires step.Dir? && Apply(t, a, cwd, step).error.None?
    ensures
      var after := Apply(t, a, cwd, step).tree;
      var found := LinkStat(after, cwd, PathOf(step.path));
      && found.Ok? && after[found.value].Directory?
      && var d := after[found.value];
         && d.mode == step.mode % 0x1000
         && (step.uid.Some? ==> d.uid == step.uid.value) && (step.gid.Some? ==> d.gid == step.gid.value)
         && (found.value in t && t[found.value].Directory? ==>
               && (step.uid.None? ==> d.uid == t[found.value].uid)
               && (step.gid.None? ==> d.gid == t[found.value].gid))
         && (found.value !in t ==> (step.uid.None? ==> d.uid == a.uid) && (step.gid.None? ==> d.gid == a.gid))
  {
    hide CreateDirAll, PathOf, Find;
    var p := PathOf(step.path);
    CreateDirAllExtends(t, a, cwd, p);
    NewIsOwned(t, a, cwd, p);
    var made := CreateDirAll(t, a, cwd, p).tree;
    var k := LinkStat(made, cwd, p).value;
    SettleExtends(made, a, k, step.mode, step.uid, step.gid);
    FindIsStable(made, Settle(made, a, k, step.mode, step.uid, step.gid).tree, cwd, p, false);
  }

  /** What a `dir` step does to a directory that is there already: it fails exactly when the mode
      has to be changed by somebody who is neither root nor its owner, or the owner or the group by
      somebody who is not root; a wrong mode is complained about first, and what is right already
      is not touched. */
  lemma DirOnExisting(t: Tree, a: Account, cwd: Key, step: InitSpec.Step, k: Key)
    requires step.Dir? && LinkStat(t, cwd, PathOf(step.path)) == Ok(k) && t[k].Directory?
    ensures
      var done, d := Apply(t, a, cwd, step), t[k];
      var modeWrong := d.mode != step.mode;
      var ownerWrong := (step.uid.Some? && step.uid.value != d.uid) || (step.gid.Some? && step.gid.value != d.gid);
      && done.error == (if modeWrong && !a.root && a.uid != d.uid then Some(SettingMode(EPERM))
                        else if ownerWrong && !a.root then Some(SettingOwner(EPERM)) else None)
      && (done.error.None? || done.error.value.SettingOwner? ==>
            && k in done.tree && done.tree[k].Directory?
            && done.tree[k].mode == (if modeWrong then step.mode % 0x1000 else d.mode))
      && (!modeWrong && !ownerWrong ==> done == Done(t, None))
  {
    hide CreateDirAll, PathOf, Find;
    StatAgrees(t, cwd, PathOf(step.path));
    NothingToMake(t, a, cwd, PathOf(step.path), false);
  }

  /** A `dir` step on what is there and is neither a directory nor a link. */
  lemma FileInTheWay(t: Tree, a: Account, cwd: Key, step: InitSpec.Step, k: Key)
    requires step.Dir? && LinkStat(t, cwd, PathOf(step.path)) == Ok(k) && t[k].File?
    ensures Apply(t, a, cwd, step) == Done(t, Some(Creating(EEXIST)))
  {
    hide PathOf, Walk;
    var p := PathOf(step.path);
    StatAgrees(t, cwd, p);
    SomethingIsThere(t, a, cwd, p);
  }

  lemma SomethingIsThere(t: Tree, a: Account, cwd: Key, p: FsPath)
    requires Find(t, cwd, p, true).Ok?
    ensures Mkdir(t, a, cwd, p) == Err(EEXIST)
  {
    var start := if p.absolute then [] else cwd;
    if p.parts != [] && p.ending != Dot && p.parts[|p.parts| - 1].Name? {
      hide Walk;
      var last := |p.parts| - 1;
      var after := if p.ending == Plain then [] else [Here];
      assert Steps(p) == p.parts[..last] + [Name(p.parts[last].name)] + after;
      WalkThrough(t, start, p.parts[..last], p.parts[last].name, after, true, MAX_LINKS);
    }
  }

  /** What holds of a tree, said of its nodes. */
  lemma HoldsMeans(t: Tree, cwd: Key, step: InitSpec.Step)
    ensures
      Holds(t, cwd, step) <==>
      match step
      case Dir(path, mode, uid, gid) =>
        var found := LinkStat(t, cwd, PathOf(path));
        && found.Ok? && t[found.value].Directory?
        && t[found.value].mode == mode
        && (uid.Some? ==> t[found.value].uid == uid.value) && (gid.Some? ==> t[found.value].gid == gid.value)
      case MustExist(path, kind) =>
        var found := Stat(t, cwd, PathOf(path));
        && found.Ok?
        && (kind.Directory? ==> t[found.value].Directory?) && (kind.File? ==> t[found.value].File?)
  {
    hide PathOf, Find;
  }

  /** When a check of the configuration does not find what it asks for, dinix-init fails and leaves
      the tree exactly as it was, because in the generated spec all the checks come before all the
      directories. */
  lemma FailsBeforeChange(u: Expand.Unicode, lookup: Expand.Lookup, t: Tree, a: Account, cwd: Key,
                          mustExist: map<string, InitSpecText.Required>, dirs: map<string, InitSpecText.Wanted>,
                          name: string)
    requires InitSpecText.PrintableConfig(mustExist, dirs) && name in mustExist
    requires InitSpec.Parse(u, lookup, InitSpecText.InitSpecText(mustExist, dirs)).Ok?
    requires
      var path := Expand.Expansion(u, mustExist[name].path, lookup);
      path.Ok? ==>
        var kind, found := mustExist[name].kind, Stat(t, cwd, PathOf(path.value));
        || found.Err?
        || (kind.Directory? && !t[found.value].Directory?)
        || (kind.File? && !t[found.value].File?)
    ensures
      var steps := InitSpec.Parse(u, lookup, InitSpecText.InitSpecText(mustExist, dirs)).value;
      var r := Run(t, a, cwd, steps);
      r.tree == t && r.error.Some? && r.stopped.Some? && r.stopped.value < |mustExist|
  {
    hide InitSpec.Parse, InitSpecText.InitSpecText, InitSpecText.PrintableConfig, InitSpecText.Good, Run, Holds, PathOf;
    hide Find, Expand.Expansion;
    InitSpecText.RoundTrip(u, lookup, mustExist, dirs);
    var steps := InitSpec.Parse(u, lookup, InitSpecText.InitSpecText(mustExist, dirs)).value;
    var at := InitSpecText.CheckOfName(u, lookup, mustExist, dirs, name);
    HoldsMeans(t, cwd, steps[at]);
    ChecksChangeNothing(t, a, cwd, steps, |mustExist|, at);
    RunStops(t, a, cwd, steps);
  }

  // ---- The program ----

  datatype ExitCode = Success | Failed

  class Machine {
    var tree: Tree
    const account: Account
    const cwd: Key

    constructor (t: Tree, a: Account, cwd: Key)
      ensures tree == t && account == a && this.cwd == cwd
    {
      tree, account, this.cwd := t, a, cwd;
    }

    method MakeDirectory(p: FsPath) returns (error: Option<Errno>)
      modifies this`tree
      ensures
        match Mkdir(old(tree), account, cwd, p)
        case Ok(made) => error.None? && tree == made
        case Err(e) => error == Some(e) && tree == old(tree)
    {
      var made := Mkdir(tree, account, cwd, p);
      if made.Err? {
        return Some(made.error);
      }
      tree := made.value;
      return None;
    }

    /** create_dir_all */
    method CreateAll(p: FsPath) returns (error: Option<Errno>)
      modifies this`tree
      ensures Attempt(tree, error) == CreateDirAll(old(tree), account, cwd, p)
      decreases Size(p)
    {
      hide Mkdir, IsDir;
      if p.Empty? {
        return None;
      }
      error := MakeDirectory(p);
      if error.None? {
        return None;
      }
      if error != Some(ENOENT) {
        return if IsDir(tree, cwd, p) then None else error;
      }
      var parent := Parent(p);
      if parent.None? {
        return Some(EINVAL);
      }
      error := CreateAll(parent.value);
      if error.Some? {
        return error;
      }
      error := MakeDirectory(p);
      if error.Some? && IsDir(tree, cwd, p) {
        error := None;
      }
    }

    /** set_permissions, which finds the path anew. */
    method SetMode(p: FsPath, mode: U32) returns (error: Option<Errno>)
      modifies this`tree
      ensures
        match Stat(old(tree), cwd, p)
        case Err(e) => error == Some(e) && tree == old(tree)
        case Ok(k) =>
          if old(tree)[k].Link? then error == Some(ENOENT) && tree == old(tree)
          else
            match Chmod(old(tree), account, k, mode)
            case Err(e) => error == Some(e) && tree == old(tree)
            case Ok(changed) => error.None? && tree == changed
    {
      hide Find;
      var found := Stat(tree, cwd, p);
      if found.Err? {
        return Some(found.error);
      }
      if tree[found.value].Link? {
        return Some(ENOENT);
      }
      var changed := Chmod(tree, account, found.value, mode);
      if changed.Err? {
        return Some(changed.error);
      }
      tree := changed.value;
      return None;
    }

    /** chown, which finds the path anew as well. */
    method SetOwner(p: FsPath, uid: Option<U32>, gid: Option<U32>) returns (error: Option<Errno>)
      modifies this`tree
      ensures
        match Stat(old(tree), cwd, p)
        case Err(e) => error == Some(e) && tree == old(tree)
        case Ok(k) =>
          if old(tree)[k].Link? then error == Some(ENOENT) && tree == old(tree)
          else
            match Chown(old(tree), account, k, uid, gid)
            case Err(e) => error == Some(e) && tree == old(tree)
            case Ok(changed) => error.None? && tree == changed
    {
      hide Find;
      var found := Stat(tree, cwd, p);
      if found.Err? {
        return Some(found.error);
      }
      if tree[found.value].Link? {
        return Some(ENOENT);
      }
      var changed := Chown(tree, account, found.value, uid, gid);
      if changed.Err? {
        return Some(changed.error);
      }
      tree := changed.value;
      return None;
    }

    /** apply of a `dir` step */
    method EnsureDirectory(p: FsPath, mode: U32, uid: Option<U32>, gid: Option<U32>) returns (error: Option<Failure>)
      modifies this`tree
      ensures Done(tree, error) == ApplyDir(old(tree), account, cwd, p, mode, uid, gid)
    {
      hide CreateDirAll, Find;
      var made := CreateAll(p);
      if made.Some? {
        return Some(Creating(made.value));
      }
      var found := LinkStat(tree, cwd, p);
      if found.Err? {
        return Some(Checking(found.error));
      }
      if tree[found.value].Link? {
        return Some(IsASymlink);
      }
      if !tree[found.value].Directory? {
        return Some(NotADirectory);
      }
      StatAgrees(tree, cwd, p);
      ghost var before := tree;
      var current := tree[Stat(tree, cwd, p).value];
      if current.mode != mode {
        var moded := SetMode(p, mode);
        if moded.Some? {
          return Some(SettingMode(moded.value));
        }
        FindIsStable(before, tree, cwd, p, true);
      }
      if !OwnerMatches(current, uid, gid) {
        var owned := SetOwner(p, uid, gid);
        if owned.Some? {
          return Some(SettingOwner(owned.value));
        }
      }
      return None;
    }

    /** apply */
    method ApplyStep(step: InitSpec.Step) returns (error: Option<Failure>)
      modifies this`tree
      ensures Done(tree, error) == Apply(old(tree), account, cwd, step)
    {
      hide ApplyDir, PathOf;
      match step
      case Dir(path, mode, uid, gid) =>
        error := EnsureDirectory(PathOf(path), mode, uid, gid);
      case MustExist(path, kind) =>
        error := CheckExists(tree, cwd, PathOf(path), kind);
    }

    /** main's loop over the steps */
    method RunSteps(steps: seq<InitSpec.Step>) returns (exit: ExitCode)
      modifies this`tree
      ensures tree == Run(old(tree), account, cwd, steps).tree
      ensures exit == Success <==> Run(old(tree), account, cwd, steps).error.None?
    {
      hide Apply;
      assert steps[0..] == steps;
      for i := 0 to |steps|
        invariant Run(tree, account, cwd, steps[i..]).tree == Run(old(tree), account, cwd, steps).tree
        invariant Run(tree, account, cwd, steps[i..]).error == Run(old(tree), account, cwd, steps).error
      {
        assert steps[i..][0] == steps[i] && steps[i..][1..] == steps[i + 1..];
        var error := ApplyStep(steps[i]);
        if error.Some? {
          return Failed;
        }
      }
      return Success;
    }

    /** main */
    method Start(args: seq<string>, read: string -> Option<string>, u: Expand.Unicode, lookup: Expand.Lookup)
      returns (exit: ExitCode)
      modifies this`tree
      ensures
        if |args| != 1 || read(args[0]).None? || InitSpec.Parse(u, lookup, read(args[0]).value).Err? then
          exit == Failed && tree == old(tree)
        else
          var r := Run(old(tree), account, cwd, InitSpec.Parse(u, lookup, read(args[0]).value).value);
          tree == r.tree && (exit == Success <==> r.error.None?)
    {
      hide InitSpec.Parse, Run;
      if |args| != 1 {
        return Failed;
      }
      var source := read(args[0]);
      if source.None? {
        return Failed;
      }
      var steps := InitSpec.ParseWith(u, lookup, source.value);
      if steps.Err? {
        return Failed;
      }
      exit := RunSteps(steps.value);
    }
  }
}
