// The edges dinix adds to the service graph, and when they leave it without a cycle.

module Boot {
  import opened Prelude

  const BOOT := "boot"
  const INIT := "dinix-init"

  /** The settings of a service that order it against others, and what dinix makes of it:
      Some(true) for critical, Some(false) for one that may fail, None for not attached. */
  datatype Settings = Settings(
    after: set<string>,
    before: set<string>,
    dependsOn: set<string>,
    dependsMs: set<string>,
    waitsFor: set<string>,
    critical: Option<bool>)

  /** The services that one with these settings starts after. */
  predicate Follows(s: Settings, y: string) { y in s.after + s.dependsOn + s.dependsMs + s.waitsFor }

  type Services = map<string, Settings>

  // ---- Generation ----

  /** The names of the services to start with boot, `critical` ones or the others. */
  function Named(services: Services, wanted: bool): set<string> {
    set name | name in services && name != BOOT && services[name].critical == Some(wanted)
  }

  function WithAfter(name: string, s: Settings, needsInit: bool): Settings {
    s.(after := s.after + if needsInit && name !in {INIT, BOOT} then {INIT} else {})
  }

  function WithBoot(services: Services, s: Settings, needsInit: bool): Settings {
    s.(dependsOn := s.dependsOn + Named(services, true) + (if needsInit then {INIT} else {}),
       waitsFor := s.waitsFor + Named(services, false))
  }

  function Generate(services: Services, needsInit: bool): (g: Services)
    ensures g.Keys == services.Keys
  {
    map name | name in services ::
      if name == BOOT then WithBoot(services, services[name], needsInit)
      else WithAfter(name, services[name], needsInit)
  }

  // ---- The graph ----

  /** `x` starts after `y`, if both are started. */
  ghost predicate Orders(services: Services, x: string, y: string) {
    || (x in services && Follows(services[x], y))
    || (x in services && y in services && x in services[y].before)
  }

  type Relation = (string, string) -> bool

  ghost function Graph(services: Services): Relation {
    (x, y) => Orders(services, x, y)
  }

  ghost predicate IsPath(r: Relation, p: seq<string>) {
    p != [] && forall i | 0 <= i < |p| - 1 :: r(p[i], p[i + 1])
  }

  /** A path of at least one edge. */
  ghost predicate Leads(r: Relation, p: seq<string>, x: string, y: string) {
    |p| > 1 && IsPath(r, p) && p[0] == x && p[|p| - 1] == y
  }

  ghost predicate Reaches(r: Relation, x: string, y: string) { exists p :: Leads(r, p, x, y) }

  ghost predicate Acyclic(r: Relation) { forall x :: !Reaches(r, x, x) }

  /** The edges dinix adds. */
  ghost predicate Added(services: Services, needsInit: bool, x: string, y: string) {
    || (needsInit && y == INIT && x in services && x != INIT)
    || (x == BOOT && (y in Named(services, true) || y in Named(services, false)))
  }

  /** Generation adds those edges and takes none away. */
  lemma GeneratedEdges(services: Services, needsInit: bool, x: string, y: string)
    requires BOOT in services
    ensures Orders(Generate(services, needsInit), x, y) <==> Orders(services, x, y) || Added(services, needsInit, x, y)
  {
  }

  /** What a configuration has to keep to: dinix-init waits for no other service, and nothing
      attached to boot waits for boot. */
  ghost predicate Compatible(services: Services, needsInit: bool) {
    var user := Graph(services);
    && (needsInit ==> forall x | x in services :: !Reaches(user, INIT, x))
    && forall c | c in Named(services, true) + Named(services, false) :: !Reaches(user, c, BOOT)
  }

  // ---- Paths ----

  lemma Extend(r: Relation, p: seq<string>, q: seq<string>, x: string, y: string, z: string)
    requires Leads(r, p, x, y) && Leads(r, q, y, z)
    ensures Leads(r, p + q[1..], x, z)
  {
    var pq := p + q[1..];
    forall i | 0 <= i < |pq| - 1
      ensures r(pq[i], pq[i + 1])
    {
      if i >= |p| - 1 {
        assert pq[i + 1] == q[i - |p| + 2];
        assert pq[i] == q[i - |p| + 1];
      }
    }
  }

  lemma OneEdge(r: Relation, x: string, y: string)
    requires r(x, y)
    ensures Reaches(r, x, y)
  {
    assert Leads(r, [x, y], x, y);
  }

  lemma ReachesOn(r: Relation, x: string, y: string, z: string)
    requires Reaches(r, x, y) && Reaches(r, y, z)
    ensures Reaches(r, x, z)
  {
    var p :| Leads(r, p, x, y);
    var q :| Leads(r, q, y, z);
    Extend(r, p, q, x, y, z);
  }

  lemma ReachesMore(r: Relation, more: Relation, x: string, y: string)
    requires Reaches(r, x, y) && forall a, b | r(a, b) :: more(a, b)
    ensures Reaches(more, x, y)
  {
    var p :| Leads(r, p, x, y);
    assert Leads(more, p, x, y);
  }

  /** A cycle can be walked from any of its nodes. */
  lemma Rotate(r: Relation, p: seq<string>, i: nat)
    requires |p| > 1 && IsPath(r, p) && p[0] == p[|p| - 1] && i < |p|
    ensures Reaches(r, p[i], p[i])
  {
    if i == 0 {
      assert Leads(r, p, p[0], p[0]);
    } else if i < |p| - 1 {
      assert Leads(r, p[..i + 1], p[0], p[i]);
      assert Leads(r, p[i..], p[i], p[0]);
      ReachesOn(r, p[i], p[0], p[i]);
    } else {
      assert Leads(r, p, p[i], p[i]);
    }
  }

  // ---- When generation keeps the graph without a cycle ----

  /** No way leads on from dinix-init. */
  lemma NothingAfterInit(services: Services, p: seq<string>)
    requires Compatible(services, true) && BOOT in services && INIT in services
    requires |p| > 1 && IsPath(Graph(Generate(services, true)), p) && p[0] == INIT
    ensures |p| == 2 && p[1] !in services
  {
    var r := Graph(Generate(services, true));
    assert r(p[0], p[1]);
    GeneratedEdges(services, true, INIT, p[1]);
    assert Graph(services)(INIT, p[1]);
    OneEdge(Graph(services), INIT, p[1]);
    if |p| > 2 {
      assert r(p[1], p[2]);
      GeneratedEdges(services, true, p[1], p[2]);
      assert false;
    }
  }

  /** A way that avoids dinix-init and does not start at boot is one of the user's own edges,
      as far as it goes without passing boot. */
  lemma UsersOwn(services: Services, needsInit: bool, p: seq<string>)
    requires BOOT in services && IsPath(Graph(Generate(services, needsInit)), p)
    requires forall i | 0 <= i < |p| - 1 :: p[i] != BOOT
    requires needsInit ==> INIT !in p
    ensures IsPath(Graph(services), p)
  {
    forall i | 0 <= i < |p| - 1
      ensures Graph(services)(p[i], p[i + 1])
    {
      assert Graph(Generate(services, needsInit))(p[i], p[i + 1]);
      GeneratedEdges(services, needsInit, p[i], p[i + 1]);
      assert p[i + 1] in p;
    }
  }

  /** The next time a way comes to boot. */
  lemma NextBoot(p: seq<string>) returns (j: nat)
    requires |p| > 1 && p[|p| - 1] == BOOT
    ensures 0 < j < |p| && p[j] == BOOT && forall i | 0 < i < j :: p[i] != BOOT
  {
    j := 1;
    while p[j] != BOOT
      invariant 0 < j < |p| && forall i | 0 < i < j :: p[i] != BOOT
      decreases |p| - j
    {
      j := j + 1;
    }
  }

  lemma NoCycleAtBoot(services: Services, needsInit: bool, p: seq<string>)
    requires BOOT in services && Acyclic(Graph(services)) && Compatible(services, needsInit)
    requires needsInit ==> INIT !in p
    ensures !Leads(Graph(Generate(services, needsInit)), p, BOOT, BOOT)
  {
    var r, user := Graph(Generate(services, needsInit)), Graph(services);
    if Leads(r, p, BOOT, BOOT) {
      var j := NextBoot(p);
      var rest := p[1..j + 1];
      assert rest != [] && rest[|rest| - 1] == BOOT && rest[0] == p[1];
      assert IsPath(r, rest) by {
        forall i | 0 <= i < |rest| - 1
          ensures r(rest[i], rest[i + 1])
        {
          assert r(p[i + 1], p[i + 2]);
        }
      }
      UsersOwn(services, needsInit, rest);
      assert r(p[0], p[1]);
      GeneratedEdges(services, needsInit, BOOT, p[1]);
      assert p[1] in p;
      if user(BOOT, p[1]) {
        OneEdge(user, BOOT, p[1]);
        if |rest| > 1 {
          assert Leads(user, rest, p[1], BOOT);
          ReachesOn(user, BOOT, p[1], BOOT);
        }
        assert false;
      } else {
        assert p[1] in Named(services, true) + Named(services, false);
        assert Leads(user, rest, p[1], BOOT);
        assert false;
      }
    }
  }

  lemma NoCycleElsewhere(services: Services, needsInit: bool, p: seq<string>)
    requires BOOT in services && (needsInit ==> INIT in services)
    requires Acyclic(Graph(services)) && Compatible(services, needsInit)
    requires |p| > 1 && p[0] == p[|p| - 1]
    ensures !IsPath(Graph(Generate(services, needsInit)), p)
  {
    hide IsPath, Acyclic, Compatible, Generate;
    var r := Graph(Generate(services, needsInit));
    if IsPath(r, p) {
      if needsInit && INIT in p {
        NoCycleThroughInit(services, p);
      } else if BOOT in p {
        NoCycleThroughBoot(services, needsInit, p);
      } else {
        NoCycleOfUsers(services, needsInit, p);
      }
      assert false;
    }
  }

  lemma NoCycleThroughInit(services: Services, p: seq<string>)
    requires BOOT in services && INIT in services && Compatible(services, true)
    requires |p| > 1 && p[0] == p[|p| - 1] && INIT in p
    ensures !IsPath(Graph(Generate(services, true)), p)
  {
    hide Compatible, Generate;
    var r := Graph(Generate(services, true));
    if IsPath(r, p) {
      var i :| 0 <= i < |p| && p[i] == INIT;
      Rotate(r, p, i);
      var q :| Leads(r, q, INIT, INIT);
      NothingAfterInit(services, q);
      assert false;
    }
  }

  lemma NoCycleThroughBoot(services: Services, needsInit: bool, p: seq<string>)
    requires BOOT in services && Acyclic(Graph(services)) && Compatible(services, needsInit)
    requires |p| > 1 && p[0] == p[|p| - 1] && BOOT in p && (needsInit ==> INIT !in p)
    ensures !IsPath(Graph(Generate(services, needsInit)), p)
  {
    hide IsPath, Acyclic, Compatible, Generate;
    var r := Graph(Generate(services, needsInit));
    if IsPath(r, p) {
      var i :| 0 <= i < |p| && p[i] == BOOT;
      var q := if i == |p| - 1 || i == 0 then p else p[i..] + p[1..i + 1];
      RotatedPath(r, p, i);
      assert forall x | x in q :: x in p;
      NoCycleAtBoot(services, needsInit, q);
    }
  }

  lemma CycleReaches(r: Relation, p: seq<string>)
    requires |p| > 1 && IsPath(r, p) && p[0] == p[|p| - 1]
    ensures Reaches(r, p[0], p[0])
  {
    assert Leads(r, p, p[0], p[0]);
  }

  lemma NoCycleOfUsers(services: Services, needsInit: bool, p: seq<string>)
    requires BOOT in services && Acyclic(Graph(services))
    requires |p| > 1 && p[0] == p[|p| - 1] && BOOT !in p && (needsInit ==> INIT !in p)
    ensures !IsPath(Graph(Generate(services, needsInit)), p)
  {
    hide Generate;
    if IsPath(Graph(Generate(services, needsInit)), p) {
      assert forall i | 0 <= i < |p| :: p[i] in p;
      UsersOwn(services, needsInit, p);
      CycleReaches(Graph(services), p);
      assert false;
    }
  }

  lemma RotatedPath(r: Relation, p: seq<string>, i: nat)
    requires |p| > 1 && IsPath(r, p) && p[0] == p[|p| - 1] && i < |p|
    ensures Leads(r, if i == |p| - 1 || i == 0 then p else p[i..] + p[1..i + 1], p[i], p[i])
  {
    if 0 < i < |p| - 1 {
      assert Leads(r, p[i..], p[i], p[0]);
      assert Leads(r, p[..i + 1], p[0], p[i]);
      assert p[..i + 1][1..] == p[1..i + 1];
      Extend(r, p[i..], p[..i + 1], p[i], p[0], p[i]);
    }
  }

  /** Adding dinix-init to what every service starts after, and every attached service to what
      boot waits for, leaves the graph without a cycle exactly when the user's own graph has
      none, dinix-init leads to no service in it, and no attached service leads to boot. */
  lemma GenerationKeepsAcyclic(services: Services, needsInit: bool)
    requires BOOT in services && (needsInit ==> INIT in services)
    ensures Acyclic(Graph(Generate(services, needsInit)))
            <==> Acyclic(Graph(services)) && Compatible(services, needsInit)
  {
    var r, user := Graph(Generate(services, needsInit)), Graph(services);
    if Acyclic(user) && Compatible(services, needsInit) {
      forall x
        ensures !Reaches(r, x, x)
      {
        if Reaches(r, x, x) {
          var p :| Leads(r, p, x, x);
          NoCycleElsewhere(services, needsInit, p);
        }
      }
    }
    forall a, b | user(a, b)
      ensures r(a, b)
    {
      GeneratedEdges(services, needsInit, a, b);
    }
    if Acyclic(r) {
      forall x
        ensures !Reaches(user, x, x)
      {
        if Reaches(user, x, x) {
          ReachesMore(user, r, x, x);
        }
      }
      AcyclicIsCompatible(services, needsInit);
    }
  }

  lemma AcyclicIsCompatible(services: Services, needsInit: bool)
    requires BOOT in services && (needsInit ==> INIT in services)
    requires Acyclic(Graph(Generate(services, needsInit)))
    ensures Compatible(services, needsInit)
  {
    var r, user := Graph(Generate(services, needsInit)), Graph(services);
    forall a, b | user(a, b)
      ensures r(a, b)
    {
      GeneratedEdges(services, needsInit, a, b);
    }
    forall x | needsInit && x in services
      ensures !Reaches(user, INIT, x)
    {
      if Reaches(user, INIT, x) {
        ReachesMore(user, r, INIT, x);
        if x != INIT {
          GeneratedEdges(services, needsInit, x, INIT);
          OneEdge(r, x, INIT);
          ReachesOn(r, INIT, x, INIT);
        }
      }
    }
    forall c | c in Named(services, true) + Named(services, false)
      ensures !Reaches(user, c, BOOT)
    {
      if Reaches(user, c, BOOT) {
        ReachesMore(user, r, c, BOOT);
        GeneratedEdges(services, needsInit, BOOT, c);
        OneEdge(r, BOOT, c);
        ReachesOn(r, BOOT, c, BOOT);
      }
    }
  }

  /** The common case: nothing is written about what dinix-init comes after, and no service is
      ordered after boot. */
  lemma OrdinaryGraphs(services: Services, needsInit: bool)
    requires BOOT in services && (needsInit ==> INIT in services)
    requires Acyclic(Graph(services))
    requires forall y :: !Orders(services, INIT, y) && !Orders(services, y, BOOT)
    ensures Acyclic(Graph(Generate(services, needsInit)))
  {
    var user := Graph(services);
    forall x, y | Reaches(user, x, y)
      ensures x != INIT && y != BOOT
    {
      var p :| Leads(user, p, x, y);
      assert user(p[0], p[1]) && user(p[|p| - 2], p[|p| - 1]);
    }
    GenerationKeepsAcyclic(services, needsInit);
  }

  // ---- Which services take boot down ----

  /** Boot depends on exactly the critical services and dinix-init, and waits for exactly those
      that may fail, besides what the user wrote. */
  lemma BootWires(services: Services, needsInit: bool, x: string)
    requires BOOT in services
    ensures
      var boot := Generate(services, needsInit)[BOOT];
      && (x in boot.dependsOn <==>
            || x in services[BOOT].dependsOn || (needsInit && x == "dinix-init")
            || (x in services && x != "boot" && services[x].critical == Some(true)))
      && (x in boot.waitsFor <==>
            x in services[BOOT].waitsFor || (x in services && x != "boot" && services[x].critical == Some(false)))
  {
  }

  /** Nothing else is changed, but that every other service comes after dinix-init. */
  lemma OthersKeepSettings(services: Services, needsInit: bool, name: string)
    requires name in services
    ensures
      var before, after := services[name], Generate(services, needsInit)[name];
      && after.before == before.before && after.dependsMs == before.dependsMs && after.critical == before.critical
      && (name != "boot" ==> after.dependsOn == before.dependsOn && after.waitsFor == before.waitsFor)
      && after.after
         == before.after + if needsInit && name != "boot" && name != "dinix-init" then {"dinix-init"} else {}
  {
  }

  /** `x` stops when `y` does: a hard dependency. */
  ghost function Hard(services: Services): Relation {
    (x, y) => x in services && y in services[x].dependsOn
  }

  /** What generation makes boot stand or fall with, directly. */
  ghost predicate BootNeeds(services: Services, needsInit: bool, x: string) {
    || (BOOT in services && x in services[BOOT].dependsOn)
    || (needsInit && x == INIT)
    || (x in services && x != BOOT && services[x].critical == Some(true))
  }

  lemma HardEdges(services: Services, needsInit: bool, x: string, y: string)
    requires BOOT in services
    ensures Hard(Generate(services, needsInit))(x, y)
            <==> (x == BOOT && BootNeeds(services, needsInit, y)) || Hard(services)(x, y)
  {
    BootWires(services, needsInit, y);
    if x in services {
      OthersKeepSettings(services, needsInit, x);
    }
  }

  lemma {:induction false} OnlyNeeded(services: Services, needsInit: bool, p: seq<string>, y: string)
    returns (c: string)
    requires BOOT in services && Leads(Hard(Generate(services, needsInit)), p, BOOT, y)
    ensures BootNeeds(services, needsInit, c) && (c == y || Reaches(Hard(services), c, y))
    decreases |p|
  {
    var r, user := Hard(Generate(services, needsInit)), Hard(services);
    var last := |p| - 1;
    var z := p[last - 1];
    assert r(p[last - 1], p[last]);
    HardEdges(services, needsInit, z, y);
    if z == BOOT {
      c := y;
    } else {
      assert Leads(r, p[..last], BOOT, z);
      c := OnlyNeeded(services, needsInit, p[..last], z);
      OneEdge(user, z, y);
      if c != z {
        ReachesOn(user, c, z, y);
      }
    }
  }

  /** When `y` stops, boot stops, and with it the container, exactly when `y` is critical, is
      dinix-init or is what the user made boot depend on, or one of these depends on it. */
  lemma BootFallsWith(services: Services, needsInit: bool, y: string)
    requires BOOT in services
    ensures
      Reaches(Hard(Generate(services, needsInit)), BOOT, y) <==>
      exists c :: BootNeeds(services, needsInit, c) && (c == y || Reaches(Hard(services), c, y))
  {
    var r, user := Hard(Generate(services, needsInit)), Hard(services);
    if Reaches(r, BOOT, y) {
      var p :| Leads(r, p, BOOT, y);
      var c := OnlyNeeded(services, needsInit, p, y);
    }
    if exists c :: BootNeeds(services, needsInit, c) && (c == y || Reaches(user, c, y)) {
      var c :| BootNeeds(services, needsInit, c) && (c == y || Reaches(user, c, y));
      HardEdges(services, needsInit, BOOT, c);
      OneEdge(r, BOOT, c);
      forall a, b | user(a, b)
        ensures r(a, b)
      {
        HardEdges(services, needsInit, a, b);
      }
      if c != y {
        ReachesMore(user, r, c, y);
        ReachesOn(r, BOOT, c, y);
      }
    }
  }

  /** A service that may fail, and on which nothing depends, can go without boot noticing. */
  lemma MayFailAlone(services: Services, needsInit: bool, y: string)
    requires BOOT in services && y in services && services[y].critical == Some(false)
    requires y !in services[BOOT].dependsOn && (needsInit ==> y != INIT)
    requires forall x :: !Reaches(Hard(services), x, y)
    ensures !Reaches(Hard(Generate(services, needsInit)), BOOT, y)
  {
    BootFallsWith(services, needsInit, y);
  }

  /** In every order of starting that respects the generated graph, dinix-init comes before all
      other services, attached or not, and boot after all that are attached. */
  lemma InitComesFirst(services: Services, place: string -> int, x: string)
    requires BOOT in services && INIT in services && x in services
    requires forall a, b | Orders(Generate(services, true), a, b) :: place(b) < place(a)
    ensures x != INIT ==> place(INIT) < place(x)
    ensures x != BOOT && services[x].critical.Some? ==> place(x) < place(BOOT)
  {
    GeneratedEdges(services, true, x, INIT);
    GeneratedEdges(services, true, BOOT, x);
    if services[x].critical.Some? && x != BOOT {
      assert x in Named(services, services[x].critical.value);
    }
  }
}
