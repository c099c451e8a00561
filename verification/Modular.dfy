// Modular services: a tree of services made into dinit services, each under a name of its own.
// Three recursions compute that name, and have to agree.

module Modular {
  import opened Prelude
  import CommandLine
  import Expand
  import InitSpecText

  // ---- The tree ----

  datatype Item = Item(name: string, source: string, enable: bool)

  /** What stands in a service description, by setting. */
  type Description = map<string, string>

  datatype Service = Service(argv: seq<string>, settings: Description, configData: seq<Item>, services: Forest)

  /** An attribute set of services, in the order of their names. */
  datatype Forest = Bare | Grove(name: string, service: Service, rest: Forest)

  /** The names from the root of the tree down to a service. */
  type Path = seq<string>

  // ---- renderService ----

  function Describe(s: Service): Description {
    map["type" := "process", "command" := CommandLine.Command(s.argv)] + s.settings
  }

  function RenderService(name: string, s: Service): map<string, Description>
    decreases s
  {
    map[name := Describe(s)] + RenderServices(name + "-", s.services)
  }

  function RenderServices(prefix: string, f: Forest): map<string, Description>
    decreases f
  {
    match f
    case Bare => map[]
    case Grove(name, service, rest) => RenderService(prefix + name, service) + RenderServices(prefix, rest)
  }

  // ---- dinitServiceModule ----

  datatype Options = Options(stateDir: string, configPaths: seq<string>)

  const MARKER := "@configDir@"

  function ItemPath(consolidate: bool, servicePrefix: string, item: Item): string {
    if consolidate then MARKER + "/system-services/" + servicePrefix + "/" + item.name else item.source
  }

  function ItemPaths(consolidate: bool, servicePrefix: string, items: seq<Item>): seq<string> {
    seq(|items|, i requires 0 <= i < |items| => ItemPath(consolidate, servicePrefix, items[i]))
  }

  /** The options every service of the tree finds declared, with where it is in the tree. */
  function ServiceOptions(consolidate: bool, prefix: string, name: string, at: Path, s: Service): seq<(Path, Options)>
    decreases s
  {
    var servicePrefix := prefix + name;
    [(at + [name],
      Options(Expand.STATE_DIR + "/" + servicePrefix, ItemPaths(consolidate, servicePrefix, s.configData)))]
    + ForestOptions(consolidate, servicePrefix + "-", at + [name], s.services)
  }

  function ForestOptions(consolidate: bool, prefix: string, at: Path, f: Forest): seq<(Path, Options)>
    decreases f
  {
    match f
    case Bare => []
    case Grove(name, service, rest) =>
      ServiceOptions(consolidate, prefix, name, at, service) + ForestOptions(consolidate, prefix, at, rest)
  }

  // ---- renderConfigData ----

  function RenderItems(servicePrefix: string, items: seq<Item>): map<string, string> {
    if items == [] then map[]
    else
      (if items[0].enable
       then map["system-services/" + servicePrefix + "/" + items[0].name := items[0].source]
       else map[])
      + RenderItems(servicePrefix, items[1..])
  }

  function RenderConfigData(servicePrefix: string, s: Service): map<string, string>
    decreases s
  {
    RenderItems(servicePrefix, s.configData) + RenderForestData(servicePrefix + "-", s.services)
  }

  function RenderForestData(prefix: string, f: Forest): map<string, string>
    decreases f
  {
    match f
    case Bare => map[]
    case Grove(name, service, rest) => RenderConfigData(prefix + name, service) + RenderForestData(prefix, rest)
  }

  // ---- The reference: every service with its path, and the path with dashes ----

  datatype Placed = Placed(path: Path, service: Service)

  function PlacedService(at: Path, name: string, s: Service): (list: seq<Placed>)
    ensures list != [] && list[0] == Placed(at + [name], s)
    decreases s
  {
    [Placed(at + [name], s)] + PlacedForest(at + [name], s.services)
  }

  function PlacedForest(at: Path, f: Forest): seq<Placed>
    decreases f
  {
    match f
    case Bare => []
    case Grove(name, service, rest) => PlacedService(at, name, service) + PlacedForest(at, rest)
  }

  function Dashed(path: Path): string { InitSpecText.Join(path, "-") }

  /** What stands in front of the names of the services below `at`. */
  function Prefix(at: Path): string { if at == [] then "" else Dashed(at) + "-" }

  lemma {:induction false} DashedGrows(at: Path, name: string)
    ensures Dashed(at + [name]) == Prefix(at) + name
  {
    if at == [] {
      assert at + [name] == [name] && "" + name == name;
    } else if |at| == 1 {
      assert (at + [name])[1..] == [name] && (at + [name])[0] == at[0];
      assert Dashed(at + [name]) == at[0] + "-" + Dashed([name]) && Dashed([name]) == name;
    } else {
      DashedGrows(at[1..], name);
      assert (at + [name])[1..] == at[1..] + [name];
      var rest := Dashed(at[1..]);
      assert at[0] + "-" + (rest + "-" + name) == (at[0] + "-" + rest) + "-" + name;
    }
  }

  // ---- Attribute sets as merges of what was said, the last word winning ----

  function Merge<V>(said: seq<(string, V)>): map<string, V> {
    if said == [] then map[] else map[said[0].0 := said[0].1] + Merge(said[1..])
  }

  predicate Distinct<V>(said: seq<(string, V)>) {
    forall i, j | 0 <= i < j < |said| :: said[i].0 != said[j].0
  }

  lemma {:induction false} MergeAppend<V>(a: seq<(string, V)>, b: seq<(string, V)>)
    ensures Merge(a + b) == Merge(a) + Merge(b)
  {
    if a == [] {
      assert a + b == b;
    } else {
      assert (a + b)[1..] == a[1..] + b;
      MergeAppend(a[1..], b);
    }
  }

  lemma {:induction false} MergeKeys<V>(said: seq<(string, V)>, name: string)
    ensures name in Merge(said) <==> exists i :: 0 <= i < |said| && said[i].0 == name
  {
    if said != [] {
      MergeKeys(said[1..], name);
      if name in Merge(said[1..]) {
        var i :| 0 <= i < |said| - 1 && said[1..][i].0 == name;
        assert said[i + 1].0 == name;
      }
      if exists i :: 0 <= i < |said| && said[i].0 == name {
        var i :| 0 <= i < |said| && said[i].0 == name;
        assert i > 0 ==> said[1..][i - 1].0 == name;
      }
    }
  }

  lemma {:induction false} MergeOfDistinct<V>(said: seq<(string, V)>, i: nat)
    requires Distinct(said) && i < |said|
    ensures said[i].0 in Merge(said) && Merge(said)[said[i].0] == said[i].1
  {
    assert forall j | 0 <= j < |said| - 1 :: said[1..][j] == said[j + 1];
    if i == 0 {
      MergeKeys(said[1..], said[0].0);
    } else {
      MergeOfDistinct(said[1..], i - 1);
    }
  }

  /** One entry for each thing said, exactly when nothing is said about the same name twice. */
  lemma {:induction false} MergeSize<V>(said: seq<(string, V)>)
    ensures |Merge(said)| <= |said|
    ensures |Merge(said)| == |said| <==> Distinct(said)
  {
    if said != [] {
      var rest := said[1..];
      MergeSize(rest);
      MergeKeys(rest, said[0].0);
      assert Merge(said).Keys == {said[0].0} + Merge(rest).Keys;
      assert |Merge(said)| == |Merge(said).Keys| && |Merge(rest)| == |Merge(rest).Keys|;
      if said[0].0 in Merge(rest) {
        assert Merge(said).Keys == Merge(rest).Keys;
        var i :| 0 <= i < |rest| && rest[i].0 == said[0].0;
        assert said[0].0 == said[i + 1].0;
      } else {
        assert |Merge(said)| == 1 + |Merge(rest)|;
        DistinctMore(said);
      }
    }
  }

  lemma DistinctMore<V>(said: seq<(string, V)>)
    requires said != [] && forall i | 0 <= i < |said| - 1 :: said[1..][i].0 != said[0].0
    ensures Distinct(said) <==> Distinct(said[1..])
  {
    var rest := said[1..];
    assert forall i | 0 < i < |said| :: said[i] == rest[i - 1];
    assert forall i | 0 <= i < |rest| :: rest[i] == said[i + 1];
  }

  // ---- The recursions agree ----

  function Described(list: seq<Placed>): (said: seq<(string, Description)>)
    ensures |said| == |list|
    ensures forall i | 0 <= i < |list| :: said[i] == (Dashed(list[i].path), Describe(list[i].service))
  {
    seq(|list|, i requires 0 <= i < |list| => (Dashed(list[i].path), Describe(list[i].service)))
  }

  lemma DescribedAppend(a: seq<Placed>, b: seq<Placed>)
    ensures Described(a + b) == Described(a) + Described(b)
  {
    hide Dashed, Describe;
    var ab, parts := Described(a + b), Described(a) + Described(b);
    assert forall i | 0 <= i < |a + b| :: ab[i] == parts[i];
  }

  lemma {:induction false} RenderedAsPlaced(at: Path, f: Forest)
    ensures RenderServices(Prefix(at), f) == Merge(Described(PlacedForest(at, f)))
    decreases f
  {
    hide Describe, Prefix, Dashed, Described;
    match f
    case Bare =>
      assert Described([]) == [];
    case Grove(name, service, rest) =>
      DashedGrows(at, name);
      ServiceAsPlaced(at, name, service);
      RenderedAsPlaced(at, rest);
      DescribedAppend(PlacedService(at, name, service), PlacedForest(at, rest));
      MergeAppend(Described(PlacedService(at, name, service)), Described(PlacedForest(at, rest)));
  }

  lemma {:induction false} ServiceAsPlaced(at: Path, name: string, s: Service)
    ensures RenderService(Dashed(at + [name]), s) == Merge(Described(PlacedService(at, name, s)))
    decreases s
  {
    hide Describe, Dashed, Described;
    var here := at + [name];
    assert Prefix(here) == Dashed(here) + "-";
    RenderedAsPlaced(here, s.services);
    var first := [Placed(here, s)];
    DescribedAppend(first, PlacedForest(here, s.services));
    MergeAppend(Described(first), Described(PlacedForest(here, s.services)));
    assert Described(first) == [(Dashed(here), Describe(s))];
    assert Merge([(Dashed(here), Describe(s))]) == map[Dashed(here) := Describe(s)];
  }

  function OptionsAt(consolidate: bool, p: Placed): (Path, Options) {
    (p.path,
     Options(Expand.STATE_DIR + "/" + Dashed(p.path), ItemPaths(consolidate, Dashed(p.path), p.service.configData)))
  }

  function AllOptions(consolidate: bool, list: seq<Placed>): (all: seq<(Path, Options)>)
    ensures |all| == |list|
    ensures forall i | 0 <= i < |list| :: all[i] == OptionsAt(consolidate, list[i])
  {
    seq(|list|, i requires 0 <= i < |list| => OptionsAt(consolidate, list[i]))
  }

  lemma AllOptionsAppend(consolidate: bool, a: seq<Placed>, b: seq<Placed>)
    ensures AllOptions(consolidate, a + b) == AllOptions(consolidate, a) + AllOptions(consolidate, b)
  {
    hide OptionsAt;
    var ab, parts := AllOptions(consolidate, a + b), AllOptions(consolidate, a) + AllOptions(consolidate, b);
    assert forall i | 0 <= i < |a + b| :: ab[i] == parts[i];
  }

  lemma {:induction false} OptionsAsPlaced(consolidate: bool, at: Path, f: Forest)
    ensures ForestOptions(consolidate, Prefix(at), at, f) == AllOptions(consolidate, PlacedForest(at, f))
    decreases f
  {
    hide Prefix, Dashed, AllOptions, ItemPaths;
    match f
    case Bare =>
      assert AllOptions(consolidate, []) == [];
    case Grove(name, service, rest) =>
      ServiceOptionsAsPlaced(consolidate, at, name, service);
      OptionsAsPlaced(consolidate, at, rest);
      AllOptionsAppend(consolidate, PlacedService(at, name, service), PlacedForest(at, rest));
  }

  lemma {:induction false} ServiceOptionsAsPlaced(consolidate: bool, at: Path, name: string, s: Service)
    ensures ServiceOptions(consolidate, Prefix(at), name, at, s) == AllOptions(consolidate, PlacedService(at, name, s))
    decreases s
  {
    hide Dashed, AllOptions, ItemPaths;
    var here := at + [name];
    DashedGrows(at, name);
    assert Prefix(here) == Dashed(here) + "-";
    OptionsAsPlaced(consolidate, here, s.services);
    var first := [Placed(here, s)];
    AllOptionsAppend(consolidate, first, PlacedForest(here, s.services));
    assert AllOptions(consolidate, first) == [OptionsAt(consolidate, Placed(here, s))];
  }

  /** Where an item of the service at `path` is written. */
  function Location(path: Path, item: Item): string {
    "system-services/" + Dashed(path) + "/" + item.name
  }

  /** Every file there is to write, in the order of the tree: where, and from what. */
  function WrittenItems(path: Path, items: seq<Item>): seq<(string, string)> {
    if items == [] then []
    else
      (if items[0].enable then [(Location(path, items[0]), items[0].source)] else [])
      + WrittenItems(path, items[1..])
  }

  function Written(list: seq<Placed>): seq<(string, string)> {
    if list == [] then [] else WrittenItems(list[0].path, list[0].service.configData) + Written(list[1..])
  }

  lemma {:induction false} WrittenAppend(a: seq<Placed>, b: seq<Placed>)
    ensures Written(a + b) == Written(a) + Written(b)
  {
    hide WrittenItems;
    if a == [] {
      assert a + b == b;
    } else {
      assert (a + b)[1..] == a[1..] + b && (a + b)[0] == a[0];
      WrittenAppend(a[1..], b);
      assert Written(a + b) == WrittenItems(a[0].path, a[0].service.configData) + (Written(a[1..]) + Written(b));
    }
  }

  lemma {:induction false} ItemsAsWritten(path: Path, items: seq<Item>)
    ensures RenderItems(Dashed(path), items) == Merge(WrittenItems(path, items))
  {
    hide Dashed;
    if items != [] {
      ItemsAsWritten(path, items[1..]);
      var rest := WrittenItems(path, items[1..]);
      if items[0].enable {
        assert ([(Location(path, items[0]), items[0].source)] + rest)[1..] == rest;
      } else {
        assert [] + rest == rest;
      }
    }
  }

  lemma {:induction false} DataAsPlaced(at: Path, f: Forest)
    ensures RenderForestData(Prefix(at), f) == Merge(Written(PlacedForest(at, f)))
    decreases f
  {
    hide Prefix, Dashed, WrittenItems;
    match f
    case Bare =>
    case Grove(name, service, rest) =>
      DashedGrows(at, name);
      ServiceDataAsPlaced(at, name, service);
      DataAsPlaced(at, rest);
      WrittenAppend(PlacedService(at, name, service), PlacedForest(at, rest));
      MergeAppend(Written(PlacedService(at, name, service)), Written(PlacedForest(at, rest)));
  }

  lemma {:induction false} ServiceDataAsPlaced(at: Path, name: string, s: Service)
    ensures RenderConfigData(Dashed(at + [name]), s) == Merge(Written(PlacedService(at, name, s)))
    decreases s
  {
    hide Dashed, WrittenItems, RenderItems;
    var here := at + [name];
    assert Prefix(here) == Dashed(here) + "-";
    ItemsAsWritten(here, s.configData);
    DataAsPlaced(here, s.services);
    var below := PlacedForest(here, s.services);
    assert PlacedService(at, name, s)[1..] == below;
    MergeAppend(WrittenItems(here, s.configData), Written(below));
  }

  lemma {:induction false} ItemIsWritten(path: Path, items: seq<Item>, i: nat)
    requires i < |items| && items[i].enable
    ensures (Location(path, items[i]), items[i].source) in WrittenItems(path, items)
  {
    hide Location;
    if i > 0 {
      ItemIsWritten(path, items[1..], i - 1);
    }
  }

  lemma {:induction false} FileIsWritten(list: seq<Placed>, k: nat, i: nat)
    requires k < |list| && i < |list[k].service.configData| && list[k].service.configData[i].enable
    ensures
      var item := list[k].service.configData[i];
      (Location(list[k].path, item), item.source) in Written(list)
  {
    hide Location, WrittenItems;
    if k == 0 {
      ItemIsWritten(list[0].path, list[0].service.configData, i);
    } else {
      FileIsWritten(list[1..], k - 1, i);
    }
  }

  lemma DataIsWritten(f: Forest, k: nat, i: nat)
    requires k < |PlacedForest([], f)|
    requires
      var items := PlacedForest([], f)[k].service.configData;
      i < |items| && items[i].enable
    ensures
      var p := PlacedForest([], f)[k];
      var item := p.service.configData[i];
      var data := RenderForestData("", f);
      && Location(p.path, item) in data
      && (Distinct(Written(PlacedForest([], f))) ==> data[Location(p.path, item)] == item.source)
  {
    hide Location, WrittenItems, RenderForestData, Written, Distinct;
    var list := PlacedForest([], f);
    var item := list[k].service.configData[i];
    assert Prefix([]) == "";
    DataAsPlaced([], f);
    FileIsWritten(list, k, i);
    var said := Written(list);
    var at :| 0 <= at < |said| && said[at] == (Location(list[k].path, item), item.source);
    MergeKeys(said, said[at].0);
    if Distinct(said) {
      MergeOfDistinct(said, at);
    }
  }

  // ---- The marker ----

  /** sed "s|marker|by|g" */
  function Replace(s: string, marker: string, text: string): string
    requires marker != ""
    decreases |s|
  {
    if s == "" then ""
    else if marker <= s then text + Replace(s[|marker|..], marker, text)
    else [s[0]] + Replace(s[1..], marker, text)
  }

  predicate Occurs(marker: string, s: string) { exists i :: 0 <= i <= |s| && marker <= s[i..] }

  lemma {:induction false} NothingToReplace(s: string, marker: string, text: string)
    requires marker != "" && !Occurs(marker, s)
    ensures Replace(s, marker, text) == s
  {
    if s != "" {
      assert s[0..] == s;
      assert !Occurs(marker, s[1..]) by {
        assert forall i | 0 <= i <= |s| - 1 :: s[1..][i..] == s[i + 1..];
      }
      NothingToReplace(s[1..], marker, text);
    }
  }

  // ---- Main results ----

  /** At every depth of the tree a service is rendered under the names on its path joined by
      dashes; its state directory ends in that name; and each of its configuration files is
      read, once the marker stands for the output directory, from where it is written, and is
      what the service says it is unless another one is written over it. */
  lemma NamesAgree(f: Forest, k: nat, out: string)
    requires k < |PlacedForest([], f)|
    ensures
      var p := PlacedForest([], f)[k];
      var options := ForestOptions(true, "", [], f);
      && Dashed(p.path) in RenderServices("", f)
      && |options| == |PlacedForest([], f)| && options[k].0 == p.path
      && options[k].1.stateDir == Expand.STATE_DIR + "/" + Dashed(p.path)
      && |options[k].1.configPaths| == |p.service.configData|
      && forall i | 0 <= i < |p.service.configData| && p.service.configData[i].enable ::
           var location := Location(p.path, p.service.configData[i]);
           && location in RenderForestData("", f)
           && (Distinct(Written(PlacedForest([], f))) ==>
                 RenderForestData("", f)[location] == p.service.configData[i].source)
           && (!Occurs(MARKER, "/" + location) ==>
                 Replace(options[k].1.configPaths[i], MARKER, out) == out + "/" + location)
  {
    hide Dashed, RenderServices, RenderForestData, ForestOptions, Occurs, Replace, Written, Distinct;
    var list := PlacedForest([], f);
    var p := list[k];
    assert Prefix([]) == "";
    RenderedAsPlaced([], f);
    var said := Described(list);
    MergeKeys(said, Dashed(p.path));
    assert said[k].0 == Dashed(p.path);
    OptionsAsPlaced(true, [], f);
    forall i | 0 <= i < |p.service.configData| && p.service.configData[i].enable
      ensures
        var location := Location(p.path, p.service.configData[i]);
        && location in RenderForestData("", f)
        && (Distinct(Written(PlacedForest([], f))) ==>
              RenderForestData("", f)[location] == p.service.configData[i].source)
        && (!Occurs(MARKER, "/" + location) ==>
              Replace(ForestOptions(true, "", [], f)[k].1.configPaths[i], MARKER, out) == out + "/" + location)
    {
      DataIsWritten(f, k, i);
      MarkedPath(p.path, p.service.configData[i], out);
    }
  }

  lemma MarkedPath(path: Path, item: Item, out: string)
    ensures
      !Occurs(MARKER, "/" + Location(path, item)) ==>
        Replace(ItemPath(true, Dashed(path), item), MARKER, out) == out + "/" + Location(path, item)
  {
    hide Dashed, Occurs;
    var rest := "/" + Location(path, item);
    var s := ItemPath(true, Dashed(path), item);
    SamePath(Dashed(path), item.name);
    assert s == MARKER + rest;
    if !Occurs(MARKER, rest) {
      NothingToReplace(rest, MARKER, out);
      MarkerGoes(rest, out);
      assert out + "/" + Location(path, item) == out + rest;
    }
  }

  lemma SamePath(servicePrefix: string, name: string)
    ensures MARKER + "/system-services/" + servicePrefix + "/" + name
            == MARKER + ("/" + ("system-services/" + servicePrefix + "/" + name))
  {
    assert "/system-services/" == "/" + "system-services/";
  }

  lemma MarkerGoes(rest: string, out: string)
    ensures Replace(MARKER + rest, MARKER, out) == out + Replace(rest, MARKER, out)
  {
    var s := MARKER + rest;
    assert MARKER <= s && s[|MARKER|..] == rest;
  }

  /** The rendered services are one for each service of the tree exactly when the dashed names
      are pairwise distinct; each is then the description of the service it is named after. */
  lemma OneServiceEach(f: Forest)
    ensures
      var list := PlacedForest([], f);
      && (|RenderServices("", f)| == |list| <==> Distinct(Described(list)))
      && (Distinct(Described(list)) ==>
            forall k | 0 <= k < |list| ::
              && Dashed(list[k].path) in RenderServices("", f)
              && RenderServices("", f)[Dashed(list[k].path)] == Describe(list[k].service))
  {
    hide Dashed, Describe, RenderServices, Distinct;
    var list := PlacedForest([], f);
    assert Prefix([]) == "";
    RenderedAsPlaced([], f);
    MergeSize(Described(list));
    if Distinct(Described(list)) {
      forall k | 0 <= k < |list|
        ensures Dashed(list[k].path) in RenderServices("", f)
        ensures RenderServices("", f)[Dashed(list[k].path)] == Describe(list[k].service)
      {
        MergeOfDistinct(Described(list), k);
      }
    }
  }

  /** What a service is rendered to, setting by setting: what its module wrote stands; where it
      wrote nothing, the type is that of a plain process, and the command line is one that dinit
      takes apart into the service's argument vector; and there is nothing else. */
  lemma SettingsOf(f: Forest, k: nat, setting: string)
    requires k < |PlacedForest([], f)| && Distinct(Described(PlacedForest([], f)))
    ensures
      var s := PlacedForest([], f)[k].service;
      var name := Dashed(PlacedForest([], f)[k].path);
      var rendered := RenderServices("", f);
      && name in rendered
      && (setting in rendered[name] <==> setting in s.settings || setting == "type" || setting == "command")
      && (setting in s.settings ==> rendered[name][setting] == s.settings[setting])
      && (setting == "type" && setting !in s.settings ==> rendered[name][setting] == "process")
      && (setting == "command" && setting !in s.settings && (forall i | 0 <= i < |s.argv| :: '\n' !in s.argv[i]) ==>
            CommandLine.Words(rendered[name][setting]) == Some(s.argv))
  {
    OneServiceEach(f);
    var s := PlacedForest([], f)[k].service;
    CommandLine.CommandRoundTrip(s.argv);
    assert "type" != "command" by {
      assert "type"[0] != "command"[0];
    }
    hide Dashed, RenderServices, Distinct, CommandLine.Command, CommandLine.Words;
  }

  /** Without consolidation a service finds each of its files where it came from. */
  lemma FilesInPlace(f: Forest, k: nat)
    requires k < |PlacedForest([], f)|
    ensures
      var p := PlacedForest([], f)[k];
      var options := ForestOptions(false, "", [], f);
      && |options| == |PlacedForest([], f)| && options[k].0 == p.path
      && options[k].1.stateDir == Expand.STATE_DIR + "/" + Dashed(p.path)
      && |options[k].1.configPaths| == |p.service.configData|
      && forall i | 0 <= i < |p.service.configData| ::
           options[k].1.configPaths[i] == p.service.configData[i].source
  {
    hide Dashed, ForestOptions;
    assert Prefix([]) == "";
    OptionsAsPlaced(false, [], f);
  }

  /** No other files are written than the enabled ones. */
  lemma OnlyFiles(f: Forest, location: string) returns (k: nat, i: nat)
    requires location in RenderForestData("", f)
    ensures
      var list := PlacedForest([], f);
      && k < |list| && i < |list[k].service.configData| && list[k].service.configData[i].enable
      && location == "system-services/" + Dashed(list[k].path) + "/" + list[k].service.configData[i].name
  {
    hide Dashed, RenderForestData, Written;
    assert Prefix([]) == "";
    DataAsPlaced([], f);
    var said := Written(PlacedForest([], f));
    MergeKeys(said, location);
    var at :| 0 <= at < |said| && said[at].0 == location;
    k, i := WrittenIs(PlacedForest([], f), at);
  }

  /** The names at the top of a forest. */
  function Names(f: Forest): seq<string> {
    match f
    case Bare => []
    case Grove(name, _, rest) => [name] + Names(rest)
  }

  /** No two services of one attribute set have the same name, and no name has a dash. */
  predicate PlainNames(f: Forest) {
    match f
    case Bare => true
    case Grove(name, service, rest) =>
      && name !in Names(rest) && InitSpecText.FreeOf(name, {'-'})
      && PlainNames(service.services) && PlainNames(rest)
  }

  lemma {:induction false} PathsBelow(at: Path, f: Forest, k: nat)
    requires k < |PlacedForest(at, f)| && PlainNames(f)
    ensures
      var path := PlacedForest(at, f)[k].path;
      && |path| > |at| && path[..|at|] == at && path[|at|] in Names(f)
      && forall i | |at| <= i < |path| :: InitSpecText.FreeOf(path[i], {'-'})
    decreases f
  {
    hide InitSpecText.FreeOf;
    match f
    case Grove(name, service, rest) =>
      var here, first := at + [name], PlacedService(at, name, service);
      if k == 0 {
        assert PlacedForest(at, f)[0] == Placed(here, service);
      } else if k < |first| {
        assert first[k] == PlacedForest(here, service.services)[k - 1];
        PathsBelow(here, service.services, k - 1);
        var path := PlacedForest(at, f)[k].path;
        assert path[..|at|] == path[..|here|][..|at|] == at;
        assert path[|at|] == path[..|here|][|at|] == name;
      } else {
        PathsBelow(at, rest, k - |first|);
      }
  }

  lemma {:induction false} PathsDiffer(at: Path, f: Forest, j: nat, k: nat)
    requires j < k < |PlacedForest(at, f)| && PlainNames(f)
    ensures PlacedForest(at, f)[j].path != PlacedForest(at, f)[k].path
    decreases f
  {
    match f
    case Grove(name, service, rest) =>
      var here, first := at + [name], PlacedService(at, name, service);
      var list := PlacedForest(at, f);
      assert forall i | 0 < i < |first| :: list[i] == PlacedForest(here, service.services)[i - 1];
      if j >= |first| {
        PathsDiffer(at, rest, j - |first|, k - |first|);
      } else if k < |first| {
        PathsBelow(here, service.services, k - 1);
        if j > 0 {
          PathsDiffer(here, service.services, j - 1, k - 1);
        }
      } else {
        PathsBelow(at, rest, k - |first|);
        if j > 0 {
          PathsBelow(here, service.services, j - 1);
          assert list[j].path[|at|] == list[j].path[..|here|][|at|] == name;
        } else {
          assert list[j].path[|at|] == name;
        }
      }
  }

  /** Without dashes in the names of a tree, every service keeps a name of its own. */
  lemma PlainNamesAreEnough(f: Forest)
    requires PlainNames(f)
    ensures Distinct(Described(PlacedForest([], f)))
  {
    hide PlainNames, InitSpecText.FreeOf, InitSpecText.Join, Describe;
    var list := PlacedForest([], f);
    forall j, k | 0 <= j < k < |list|
      ensures Dashed(list[j].path) != Dashed(list[k].path)
    {
      PathsDiffer([], f, j, k);
      PathsBelow([], f, j);
      PathsBelow([], f, k);
      InitSpecText.SplitOfJoin(list[j].path, '-');
      InitSpecText.SplitOfJoin(list[k].path, '-');
    }
  }

  /** No two enabled files of one service have the same name. */
  predicate OwnNames(items: seq<Item>) {
    forall i, j | 0 <= i < j < |items| && items[i].enable && items[j].enable :: items[i].name != items[j].name
  }

  /** No name of a service has a slash, and no service names two of its files alike. */
  predicate PlainFiles(f: Forest) {
    match f
    case Bare => true
    case Grove(name, service, rest) =>
      '/' !in name && OwnNames(service.configData) && PlainFiles(service.services) && PlainFiles(rest)
  }

  lemma {:induction false} FilesBelow(at: Path, f: Forest, k: nat)
    requires k < |PlacedForest(at, f)| && PlainFiles(f) && forall i | 0 <= i < |at| :: '/' !in at[i]
    ensures
      var p := PlacedForest(at, f)[k];
      OwnNames(p.service.configData) && forall i | 0 <= i < |p.path| :: '/' !in p.path[i]
    decreases f
  {
    hide OwnNames;
    match f
    case Grove(name, service, rest) =>
      var here, first := at + [name], PlacedService(at, name, service);
      if k == 0 {
        assert PlacedForest(at, f)[0] == Placed(here, service);
      } else if k < |first| {
        assert first[k] == PlacedForest(here, service.services)[k - 1];
        FilesBelow(here, service.services, k - 1);
      } else {
        FilesBelow(at, rest, k - |first|);
      }
  }

  lemma {:induction false} DashedHasNoSlash(path: Path)
    requires forall i | 0 <= i < |path| :: '/' !in path[i]
    ensures '/' !in Dashed(path)
  {
    if |path| > 1 {
      DashedHasNoSlash(path[1..]);
      assert '/' !in path[0] && '/' !in "-";
    }
  }

  /** Different services, or different names, lie at different places. */
  lemma LocationsDiffer(one: Path, item: Item, other: Path, item': Item)
    requires '/' !in Dashed(one) && '/' !in Dashed(other) && Location(one, item) == Location(other, item')
    ensures Dashed(one) == Dashed(other) && item.name == item'.name
  {
    hide Dashed;
    var front, d, e := "system-services/", Dashed(one), Dashed(other);
    var s := Location(one, item);
    assert s[|front|..] == d + "/" + item.name && s[|front|..] == e + "/" + item'.name;
    SplitAtSlash(d, item.name, e, item'.name);
  }

  lemma SplitAtSlash(d: string, n: string, e: string, m: string)
    requires '/' !in d && '/' !in e && d + "/" + n == e + "/" + m
    ensures d == e && n == m
  {
    var s := d + "/" + n;
    assert s[|d|] == '/' && s[|e|] == '/';
    assert forall i | 0 <= i < |d| :: s[i] == d[i];
    assert forall i | 0 <= i < |e| :: s[i] == e[i];
    assert |d| == |e|;
    assert d == s[..|d|] && e == s[..|e|] && n == s[|d| + 1..] && m == s[|e| + 1..];
  }

  /** What is said about files is said about an enabled one of the service. */
  lemma {:induction false} WrittenItemIs(path: Path, items: seq<Item>, i: nat) returns (j: nat)
    requires i < |WrittenItems(path, items)|
    ensures j < |items| && items[j].enable && WrittenItems(path, items)[i].0 == Location(path, items[j])
    decreases |items|
  {
    hide Location;
    if items[0].enable && i == 0 {
      j := 0;
    } else {
      j := WrittenItemIs(path, items[1..], if items[0].enable then i - 1 else i);
      j := j + 1;
    }
  }

  lemma {:induction false} WrittenIs(list: seq<Placed>, i: nat) returns (k: nat, j: nat)
    requires i < |Written(list)|
    ensures k < |list| && j < |list[k].service.configData| && list[k].service.configData[j].enable
    ensures Written(list)[i].0 == Location(list[k].path, list[k].service.configData[j])
    decreases |list|
  {
    hide WrittenItems, Location;
    var first := WrittenItems(list[0].path, list[0].service.configData);
    if i < |first| {
      k := 0;
      j := WrittenItemIs(list[0].path, list[0].service.configData, i);
    } else {
      k, j := WrittenIs(list[1..], i - |first|);
      k := k + 1;
    }
  }

  lemma {:induction false} ItemsDiffer(path: Path, items: seq<Item>)
    requires OwnNames(items) && '/' !in Dashed(path)
    ensures Distinct(WrittenItems(path, items))
  {
    hide Dashed, Location;
    if items != [] {
      var rest := WrittenItems(path, items[1..]);
      assert OwnNames(items[1..]) by {
        assert forall i | 0 <= i < |items| - 1 :: items[1..][i] == items[i + 1];
      }
      ItemsDiffer(path, items[1..]);
      if items[0].enable {
        forall i | 0 <= i < |rest|
          ensures rest[i].0 != Location(path, items[0])
        {
          var j := WrittenItemIs(path, items[1..], i);
          assert items[j + 1].name != items[0].name;
          if Location(path, items[1..][j]) == Location(path, items[0]) {
            LocationsDiffer(path, items[j + 1], path, items[0]);
          }
        }
        DistinctMore([(Location(path, items[0]), items[0].source)] + rest);
      } else {
        assert [] + rest == rest;
      }
    }
  }

  lemma DistinctTogether<V>(a: seq<(string, V)>, b: seq<(string, V)>)
    requires Distinct(a) && Distinct(b)
    requires forall i, j | 0 <= i < |a| && 0 <= j < |b| :: a[i].0 != b[j].0
    ensures Distinct(a + b)
  {
  }

  lemma {:induction false} WrittenDiffers(list: seq<Placed>)
    requires forall k | 0 <= k < |list| :: OwnNames(list[k].service.configData) && '/' !in Dashed(list[k].path)
    requires forall j, k | 0 <= j < k < |list| :: Dashed(list[j].path) != Dashed(list[k].path)
    ensures Distinct(Written(list))
    decreases |list|
  {
    hide Dashed, Location, OwnNames, WrittenItems, Distinct;
    if list == [] {
      NothingIsDistinct<string>();
    } else {
      var first, rest := WrittenItems(list[0].path, list[0].service.configData), Written(list[1..]);
      ItemsDiffer(list[0].path, list[0].service.configData);
      WrittenDiffers(list[1..]);
      forall i, j | 0 <= i < |first| && 0 <= j < |rest|
        ensures first[i].0 != rest[j].0
      {
        var n := WrittenItemIs(list[0].path, list[0].service.configData, i);
        var k, m := WrittenIs(list[1..], j);
        if first[i].0 == rest[j].0 {
          LocationsDiffer(list[0].path, list[0].service.configData[n],
                          list[k + 1].path, list[k + 1].service.configData[m]);
        }
      }
      DistinctTogether(first, rest);
    }
  }

  lemma NothingIsDistinct<V>()
    ensures Distinct<V>([])
  {
  }

  /** Without dashes and slashes in the names of services, and with no two files of one service
      named alike, no file is written over another one. */
  lemma PlainFilesAreEnough(f: Forest)
    requires PlainNames(f) && PlainFiles(f)
    ensures Distinct(Written(PlacedForest([], f)))
  {
    hide PlainNames, PlainFiles, OwnNames, Dashed, Describe, Written;
    var list := PlacedForest([], f);
    PlainNamesAreEnough(f);
    forall k | 0 <= k < |list|
      ensures OwnNames(list[k].service.configData) && '/' !in Dashed(list[k].path)
    {
      FilesBelow([], f, k);
      DashedHasNoSlash(list[k].path);
    }
    forall j, k | 0 <= j < k < |list|
      ensures Dashed(list[j].path) != Dashed(list[k].path)
    {
      assert Described(list)[j].0 != Described(list)[k].0;
    }
    WrittenDiffers(list);
  }

  /** With dashes two services can end up under one name, and the first is lost. */
  lemma DashesCanCollide()
    ensures
      var leaf := Service([], map[], [], Bare);
      var f := Grove("a", leaf.(services := Grove("b-c", leaf, Bare)),
                     Grove("a-b", leaf.(services := Grove("c", leaf, Bare)), Bare));
      |PlacedForest([], f)| == 4 && |RenderServices("", f)| < 4
  {
    var leaf := Service([], map[], [], Bare);
    var below, after := Grove("b-c", leaf, Bare), Grove("c", leaf, Bare);
    var one, two := leaf.(services := below), leaf.(services := after);
    var f := Grove("a", one, Grove("a-b", two, Bare));
    assert PlacedForest(["a"], below) == [Placed(["a"] + ["b-c"], leaf)];
    assert PlacedForest(["a-b"], after) == [Placed(["a-b"] + ["c"], leaf)];
    assert [] + ["a"] == ["a"] && [] + ["a-b"] == ["a-b"];
    assert PlacedService([], "a", one) == [Placed(["a"], one), Placed(["a"] + ["b-c"], leaf)];
    assert PlacedService([], "a-b", two) == [Placed(["a-b"], two), Placed(["a-b"] + ["c"], leaf)];
    var list := PlacedForest([], f);
    assert list == PlacedService([], "a", one) + PlacedService([], "a-b", two);
    assert list[1].path == ["a", "b-c"] && list[3].path == ["a-b", "c"];
    assert Dashed(["a", "b-c"]) == "a" + "-" + "b-c" && Dashed(["a-b", "c"]) == "a-b" + "-" + "c";
    assert Described(list)[1].0 == Described(list)[3].0;
    OneServiceEach(f);
    assert Prefix([]) == "";
    RenderedAsPlaced([], f);
    MergeSize(Described(list));
  }

  /** A service's state directory, as dinit and dinix-init expand it. */
  lemma StateDirOfService(u: Expand.Unicode, f: Forest, k: nat, lookup: Expand.Lookup)
    requires k < |PlacedForest([], f)| && '$' !in Dashed(PlacedForest([], f)[k].path)
    ensures
      && |ForestOptions(true, "", [], f)| == |PlacedForest([], f)|
      && Expand.Expansion(u, ForestOptions(true, "", [], f)[k].1.stateDir, lookup)
         == Ok(Expand.StateBase(lookup) + "/" + Dashed(PlacedForest([], f)[k].path))
  {
    hide Dashed, Expand.Expansion, Expand.StateBase;
    NamesAgree(f, k, "");
    Expand.StateDirExpands(u, Dashed(PlacedForest([], f)[k].path), lookup);
  }
}
