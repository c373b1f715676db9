/** The contents of a project bundle, and how an export collects them from a cluster. */
module Bundle {
  import opened Json

  datatype AppEntry = AppEntry(name: string, spec: Fields)

  datatype SharedEntry = SharedEntry(name: string, environments: seq<string>, data: map<string, string>)

  datatype RegistryEntry = RegistryEntry(name: string, registry: string, username: string, password: string)

  /** The two outer keys of the nested configuration maps: an app and one environment. */
  datatype Slot = Slot(app: string, env: string)

  datatype Payload = Payload(
    name: string,
    spec: Fields,
    apps: seq<AppEntry>,
    envVars: map<Slot, map<string, string>>,
    secrets: map<Slot, map<string, string>>,
    shared: seq<SharedEntry>,
    registry: seq<RegistryEntry>)

  function RenameApp(a: AppEntry, id: string): AppEntry
  {
    AppEntry(a.name, a.spec["project" := Text(id)])
  }

  function RenameApps(apps: seq<AppEntry>, id: string): seq<AppEntry>
  {
    seq(|apps|, i requires 0 <= i < |apps| => RenameApp(apps[i], id))
  }

  /** The same project under another name: only the name and each app's spec.project move. */
  function Rename(p: Payload, id: string): Payload
  {
    p.(name := id, apps := RenameApps(p.apps, id))
  }
}

module Export {
  import opened Json
  import opened Text
  import opened Cluster
  import opened Bundle

  const PROJECT := "kubernetes.getvesta.sh/project"
  const APP := "kubernetes.getvesta.sh/app"
  const ENVIRONMENT := "kubernetes.getvesta.sh/environment"
  const SHARED := "kubernetes.getvesta.sh/shared"
  const TYPE := "kubernetes.getvesta.sh/type"

  // ---------- Names of objects ----------

  function EnvNamespace(id: string, env: string): string { id + "-" + env }

  function ProjectKey(id: string): Key { Key(VestaProject, SYSTEM, id) }

  function AppKey(name: string): Key { Key(VestaApp, SYSTEM, name) }

  function RegistryKey(name: string): Key { Key(VestaSecret, SYSTEM, name) }

  function VarsKey(id: string, s: Slot): Key { Key(ConfigMap, EnvNamespace(id, s.env), s.app + "-envvars") }

  function SecretsKey(id: string, s: Slot): Key { Key(VestaSecret, EnvNamespace(id, s.env), s.app + "-secrets") }

  // ---------- Reading a spec ----------

  function DictName(v: Value): string { if v.Dict? then GetString(v.fields, "name") else "" }

  function NamesIn(items: seq<Value>): seq<string>
  {
    if items == [] then []
    else
      var front, name := NamesIn(items[..|items| - 1]), DictName(items[|items| - 1]);
      if name != "" then front + [name] else front
  }

  function EnvNames(spec: Fields): seq<string> { NamesIn(GetList(spec, "environments")) }

  method SpecEnvironmentNames(spec: Fields) returns (names: seq<string>)
    ensures names == EnvNames(spec)
  {
    var envs := GetList(spec, "environments");
    names := [];
    for i := 0 to |envs|
      invariant names == NamesIn(envs[..i])
    {
      assert envs[..i + 1][..i] == envs[..i];
      if envs[i].Dict? {
        var name := GetString(envs[i].fields, "name");
        if name != "" {
          names := names + [name];
        }
      }
    }
    assert envs[..|envs|] == envs;
  }

  function NameSet(items: seq<Value>): set<string>
  {
    set v | v in items && DictName(v) != "" :: DictName(v)
  }

  function PullSecretsOf(app: Fields): set<string>
  {
    NameSet(GetList(OrEmpty(GetDict(app, "image")), "imagePullSecrets"))
  }

  function AppPullSecrets(apps: seq<AppEntry>): set<string>
  {
    if apps == [] then {}
    else AppPullSecrets(apps[..|apps| - 1]) + PullSecretsOf(apps[|apps| - 1].spec)
  }

  function PullSecrets(project: Fields, apps: seq<AppEntry>): set<string>
  {
    NameSet(GetList(project, "imagePullSecrets")) + AppPullSecrets(apps)
  }

  lemma NameSetExtends(items: seq<Value>, v: Value)
    ensures NameSet(items + [v]) == NameSet(items) + (if DictName(v) != "" then {DictName(v)} else {})
  {
    assert v in items + [v];
    assert forall w | w in items + [v] :: w in items || w == v;
  }

  method CollectNames(items: seq<Value>, wanted: set<string>) returns (names: set<string>)
    ensures names == wanted + NameSet(items)
  {
    names := wanted;
    for i := 0 to |items|
      invariant names == wanted + NameSet(items[..i])
    {
      assert items[..i + 1] == items[..i] + [items[i]];
      NameSetExtends(items[..i], items[i]);
      if items[i].Dict? {
        var name := GetString(items[i].fields, "name");
        if name != "" {
          names := names + {name};
        }
      }
    }
    assert items[..|items|] == items;
  }

  method ReferencedPullSecrets(project: Fields, apps: seq<AppEntry>) returns (wanted: set<string>)
    ensures wanted == PullSecrets(project, apps)
  {
    wanted := CollectNames(GetList(project, "imagePullSecrets"), {});
    for i := 0 to |apps|
      invariant wanted == PullSecrets(project, apps[..i])
    {
      assert apps[..i + 1][..i] == apps[..i];
      var image := GetDict(apps[i].spec, "image");
      if image.Some? {
        wanted := CollectNames(GetList(image.value, "imagePullSecrets"), wanted);
      }
    }
    assert apps[..|apps|] == apps;
  }

  /** An app that declares no environment of its own inherits the project's. */
  function EnvsOf(app: Fields, project: Fields): seq<string>
  {
    if EnvNames(app) == [] then EnvNames(project) else EnvNames(app)
  }

  // ---------- Configuration per app and environment ----------

  function SlotsFor(app: string, envs: seq<string>): set<Slot>
  {
    set e | e in envs :: Slot(app, e)
  }

  function Slots(apps: seq<AppEntry>, project: Fields): set<Slot>
  {
    if apps == [] then {}
    else
      var last := apps[|apps| - 1];
      Slots(apps[..|apps| - 1], project) + SlotsFor(last.name, EnvsOf(last.spec, project))
  }

  function VarsData(store: Store, id: string, s: Slot): Fields
  {
    Read(store, VarsKey(id, s)).body
  }

  function SecretsData(store: Store, id: string, s: Slot): Fields
  {
    OrEmpty(GetDict(Read(store, SecretsKey(id, s)).body, "data"))
  }

  function VarsOf(store: Store, id: string, slots: set<Slot>): map<Slot, map<string, string>>
  {
    map s | s in slots && VarsData(store, id, s) != map[] :: StringMap(VarsData(store, id, s))
  }

  function SecretsOf(store: Store, id: string, slots: set<Slot>): map<Slot, map<string, string>>
  {
    map s | s in slots && SecretsData(store, id, s) != map[] :: StringMap(SecretsData(store, id, s))
  }

  // ---------- Shared secrets ----------

  ghost function SharedKeys(store: Store, id: string): set<Key>
  {
    Matching(store, VestaSecret, None, map[PROJECT := id, SHARED := "true"])
  }

  /** The environment a shared secret serves: its label, or what follows the project in the
      name of its namespace. */
  function SharedEnv(id: string, k: Key, o: Object): string
  {
    if Label(o, ENVIRONMENT) != "" then Label(o, ENVIRONMENT)
    else if |k.namespace| > |id| + 1 then k.namespace[|id| + 1..]
    else ""
  }

  function GroupEnvs(store: Store, id: string, items: seq<Key>, name: string): seq<string>
  {
    if items == [] then []
    else
      var k := items[|items| - 1];
      var rest := GroupEnvs(store, id, items[..|items| - 1], name);
      if k.name == name && SharedEnv(id, k, Read(store, k)) != "" then rest + [SharedEnv(id, k, Read(store, k))] else rest
  }

  function FirstNamed(items: seq<Key>, name: string): (first: Option<Key>)
    ensures first.Some? ==> first.value in items && first.value.name == name
    ensures first.None? ==> forall k | k in items :: k.name != name
  {
    if items == [] then None
    else
      var front, k := FirstNamed(items[..|items| - 1], name), items[|items| - 1];
      if front.Some? || k.name != name then front else Some(k)
  }

  function SecretData(o: Object): map<string, string> { StringMap(OrEmpty(GetDict(o.body, "data"))) }

  /** What a listing holds under one name, the environments in listing order. */
  function Group(store: Store, id: string, items: seq<Key>, name: string): SharedEntry
  {
    var first := FirstNamed(items, name);
    SharedEntry(name, GroupEnvs(store, id, items, name), if first.Some? then SecretData(Read(store, first.value)) else map[])
  }

  function SortEnvs(e: SharedEntry): SharedEntry { e.(environments := SortStrings(e.environments)) }

  function KeyNames(items: seq<Key>): set<string> { set k | k in items :: k.name }

  function SharedEntries(store: Store, id: string, items: seq<Key>, names: seq<string>): seq<SharedEntry>
  {
    seq(|names|, i requires 0 <= i < |names| => SortEnvs(Group(store, id, items, names[i])))
  }

  ghost function SharedOf(store: Store, id: string): seq<SharedEntry>
  {
    var items := Listing(SharedKeys(store, id));
    SharedEntries(store, id, items, Ordered(KeyNames(items)))
  }

  // ---------- Registry credentials ----------

  ghost function RegistryNames(store: Store, wanted: set<string>): set<string>
  {
    set k | k in Matching(store, VestaSecret, Some(SYSTEM), map[TYPE := "registry"]) && k.name in wanted :: k.name
  }

  function RegistryEntryOf(store: Store, name: string): RegistryEntry
  {
    var cfg := OrEmpty(GetDict(Read(store, RegistryKey(name)).body, "dockerConfig"));
    RegistryEntry(name, GetString(cfg, "registry"), GetString(cfg, "username"), GetString(cfg, "password"))
  }

  function RegistryEntries(store: Store, names: seq<string>): seq<RegistryEntry>
  {
    seq(|names|, i requires 0 <= i < |names| => RegistryEntryOf(store, names[i]))
  }

  ghost function RegistryOf(store: Store, wanted: set<string>): seq<RegistryEntry>
  {
    RegistryEntries(store, Ordered(RegistryNames(store, wanted)))
  }

  // ---------- The whole project ----------

  ghost function AppKeys(store: Store, id: string): set<Key>
  {
    Matching(store, VestaApp, Some(SYSTEM), map[PROJECT := id])
  }

  function AppEntries(store: Store, items: seq<Key>): seq<AppEntry>
  {
    seq(|items|, i requires 0 <= i < |items| => AppEntry(items[i].name, Read(store, items[i]).body))
  }

  ghost function AppsOf(store: Store, id: string): seq<AppEntry>
  {
    AppEntries(store, Listing(AppKeys(store, id)))
  }

  ghost function Collect(store: Store, id: string): Option<Payload>
  {
    if ProjectKey(id) !in store then None
    else
      var spec, apps := store[ProjectKey(id)].body, AppsOf(store, id);
      Some(Payload(id, spec, apps,
                   VarsOf(store, id, Slots(apps, spec)),
                   SecretsOf(store, id, Slots(apps, spec)),
                   SharedOf(store, id),
                   RegistryOf(store, PullSecrets(spec, apps))))
  }

  // ---------- The handlers ----------

  ghost predicate Grouped(store: Store, id: string, items: seq<Key>, grouped: map<string, SharedEntry>)
  {
    grouped.Keys == KeyNames(items) && forall n | n in grouped :: grouped[n] == Group(store, id, items, n)
  }

  /** A group with one more secret of its name. */
  function AddTo(e: SharedEntry, env: string): SharedEntry
  {
    if env == "" then e else e.(environments := e.environments + [env])
  }

  lemma AddToAppends(e: SharedEntry, env: string)
    ensures AddTo(e, env) == if env == "" then e else e.(environments := e.environments + [env])
  {}

  lemma {:induction false} NoneNamed(store: Store, id: string, items: seq<Key>, name: string)
    requires name !in KeyNames(items)
    ensures GroupEnvs(store, id, items, name) == [] && FirstNamed(items, name) == None
  {
    if items != [] {
      assert items[|items| - 1] in items && forall k | k in items[..|items| - 1] :: k in items;
      NoneNamed(store, id, items[..|items| - 1], name);
    }
  }

  lemma {:induction false} GroupStep(store: Store, id: string, items: seq<Key>, k: Key, n: string)
    requires n != k.name || n in KeyNames(items)
    ensures Group(store, id, items + [k], n) ==
            if n == k.name then AddTo(Group(store, id, items, n), SharedEnv(id, k, Read(store, k)))
            else Group(store, id, items, n)
  {
    assert (items + [k])[..|items|] == items;
    assert n in KeyNames(items) ==> exists j | j in items :: j.name == n;
  }

  lemma {:induction false} GroupStart(store: Store, id: string, items: seq<Key>, k: Key)
    requires k.name !in KeyNames(items)
    ensures Group(store, id, items + [k], k.name) ==
            AddTo(SharedEntry(k.name, [], SecretData(Read(store, k))), SharedEnv(id, k, Read(store, k)))
  {
    assert (items + [k])[..|items|] == items;
    NoneNamed(store, id, items, k.name);
  }

  lemma KeyNamesExtend(items: seq<Key>, k: Key)
    ensures KeyNames(items + [k]) == KeyNames(items) + {k.name}
  {
    assert k in items + [k] && forall j | j in items + [k] :: j in items || j == k;
    assert forall j | j in items :: j in items + [k];
  }

  lemma GroupedExtends(store: Store, id: string, items: seq<Key>, grouped: map<string, SharedEntry>, k: Key)
    requires Grouped(store, id, items, grouped)
    ensures var o := Read(store, k);
      var e := if k.name in grouped then grouped[k.name] else SharedEntry(k.name, [], SecretData(o));
      Grouped(store, id, items + [k], grouped[k.name := AddTo(e, SharedEnv(id, k, o))])
  {
    hide Group, SharedEnv, SecretData, KeyNames, AddTo;
    KeyNamesExtend(items, k);
    forall n | n in KeyNames(items) && n != k.name
      ensures Group(store, id, items + [k], n) == grouped[n]
    {
      GroupStep(store, id, items, k, n);
    }
    if k.name in grouped {
      GroupStep(store, id, items, k, k.name);
    } else {
      GroupStart(store, id, items, k);
    }
  }

  /** Gathers a listing by name, the way the handler's map of entries does. */
  method GroupByName(store: Store, id: string, items: seq<Key>) returns (grouped: map<string, SharedEntry>)
    ensures Grouped(store, id, items, grouped)
  {
    grouped := map[];
    assert Grouped(store, id, [], grouped);
    hide Grouped, AddTo;
    for i := 0 to |items|
      invariant Grouped(store, id, items[..i], grouped)
    {
      var k := items[i];
      var o := Read(store, k);
      assert items[..i + 1] == items[..i] + [k];
      GroupedExtends(store, id, items[..i], grouped, k);
      var env := Label(o, ENVIRONMENT);
      if env == "" {
        if |k.namespace| > |id + "-"| {
          env := k.namespace[|id + "-"|..];
        }
      }
      var entry: SharedEntry;
      if k.name in grouped {
        entry := grouped[k.name];
      } else {
        entry := SharedEntry(k.name, [], StringMap(OrEmpty(GetDict(o.body, "data"))));
      }
      assert env == SharedEnv(id, k, o);
      ghost var before := entry;
      if env != "" {
        entry := entry.(environments := entry.environments + [env]);
      }
      assert entry == AddTo(before, env) by { AddToAppends(before, env); }
      grouped := grouped[k.name := entry];
    }
    assert items[..|items|] == items;
  }

  lemma SharedEntriesExtend(
    store: Store, id: string, items: seq<Key>, grouped: map<string, SharedEntry>, names: seq<string>, n: string)
    requires Grouped(store, id, items, grouped) && n in grouped
    ensures SharedEntries(store, id, items, names + [n]) ==
            SharedEntries(store, id, items, names) + [SortEnvs(grouped[n])]
  {
    hide Group, SortEnvs;
    assert grouped[n] == Group(store, id, items, n);
  }

  method CollectSharedSecrets(server: ApiServer, id: string) returns (out: seq<SharedEntry>)
    ensures out == SharedOf(server.objects, id)
  {
    hide Grouped, Group, SortEnvs, SharedEntries, Matching, Listing;
    var items := server.List(VestaSecret, None, map[PROJECT := id, SHARED := "true"]);
    var grouped := GroupByName(server.objects, id, items);
    assert grouped.Keys == KeyNames(items) by {
      GroupedKeys(server.objects, id, items, grouped);
    }
    var names := SortedKeys(grouped.Keys);
    OrderedIsExact(grouped.Keys);
    hide KeyNames, Ordered;
    out := [];
    assert out == SharedEntries(server.objects, id, items, []) by { SharedEntriesOfNone(server.objects, id, items); }
    for i := 0 to |names|
      invariant out == SharedEntries(server.objects, id, items, names[..i])
    {
      assert names[i] in names && names[..i + 1] == names[..i] + [names[i]];
      SharedEntriesExtend(server.objects, id, items, grouped, names[..i], names[i]);
      out := out + [SortEnvs(grouped[names[i]])];
    }
    assert names[..|names|] == names;
  }

  lemma SharedEntriesOfNone(store: Store, id: string, items: seq<Key>)
    ensures SharedEntries(store, id, items, []) == []
  {}

  lemma GroupedKeys(store: Store, id: string, items: seq<Key>, grouped: map<string, SharedEntry>)
    requires Grouped(store, id, items, grouped)
    ensures grouped.Keys == KeyNames(items)
  {}

  ghost predicate RegistryProgress(
    store: Store, items: seq<Key>, wanted: set<string>, out: seq<RegistryEntry>, names: seq<string>)
  {
    out == RegistryEntries(store, names) && NoRepeats(names) &&
    forall n :: n in names <==> RegistryKey(n) in items && n in wanted
  }

  lemma RegistryExtends(
    store: Store, items: seq<Key>, wanted: set<string>, out: seq<RegistryEntry>, names: seq<string>, k: Key)
    requires RegistryProgress(store, items, wanted, out, names)
    requires k == RegistryKey(k.name) && k !in items
    ensures k.name !in wanted ==> RegistryProgress(store, items + [k], wanted, out, names)
    ensures k.name in wanted ==>
      RegistryProgress(store, items + [k], wanted, out + [RegistryEntryOf(store, k.name)], names + [k.name])
  {
    assert forall j :: j in items + [k] <==> j in items || j == k;
    if k.name in wanted {
      assert k.name !in names;
      assert forall n :: n in names + [k.name] <==> n in names || n == k.name;
    }
  }

  lemma RegistryEnds(
    store: Store, wanted: set<string>, out: seq<RegistryEntry>, names: seq<string>)
    requires RegistryProgress(store, Listing(Matching(store, VestaSecret, Some(SYSTEM), map[TYPE := "registry"])), wanted, out, names)
    ensures SortRegistry(out) == RegistryOf(store, wanted)
  {
    var keys := Matching(store, VestaSecret, Some(SYSTEM), map[TYPE := "registry"]);
    ListingIsExact(keys);
    assert forall k | k in keys :: k == RegistryKey(k.name);
    hide Matching, Listing, SortRegistry;
    SortRegistrySorts(store, names);
    assert forall n :: n in names <==> n in RegistryNames(store, wanted);
    SortedNamesAreOrdered(names, RegistryNames(store, wanted));
  }

  method CollectRegistrySecrets(server: ApiServer, wanted: set<string>) returns (out: seq<RegistryEntry>)
    ensures out == RegistryOf(server.objects, wanted)
  {
    var store := server.objects;
    var items := server.List(VestaSecret, Some(SYSTEM), map[TYPE := "registry"]);
    ghost var keys := Matching(store, VestaSecret, Some(SYSTEM), map[TYPE := "registry"]);
    ListingIsExact(keys);
    assert forall k | k in keys :: k == RegistryKey(k.name);
    assert RegistryProgress(store, [], wanted, [], []);
    hide Matching, Listing, RegistryOf, RegistryProgress, SortRegistry, RegistryNames, NoRepeats, RegistryEntries;
    out := [];
    ghost var names: seq<string> := [];
    for i := 0 to |items|
      invariant RegistryProgress(store, items[..i], wanted, out, names)
    {
      var k := items[i];
      assert items[..i + 1] == items[..i] + [k] && k in items;
      RegistryExtends(store, items[..i], wanted, out, names, k);
      if k.name in wanted {
        var cfg := OrEmpty(GetDict(Read(store, k).body, "dockerConfig"));
        out := out + [RegistryEntry(k.name, GetString(cfg, "registry"), GetString(cfg, "username"), GetString(cfg, "password"))];
        names := names + [k.name];
      }
    }
    assert items[..|items|] == items;
    RegistryEnds(store, wanted, out, names);
    out := SortRegistry(out);
  }

  lemma SortedNamesAreOrdered(names: seq<string>, all: set<string>)
    requires NoRepeats(names) && forall n :: n in names <==> n in all
    ensures SortStrings(names) == Ordered(all)
  {
    NoRepeatsCounts(names);
    assert (set n | n in names) == all;
    SortStringsSorts(names);
    OrderedIsUnique(all, SortStrings(names));
  }

  function InsertRegistry(e: RegistryEntry, es: seq<RegistryEntry>): seq<RegistryEntry>
  {
    if es == [] || StrLe(e.name, es[0].name) then [e] + es else [es[0]] + InsertRegistry(e, es[1..])
  }

  /** sort.Slice by name. */
  function SortRegistry(es: seq<RegistryEntry>): seq<RegistryEntry>
  {
    if es == [] then [] else InsertRegistry(es[0], SortRegistry(es[1..]))
  }

  lemma {:induction false} InsertRegistryInserts(store: Store, name: string, names: seq<string>)
    ensures InsertRegistry(RegistryEntryOf(store, name), RegistryEntries(store, names)) ==
            RegistryEntries(store, Insert(name, names))
  {
    if names != [] && !StrLe(name, names[0]) {
      InsertRegistryInserts(store, name, names[1..]);
      assert RegistryEntries(store, names)[1..] == RegistryEntries(store, names[1..]);
    }
  }

  lemma {:induction false} SortRegistrySorts(store: Store, names: seq<string>)
    ensures SortRegistry(RegistryEntries(store, names)) == RegistryEntries(store, SortStrings(names))
  {
    if names != [] {
      SortRegistrySorts(store, names[1..]);
      assert RegistryEntries(store, names)[1..] == RegistryEntries(store, names[1..]);
      InsertRegistryInserts(store, names[0], SortStrings(names[1..]));
    }
  }

  lemma ConfigExtends(store: Store, id: string, slots: set<Slot>, s: Slot)
    ensures VarsOf(store, id, slots + {s}) ==
            var data := VarsData(store, id, s);
            if data == map[] then VarsOf(store, id, slots) else VarsOf(store, id, slots)[s := StringMap(data)]
    ensures SecretsOf(store, id, slots + {s}) ==
            var data := SecretsData(store, id, s);
            if data == map[] then SecretsOf(store, id, slots) else SecretsOf(store, id, slots)[s := StringMap(data)]
  {}

  lemma SlotsExtend(slots: set<Slot>, app: string, envs: seq<string>, env: string)
    ensures slots + SlotsFor(app, []) == slots
    ensures slots + SlotsFor(app, envs + [env]) == slots + SlotsFor(app, envs) + {Slot(app, env)}
  {
    assert env in envs + [env] && forall e | e in envs + [env] :: e in envs || e == env;
    assert forall e | e in envs :: e in envs + [env];
  }

  /** Reads the two configuration objects of one app in each of its environments. */
  method CollectConfig(
    store: Store, id: string, app: string, envs: seq<string>, ghost slots: set<Slot>,
    envVars: map<Slot, map<string, string>>, secrets: map<Slot, map<string, string>>)
    returns (envVars': map<Slot, map<string, string>>, secrets': map<Slot, map<string, string>>)
    requires envVars == VarsOf(store, id, slots) && secrets == SecretsOf(store, id, slots)
    ensures envVars' == VarsOf(store, id, slots + SlotsFor(app, envs))
    ensures secrets' == SecretsOf(store, id, slots + SlotsFor(app, envs))
  {
    hide VarsOf, SecretsOf, SlotsFor;
    envVars', secrets' := envVars, secrets;
    SlotsExtend(slots, app, [], "");
    for j := 0 to |envs|
      invariant envVars' == VarsOf(store, id, slots + SlotsFor(app, envs[..j]))
      invariant secrets' == SecretsOf(store, id, slots + SlotsFor(app, envs[..j]))
    {
      var s := Slot(app, envs[j]);
      assert envs[..j + 1] == envs[..j] + [envs[j]];
      SlotsExtend(slots, app, envs[..j], envs[j]);
      ConfigExtends(store, id, slots + SlotsFor(app, envs[..j]), s);
      if VarsKey(id, s) in store {
        var data := store[VarsKey(id, s)].body;
        if data != map[] {
          envVars' := envVars'[s := StringMap(data)];
        }
      }
      if SecretsKey(id, s) in store {
        var data := OrEmpty(GetDict(store[SecretsKey(id, s)].body, "data"));
        if data != map[] {
          secrets' := secrets'[s := StringMap(data)];
        }
      }
    }
    assert envs[..|envs|] == envs;
  }

  ghost predicate Collected(
    store: Store, id: string, spec: Fields, items: seq<Key>, apps: seq<AppEntry>,
    envVars: map<Slot, map<string, string>>, secrets: map<Slot, map<string, string>>)
  {
    apps == AppEntries(store, items) &&
    envVars == VarsOf(store, id, Slots(apps, spec)) && secrets == SecretsOf(store, id, Slots(apps, spec))
  }

  lemma CollectedExtends(
    store: Store, id: string, spec: Fields, items: seq<Key>, k: Key, apps: seq<AppEntry>,
    envVars: map<Slot, map<string, string>>, secrets: map<Slot, map<string, string>>)
    requires apps == AppEntries(store, items)
    requires var slots := Slots(apps, spec) + SlotsFor(k.name, EnvsOf(Read(store, k).body, spec));
      envVars == VarsOf(store, id, slots) && secrets == SecretsOf(store, id, slots)
    ensures Collected(store, id, spec, items + [k], apps + [AppEntry(k.name, Read(store, k).body)], envVars, secrets)
  {
    hide VarsOf, SecretsOf, SlotsFor, EnvsOf;
    var app := AppEntry(k.name, Read(store, k).body);
    assert (apps + [app])[..|apps|] == apps;
  }

  /** The environments an app's configuration is read from. */
  method EnvironmentsOf(app: Fields, project: Fields) returns (envs: seq<string>)
    ensures envs == EnvsOf(app, project)
  {
    envs := SpecEnvironmentNames(app);
    if |envs| == 0 {
      envs := SpecEnvironmentNames(project);
    }
  }

  lemma CollectedStarts(store: Store, id: string, spec: Fields)
    ensures Collected(store, id, spec, [], [], map[], map[])
  {}

  /** The loop over the listed apps. */
  method CollectApps(store: Store, id: string, spec: Fields, items: seq<Key>)
    returns (apps: seq<AppEntry>, envVars: map<Slot, map<string, string>>, secrets: map<Slot, map<string, string>>)
    ensures Collected(store, id, spec, items, apps, envVars, secrets)
  {
    hide *;
    apps, envVars, secrets := [], map[], map[];
    CollectedStarts(store, id, spec);
    ghost var done: seq<Key> := [];
    for i := 0 to |items|
      invariant done == items[..i] && Collected(store, id, spec, done, apps, envVars, secrets)
    {
      envVars, secrets := CollectApp(store, id, spec, done, items[i], apps, envVars, secrets);
      apps := apps + [AppEntry(items[i].name, Read(store, items[i]).body)];
      done := done + [items[i]];
    }
    assert done == items;
  }

  /** One round of that loop. */
  method CollectApp(
    store: Store, id: string, spec: Fields, ghost done: seq<Key>, k: Key, ghost apps: seq<AppEntry>,
    envVars: map<Slot, map<string, string>>, secrets: map<Slot, map<string, string>>)
    returns (envVars': map<Slot, map<string, string>>, secrets': map<Slot, map<string, string>>)
    requires Collected(store, id, spec, done, apps, envVars, secrets)
    ensures Collected(store, id, spec, done + [k], apps + [AppEntry(k.name, Read(store, k).body)], envVars', secrets')
  {
    hide *;
    CollectedMeans(store, id, spec, done, apps, envVars, secrets);
    var envs := EnvironmentsOf(Read(store, k).body, spec);
    envVars', secrets' := CollectConfig(store, id, k.name, envs, Slots(apps, spec), envVars, secrets);
    CollectedExtends(store, id, spec, done, k, apps, envVars', secrets');
  }

  lemma CollectedMeans(
    store: Store, id: string, spec: Fields, items: seq<Key>, apps: seq<AppEntry>,
    envVars: map<Slot, map<string, string>>, secrets: map<Slot, map<string, string>>)
    requires Collected(store, id, spec, items, apps, envVars, secrets)
    ensures apps == AppEntries(store, items)
    ensures envVars == VarsOf(store, id, Slots(apps, spec)) && secrets == SecretsOf(store, id, Slots(apps, spec))
  {}

  method CollectProject(server: ApiServer, id: string) returns (payload: Option<Payload>)
    ensures payload == Collect(server.objects, id)
  {
    var store := server.objects;
    if ProjectKey(id) !in store {
      return None;
    }
    hide VarsOf, SecretsOf, SharedOf, RegistryOf, Matching, Listing, PullSecrets, Slots, AppEntries;
    var spec := store[ProjectKey(id)].body;
    var items := server.List(VestaApp, Some(SYSTEM), map[PROJECT := id]);
    var apps, envVars, secrets := CollectApps(store, id, spec, items);
    var shared := CollectSharedSecrets(server, id);
    var wanted := ReferencedPullSecrets(spec, apps);
    var registry := CollectRegistrySecrets(server, wanted);
    payload := Some(Payload(id, spec, apps, envVars, secrets, shared, registry));
  }
}
