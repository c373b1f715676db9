/** What an export holds, told from the objects of the cluster. */
module ExportContents {
  import opened Json
  import opened Text
  import opened Cluster
  import opened Bundle
  import opened Export

  // ---------- Names in a list ----------

  /** The list under a key has a mapping with this name, which is not empty. */
  ghost predicate Names(m: Fields, key: string, name: string)
  {
    name != "" && key in m && m[key].List? && exists v | v in m[key].items :: IsEntry(v, name)
  }

  predicate IsEntry(v: Value, name: string) { v.Dict? && "name" in v.fields && v.fields["name"] == Text(name) }

  ghost predicate NamesNothing(m: Fields, key: string) { forall name :: !Names(m, key, name) }

  lemma {:induction false} NamesInAre(items: seq<Value>, name: string)
    ensures name in NamesIn(items) <==> name != "" && exists v | v in items :: IsEntry(v, name)
  {
    if items != [] {
      var front, last := items[..|items| - 1], items[|items| - 1];
      NamesInAre(front, name);
      assert items == front + [last];
      assert DictName(last) == name && name != "" <==> name != "" && IsEntry(last, name);
    }
  }

  lemma EnvNamesAre(m: Fields, env: string)
    ensures env in EnvNames(m) <==> Names(m, "environments", env)
  {
    NamesInAre(GetList(m, "environments"), env);
  }

  lemma NameSetIs(m: Fields, key: string, name: string)
    ensures name in NameSet(GetList(m, key)) <==> Names(m, key, name)
  {
    var items := GetList(m, key);
    if name in NameSet(items) {
      var v :| v in items && DictName(v) != "" && DictName(v) == name;
      assert IsEntry(v, name);
    }
    if v :| v in items && name != "" && IsEntry(v, name) {
      assert DictName(v) == name;
    }
  }

  // ---------- Apps ----------

  /** An app of the project is stored, with this spec. */
  predicate IsApp(store: Store, id: string, app: string, spec: Fields)
  {
    var k := Key(VestaApp, "vesta-system", app);
    k in store && "kubernetes.getvesta.sh/project" in store[k].labels &&
    store[k].labels["kubernetes.getvesta.sh/project"] == id && store[k].body == spec
  }

  /** There is a bundle exactly when the project is stored, and it carries its name and spec. */
  lemma ProjectIsExported(store: Store, id: string)
    ensures var k, payload := Key(VestaProject, "vesta-system", id), Collect(store, id);
      (payload.Some? <==> k in store) && (payload.Some? ==> payload.value.name == id && payload.value.spec == store[k].body)
  {}

  /** The bundle holds exactly the apps labelled with the project, with their specs, ordered by name. */
  lemma AppsAreExported(store: Store, id: string)
    requires Collect(store, id).Some?
    ensures var apps := Collect(store, id).value.apps;
      (forall a :: a in apps <==> IsApp(store, id, a.name, a.spec)) &&
      forall i, j | 0 <= i < j < |apps| :: apps[i].name != apps[j].name && StrLe(apps[i].name, apps[j].name)
  {
    AppsOfAre(store, id);
    hide AppsOf, VarsOf, SecretsOf, SharedOf, RegistryOf, Slots, PullSecrets;
  }

  lemma AppsOfAre(store: Store, id: string)
    ensures forall a :: a in AppsOf(store, id) <==> IsApp(store, id, a.name, a.spec)
    ensures var apps := AppsOf(store, id);
      forall i, j | 0 <= i < j < |apps| :: apps[i].name != apps[j].name && StrLe(apps[i].name, apps[j].name)
  {
    var keys := AppKeys(store, id);
    ListingIsExact(keys);
    ListingIsSorted(keys);
    forall a ensures a in AppsOf(store, id) <==> IsApp(store, id, a.name, a.spec) {
      AppIsListed(store, id, a);
    }
    var items := Listing(keys);
    forall i, j | 0 <= i < j < |items| ensures items[i].name != items[j].name && StrLe(items[i].name, items[j].name) {
      assert items[i] in keys && items[j] in keys;
    }
  }

  lemma AppIsListed(store: Store, id: string, a: AppEntry)
    ensures a in AppsOf(store, id) <==> IsApp(store, id, a.name, a.spec)
  {
    var keys := AppKeys(store, id);
    var items := Listing(keys);
    ListingIsExact(keys);
    assert forall k: Key :: k in keys <==>
      k == AppKey(k.name) && k in store && Selects(map[PROJECT := id], store[k]);
    hide AppKeys, Listing, Matching;
    if a in AppsOf(store, id) {
      var i :| 0 <= i < |items| && a == AppEntry(items[i].name, Read(store, items[i]).body);
      assert items[i] in keys;
    }
    if IsApp(store, id, a.name, a.spec) {
      assert AppKey(a.name) in items;
      var i :| 0 <= i < |items| && items[i] == AppKey(a.name);
      assert AppsOf(store, id)[i] == a;
    }
  }

  // ---------- Variables and secrets of the apps ----------

  /** The environments of an app: those it lists, or the project's when it lists none. */
  ghost predicate RunsIn(app: Fields, project: Fields, env: string)
  {
    if NamesNothing(app, "environments") then Names(project, "environments", env) else Names(app, "environments", env)
  }

  /** The strings of the data, and nothing else. */
  ghost predicate StringsOf(m: map<string, string>, data: Fields)
  {
    (forall k :: k in m <==> k in data && data[k].Text?) && forall k | k in m :: data[k] == Text(m[k])
  }

  lemma EnvsOfAre(app: Fields, project: Fields, env: string)
    ensures env in EnvsOf(app, project) <==> RunsIn(app, project, env)
  {
    forall e ensures e in EnvNames(app) <==> Names(app, "environments", e) { EnvNamesAre(app, e); }
    EnvNamesAre(project, env);
    if EnvNames(app) != [] {
      assert EnvNames(app)[0] in EnvNames(app);
      assert Names(app, "environments", EnvNames(app)[0]);
    }
    hide EnvNames, Names;
  }

  lemma {:induction false} SlotsAre(apps: seq<AppEntry>, project: Fields, s: Slot)
    ensures s in Slots(apps, project) <==> exists a | a in apps :: a.name == s.app && RunsIn(a.spec, project, s.env)
  {
    if apps != [] {
      var front, last := apps[..|apps| - 1], apps[|apps| - 1];
      SlotsAre(front, project, s);
      EnvsOfAre(last.spec, project, s.env);
      assert apps == front + [last];
      hide RunsIn, EnvsOf, Slots;
      assert s in Slots(apps, project) <==> s in Slots(front, project) || s in SlotsFor(last.name, EnvsOf(last.spec, project)) by {
        SlotsOfLast(apps, project);
      }
    }
  }

  lemma SlotsOfLast(apps: seq<AppEntry>, project: Fields)
    requires apps != []
    ensures Slots(apps, project) ==
      Slots(apps[..|apps| - 1], project) + SlotsFor(apps[|apps| - 1].name, EnvsOf(apps[|apps| - 1].spec, project))
  {}

  /** An app of the project that runs in an environment: one it lists itself, or, when it lists none,
      one the project lists. */
  ghost predicate Deployed(store: Store, id: string, app: string, env: string)
  {
    var k, p := Key(VestaApp, "vesta-system", app), Key(VestaProject, "vesta-system", id);
    k in store && p in store && IsApp(store, id, app, store[k].body) && RunsIn(store[k].body, store[p].body, env)
  }

  lemma ExportedSlots(store: Store, id: string, s: Slot)
    requires Collect(store, id).Some?
    ensures s in Slots(AppsOf(store, id), store[ProjectKey(id)].body) <==> Deployed(store, id, s.app, s.env)
  {
    var project := store[ProjectKey(id)].body;
    SlotsAre(AppsOf(store, id), project, s);
    AppsOfAre(store, id);
    hide AppsOf, RunsIn, Slots;
    if Deployed(store, id, s.app, s.env) {
      var a := AppEntry(s.app, store[AppKey(s.app)].body);
      assert a in AppsOf(store, id);
    }
  }

  /** The variables of an app in an environment are exported exactly when it runs there and the
      config map of its name holds data, and are then the strings of that data. */
  lemma VariablesAreExported(store: Store, id: string, app: string, env: string)
    requires Collect(store, id).Some?
    ensures var vars, k := Collect(store, id).value.envVars, Key(ConfigMap, id + "-" + env, app + "-envvars");
      (Slot(app, env) in vars <==> Deployed(store, id, app, env) && k in store && store[k].body != map[]) &&
      (Slot(app, env) in vars ==> StringsOf(vars[Slot(app, env)], store[k].body))
  {
    ExportedSlots(store, id, Slot(app, env));
    hide AppsOf, Slots, Deployed, SharedOf, RegistryOf, SecretsOf, PullSecrets;
  }

  /** And its secrets exactly when the secret of its name does. */
  lemma SecretsAreExported(store: Store, id: string, app: string, env: string)
    requires Collect(store, id).Some?
    ensures var secrets, k := Collect(store, id).value.secrets, Key(VestaSecret, id + "-" + env, app + "-secrets");
      (Slot(app, env) in secrets <==>
        Deployed(store, id, app, env) && k in store &&
        "data" in store[k].body && store[k].body["data"].Dict? && store[k].body["data"].fields != map[]) &&
      (Slot(app, env) in secrets ==> StringsOf(secrets[Slot(app, env)], store[k].body["data"].fields))
  {
    ExportedSlots(store, id, Slot(app, env));
    hide AppsOf, Slots, Deployed, SharedOf, RegistryOf, VarsOf, PullSecrets;
  }

  // ---------- Registry credentials ----------

  /** The project, or the image block of one of its apps, names the credential. */
  ghost predicate Wanted(store: Store, id: string, name: string)
  {
    var p := Key(VestaProject, "vesta-system", id);
    p in store &&
    (Names(store[p].body, "imagePullSecrets", name) ||
     exists app: string, spec: Fields :: IsApp(store, id, app, spec) && PullsWith(spec, name))
  }

  ghost predicate PullsWith(spec: Fields, name: string)
  {
    "image" in spec && spec["image"].Dict? && Names(spec["image"].fields, "imagePullSecrets", name)
  }

  lemma {:induction false} AppPullSecretsAre(apps: seq<AppEntry>, name: string)
    ensures name in AppPullSecrets(apps) <==> exists a | a in apps :: PullsWith(a.spec, name)
  {
    if apps != [] {
      var front, last := apps[..|apps| - 1], apps[|apps| - 1];
      AppPullSecretsAre(front, name);
      NameSetIs(OrEmpty(GetDict(last.spec, "image")), "imagePullSecrets", name);
      assert apps == front + [last];
      hide Names;
    }
  }

  lemma PullSecretsAre(store: Store, id: string, name: string)
    requires Collect(store, id).Some?
    ensures name in PullSecrets(store[ProjectKey(id)].body, AppsOf(store, id)) <==> Wanted(store, id, name)
  {
    var apps := AppsOf(store, id);
    NameSetIs(store[ProjectKey(id)].body, "imagePullSecrets", name);
    AppPullSecretsAre(apps, name);
    AppsOfAre(store, id);
    hide AppsOf, Names, PullsWith, IsApp;
    if app: string, spec: Fields :| IsApp(store, id, app, spec) && PullsWith(spec, name) {
      assert AppEntry(app, spec) in apps;
    }
  }

  /** A stored credential: a secret of the instance labelled as one. */
  predicate IsCredential(store: Store, r: RegistryEntry)
  {
    var k := Key(VestaSecret, "vesta-system", r.name);
    k in store && "kubernetes.getvesta.sh/type" in store[k].labels &&
    store[k].labels["kubernetes.getvesta.sh/type"] == "registry" &&
    var cfg := OrEmpty(GetDict(store[k].body, "dockerConfig"));
    r.registry == GetString(cfg, "registry") && r.username == GetString(cfg, "username") &&
    r.password == GetString(cfg, "password")
  }

  lemma RegistryNamesAre(store: Store, wanted: set<string>, name: string)
    ensures name in RegistryNames(store, wanted) <==>
      RegistryKey(name) in store && Selects(map[TYPE := "registry"], store[RegistryKey(name)]) && name in wanted
  {
    if RegistryKey(name) in store && Selects(map[TYPE := "registry"], store[RegistryKey(name)]) && name in wanted {
      assert RegistryKey(name) in Matching(store, VestaSecret, Some(SYSTEM), map[TYPE := "registry"]);
    }
  }

  lemma RegistryIs(store: Store, wanted: set<string>, r: RegistryEntry)
    ensures r in RegistryOf(store, wanted) <==> IsCredential(store, r) && r.name in wanted
  {
    var names := Ordered(RegistryNames(store, wanted));
    OrderedIsExact(RegistryNames(store, wanted));
    RegistryNamesAre(store, wanted, r.name);
    hide RegistryNames, Ordered;
    if r in RegistryOf(store, wanted) {
      var i :| 0 <= i < |names| && r == RegistryEntryOf(store, names[i]);
      assert names[i] in names && names[i] == r.name;
    }
    if IsCredential(store, r) && r.name in wanted {
      assert r.name in names;
      var i :| 0 <= i < |names| && names[i] == r.name;
      assert RegistryOf(store, wanted)[i] == r;
    }
  }

  /** The bundle holds exactly the stored credentials that the project or an app of it names. */
  lemma CredentialsAreExported(store: Store, id: string, r: RegistryEntry)
    requires Collect(store, id).Some?
    ensures r in Collect(store, id).value.registry <==> IsCredential(store, r) && Wanted(store, id, r.name)
  {
    PullSecretsAre(store, id, r.name);
    RegistryIs(store, PullSecrets(store[ProjectKey(id)].body, AppsOf(store, id)), r);
    hide AppsOf, Slots, SharedOf, RegistryOf, VarsOf, SecretsOf, PullSecrets, Wanted, IsCredential;
  }

  // ---------- Shared secrets ----------

  /** A shared secret of the project, in any namespace. */
  predicate IsShared(store: Store, id: string, k: Key)
  {
    k in store && k.kind == VestaSecret &&
    "kubernetes.getvesta.sh/project" in store[k].labels && store[k].labels["kubernetes.getvesta.sh/project"] == id &&
    "kubernetes.getvesta.sh/shared" in store[k].labels && store[k].labels["kubernetes.getvesta.sh/shared"] == "true"
  }

  /** The environment it is for: its label, or else what follows the project in its namespace. */
  predicate IsFor(store: Store, id: string, k: Key, env: string)
  {
    env != "" &&
    if k in store && "kubernetes.getvesta.sh/environment" in store[k].labels &&
      store[k].labels["kubernetes.getvesta.sh/environment"] != ""
    then env == store[k].labels["kubernetes.getvesta.sh/environment"]
    else |k.namespace| > |id| + 1 && env == k.namespace[|id| + 1..]
  }

  lemma SharedKeyIs(store: Store, id: string, k: Key)
    ensures k in SharedKeys(store, id) <==> IsShared(store, id, k)
  {
    assert PROJECT != SHARED by { assert |PROJECT| == 30 && |SHARED| == 29; }
  }

  lemma SharedEnvIs(store: Store, id: string, k: Key, env: string)
    ensures SharedEnv(id, k, Read(store, k)) == env && env != "" <==> IsFor(store, id, k, env)
  {}

  ghost function For(store: Store, id: string, items: seq<Key>, name: string, env: string): set<Key>
  {
    set k | k in items && k.name == name && IsFor(store, id, k, env)
  }

  lemma ForOneMore(store: Store, id: string, front: seq<Key>, k: Key, name: string, env: string)
    requires k !in front
    ensures |For(store, id, front + [k], name, env)| ==
      |For(store, id, front, name, env)| + if k.name == name && IsFor(store, id, k, env) then 1 else 0
  {
    hide IsFor;
    var was := For(store, id, front, name, env);
    assert forall j :: j in front + [k] <==> j in front || j == k;
    if k.name == name && IsFor(store, id, k, env) {
      assert For(store, id, front + [k], name, env) == was + {k};
    } else {
      assert For(store, id, front + [k], name, env) == was;
    }
  }

  lemma GroupEnvsOneMore(store: Store, id: string, front: seq<Key>, k: Key, name: string, env: string)
    ensures multiset(GroupEnvs(store, id, front + [k], name))[env] ==
      multiset(GroupEnvs(store, id, front, name))[env] + if k.name == name && IsFor(store, id, k, env) then 1 else 0
  {
    assert (front + [k])[..|front|] == front;
    forall e ensures SharedEnv(id, k, Read(store, k)) == e && e != "" <==> IsFor(store, id, k, e) { SharedEnvIs(store, id, k, e); }
    hide SharedEnv, IsFor;
  }

  /** An environment is listed once for each secret that is for it. */
  lemma {:induction false} GroupCounts(store: Store, id: string, items: seq<Key>, name: string, env: string)
    requires NoRepeats(items)
    ensures multiset(GroupEnvs(store, id, items, name))[env] == |For(store, id, items, name, env)|
  {
    if items == [] {
      assert For(store, id, items, name, env) == {};
    } else {
      var front, k := items[..|items| - 1], items[|items| - 1];
      assert items == front + [k];
      NoRepeatsFront(front, k);
      GroupCounts(store, id, front, name, env);
      GroupEnvsOneMore(store, id, front, k, name, env);
      ForOneMore(store, id, front, k, name, env);
      hide GroupEnvs, For, IsFor;
    }
  }

  /** The first secret of a name is that in the first namespace. */
  lemma {:induction false} FirstIsLeast(items: seq<Key>, name: string)
    requires forall i, j | 0 <= i < j < |items| :: KeyLe(items[i], items[j])
    ensures FirstNamed(items, name).Some? ==>
      forall k | k in items && k.name == name :: StrLe(FirstNamed(items, name).value.namespace, k.namespace)
  {
    if items != [] {
      var front, k := items[..|items| - 1], items[|items| - 1];
      assert items == front + [k];
      FirstIsLeast(front, name);
      StrLeReflexive(k.namespace);
      if FirstNamed(front, name).Some? {
        var f := FirstNamed(front, name).value;
        var i :| 0 <= i < |front| && front[i] == f;
        assert KeyLe(items[i], items[|items| - 1]);
        StrLeReflexive(f.namespace);
      }
    }
  }

  /** The entry holds the strings of one of the secrets of its name, that in the first namespace. */
  ghost predicate HoldsFirst(store: Store, id: string, e: SharedEntry)
  {
    exists k :: IsShared(store, id, k) && k.name == e.name && StringsOf(e.data, OrEmpty(GetDict(store[k].body, "data"))) &&
      forall j | IsShared(store, id, j) && j.name == e.name :: StrLe(k.namespace, j.namespace)
  }

  ghost function SecretsFor(store: Store, id: string, name: string, env: string): set<Key>
  {
    set k | k in store && IsShared(store, id, k) && k.name == name && IsFor(store, id, k, env)
  }

  /** Its environments are those the secrets of its name are for, sorted, once for each. */
  ghost predicate GathersSecrets(store: Store, id: string, e: SharedEntry)
  {
    HoldsFirst(store, id, e) && Sorted(e.environments) &&
    forall env :: multiset(e.environments)[env] == |SecretsFor(store, id, e.name, env)|
  }

  lemma SharedItems(store: Store, id: string)
    ensures var items := Listing(SharedKeys(store, id));
      NoRepeats(items) && (forall k :: k in items <==> IsShared(store, id, k)) &&
      forall i, j | 0 <= i < j < |items| :: KeyLe(items[i], items[j])
  {
    ListingIsExact(SharedKeys(store, id));
    ListingIsSorted(SharedKeys(store, id));
    forall k ensures k in Listing(SharedKeys(store, id)) <==> IsShared(store, id, k) { SharedKeyIs(store, id, k); }
    hide Listing, SharedKeys, KeyLe;
  }

  lemma GroupIs(store: Store, id: string, name: string)
    requires exists k :: IsShared(store, id, k) && k.name == name
    ensures var e := SortEnvs(Group(store, id, Listing(SharedKeys(store, id)), name));
      e.name == name && GathersSecrets(store, id, e)
  {
    var items := Listing(SharedKeys(store, id));
    var e, listed := SortEnvs(Group(store, id, items, name)), GroupEnvs(store, id, items, name);
    assert e.environments == SortStrings(listed);
    SharedItems(store, id);
    SharedIsStored(store, id);
    SortStringsSorts(listed);
    forall env ensures multiset(e.environments)[env] == |SecretsFor(store, id, name, env)| {
      GroupCounts(store, id, items, name, env);
      SecretsForAre(store, id, items, name, env);
    }
    FirstIsHeld(store, id, items, name);
    hide SharedKeys, Listing, GroupEnvs, IsShared, IsFor, SortStrings, HoldsFirst, SecretsFor, Sorted;
  }

  lemma SecretsForAre(store: Store, id: string, items: seq<Key>, name: string, env: string)
    requires forall k :: k in items <==> IsShared(store, id, k)
    ensures For(store, id, items, name, env) == SecretsFor(store, id, name, env)
  {
    SharedIsStored(store, id);
    hide IsShared, IsFor;
  }

  lemma FirstIsHeld(store: Store, id: string, items: seq<Key>, name: string)
    requires (forall k :: k in items <==> IsShared(store, id, k)) && exists k :: IsShared(store, id, k) && k.name == name
    requires forall i, j | 0 <= i < j < |items| :: KeyLe(items[i], items[j])
    ensures HoldsFirst(store, id, SortEnvs(Group(store, id, items, name)))
  {
    FirstIsLeast(items, name);
    SharedIsStored(store, id);
    hide IsShared, KeyLe, GroupEnvs, SortStrings;
    var first := FirstNamed(items, name);
    assert first.Some? && first.value in items && IsShared(store, id, first.value) && first.value in store;
    StringMapIs(OrEmpty(GetDict(store[first.value].body, "data")));
  }

  lemma StringMapIs(data: Fields)
    ensures StringsOf(StringMap(data), data)
  {}

  lemma SharedIsStored(store: Store, id: string)
    ensures forall k | IsShared(store, id, k) :: k in store
  {}

  lemma SharedOfIs(store: Store, id: string)
    ensures var items := Listing(SharedKeys(store, id));
      var names := Ordered(KeyNames(items));
      |SharedOf(store, id)| == |names| &&
      forall i | 0 <= i < |names| :: SharedOf(store, id)[i] == SortEnvs(Group(store, id, items, names[i]))
  {
    hide SortEnvs, Group, Listing, Ordered, KeyNames;
  }

  /** The bundle has one entry for each name of a shared secret, in order of names; its environments
      are those its secrets are for, sorted, once for each; its data are those of the first. */
  lemma SharedSecretsAreExported(store: Store, id: string, name: string)
    requires Collect(store, id).Some?
    ensures var shared := Collect(store, id).value.shared;
      ((exists i | 0 <= i < |shared| :: shared[i].name == name) <==> exists k :: IsShared(store, id, k) && k.name == name) &&
      (forall i, j | 0 <= i < j < |shared| :: shared[i].name != shared[j].name && StrLe(shared[i].name, shared[j].name)) &&
      forall i | 0 <= i < |shared| :: GathersSecrets(store, id, shared[i])
  {
    var items := Listing(SharedKeys(store, id));
    var names, shared := Ordered(KeyNames(items)), SharedOf(store, id);
    assert Collect(store, id).value.shared == shared by { hide SharedOf, AppsOf, RegistryOf, VarsOf, SecretsOf, Slots; }
    SharedOfIs(store, id);
    OrderedIsExact(KeyNames(items));
    OrderedHasNoRepeats(KeyNames(items));
    SharedItems(store, id);
    NamedIsShared(store, id, items, name);
    hide Collect, SharedOf, SharedKeys, Listing, SortEnvs, Group, GathersSecrets, Ordered, KeyLe;
    forall i | 0 <= i < |names| ensures shared[i].name == names[i] && GathersSecrets(store, id, shared[i]) {
      assert names[i] in names;
      NamedIsShared(store, id, items, names[i]);
      GroupIs(store, id, names[i]);
    }
    hide IsShared, KeyNames;
    assert name in names <==> exists i | 0 <= i < |names| :: names[i] == name;
  }

  lemma NamedIsShared(store: Store, id: string, items: seq<Key>, n: string)
    requires forall k :: k in items <==> IsShared(store, id, k)
    ensures n in KeyNames(items) <==> exists k :: IsShared(store, id, k) && k.name == n
  {}
}
