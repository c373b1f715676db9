/** Exporting a project, importing the payload under a name the target does not use, and
    exporting again gives the same payload. */
module RoundTrip {
  import opened Json
  import opened Text
  import opened Cluster
  import opened Bundle
  import opened Export
  import opened Import
  import opened ImportRun

  // ---------- What an export yields ----------

  function AppKeyList(apps: seq<AppEntry>): seq<Key>
  {
    seq(|apps|, i requires 0 <= i < |apps| => AppKey(apps[i].name))
  }

  function SharedNames(es: seq<SharedEntry>): seq<string>
  {
    seq(|es|, i requires 0 <= i < |es| => es[i].name)
  }

  function RegistryList(rs: seq<RegistryEntry>): seq<string>
  {
    seq(|rs|, i requires 0 <= i < |rs| => rs[i].name)
  }

  ghost predicate AppsListed(apps: seq<AppEntry>)
  {
    AppKeyList(apps) == Listing(set k | k in AppKeyList(apps))
  }

  ghost predicate InNameOrder(names: seq<string>) { names == Ordered(set n | n in names) }

  ghost predicate EnvsSorted(e: SharedEntry) { Sorted(e.environments) && "" !in e.environments }

  ghost predicate Exported(p: Payload)
  {
    AppsListed(p.apps) &&
    p.envVars.Keys <= Slots(p.apps, p.spec) && p.secrets.Keys <= Slots(p.apps, p.spec) &&
    InNameOrder(SharedNames(p.shared)) && (forall e | e in p.shared :: EnvsSorted(e)) &&
    InNameOrder(RegistryList(p.registry)) &&
    forall r | r in p.registry :: r.name in PullSecrets(p.spec, p.apps)
  }

  lemma OrderedListIsInOrder(s: set<string>, names: seq<string>)
    requires names == Ordered(s)
    ensures InNameOrder(names)
  {
    OrderedIsExact(s);
    assert (set n | n in names) == s;
  }

  lemma ExportedApps(store: Store, id: string)
    ensures AppsListed(AppsOf(store, id))
  {
    var keys, apps := AppKeys(store, id), AppsOf(store, id);
    ListingIsExact(keys);
    assert forall k | k in keys :: k == AppKey(k.name);
    hide AppKeys, Listing;
    forall i | 0 <= i < |apps| ensures AppKeyList(apps)[i] == Listing(keys)[i] {
      assert Listing(keys)[i] in keys;
    }
    assert AppKeyList(apps) == Listing(keys);
    assert (set k | k in AppKeyList(apps)) == keys;
  }

  lemma {:induction false} GroupEnvsNotEmpty(store: Store, id: string, items: seq<Key>, name: string)
    ensures "" !in GroupEnvs(store, id, items, name)
  {
    if items != [] {
      GroupEnvsNotEmpty(store, id, items[..|items| - 1], name);
    }
  }

  lemma ExportedShared(store: Store, id: string)
    ensures InNameOrder(SharedNames(SharedOf(store, id)))
    ensures forall e | e in SharedOf(store, id) :: EnvsSorted(e)
  {
    var items := Listing(SharedKeys(store, id));
    hide SharedKeys, Listing;
    var names := Ordered(KeyNames(items));
    assert SharedNames(SharedOf(store, id)) == names;
    OrderedListIsInOrder(KeyNames(items), names);
    hide InNameOrder, KeyNames, Ordered;
    forall e | e in SharedOf(store, id) ensures EnvsSorted(e) {
      var i :| 0 <= i < |names| && e == SortEnvs(Group(store, id, items, names[i]));
      var envs := GroupEnvs(store, id, items, names[i]);
      SortStringsSorts(envs);
      GroupEnvsNotEmpty(store, id, items, names[i]);
      assert "" !in multiset(envs);
      assert "" !in multiset(SortStrings(envs));
    }
  }

  lemma RegistryNamesAreWanted(store: Store, wanted: set<string>)
    ensures forall n | n in RegistryNames(store, wanted) :: n in wanted
  {}

  lemma RegistryListIs(store: Store, names: seq<string>)
    ensures RegistryList(RegistryEntries(store, names)) == names
    ensures forall r | r in RegistryEntries(store, names) :: r.name in names
  {
    hide RegistryEntryOf;
    forall n ensures RegistryEntryOf(store, n).name == n { RegistryEntryName(store, n); }
  }

  lemma RegistryEntryName(store: Store, n: string)
    ensures RegistryEntryOf(store, n).name == n
  {}

  lemma ExportedRegistry(store: Store, wanted: set<string>)
    ensures InNameOrder(RegistryList(RegistryOf(store, wanted)))
    ensures forall r | r in RegistryOf(store, wanted) :: r.name in wanted
  {
    var all := RegistryNames(store, wanted);
    var names := Ordered(all);
    assert RegistryOf(store, wanted) == RegistryEntries(store, names);
    hide *;
    RegistryNamesAreWanted(store, wanted);
    OrderedIsExact(all);
    OrderedListIsInOrder(all, names);
    RegistryListIs(store, names);
  }

  /** What every export, of any cluster, has in common. */
  lemma ExportsAreExported(store: Store, id: string)
    ensures Collect(store, id).Some? ==> Exported(Collect(store, id).value)
  {
    if ProjectKey(id) in store {
      var spec, apps := store[ProjectKey(id)].body, AppsOf(store, id);
      ExportedApps(store, id);
      ExportedShared(store, id);
      ExportedRegistry(store, PullSecrets(spec, apps));
      hide AppsListed, AppsOf, SharedOf, RegistryOf, PullSecrets, Slots, InNameOrder, EnvsSorted;
    }
  }

  // ---------- What a transfer asks of the target and of the project ----------

  ghost predicate AtShared(p: Payload, id: string, k: Key, e: SharedEntry, env: string)
  {
    e in p.shared && env in e.environments && k == SharedKey(id, e.name, env)
  }

  ghost predicate WritesSecrets(p: Payload, id: string, k: Key)
  {
    exists s | s in p.secrets :: k == SecretsKey(id, s)
  }

  ghost predicate WritesShared(p: Payload, id: string, k: Key)
  {
    exists e, env :: AtShared(p, id, k, e, env)
  }

  ghost predicate WritesRegistry(p: Payload, k: Key)
  {
    exists r | r in p.registry :: k == RegistryKey(r.name)
  }

  /** A key the import of p as id writes, or the export of id would read for the same apps. */
  ghost predicate Owned(p: Payload, id: string, k: Key)
  {
    match k.kind
    case VestaProject => k == ProjectKey(id)
    case VestaApp => k in AppKeyList(p.apps)
    case ConfigMap => exists s | s in Slots(p.apps, p.spec) :: k == VarsKey(id, s)
    case VestaSecret =>
      (exists s | s in Slots(p.apps, p.spec) :: k == SecretsKey(id, s)) || WritesShared(p, id, k) ||
      (k.namespace == SYSTEM && k.name in PullSecrets(p.spec, p.apps))
    case Namespace => false
  }

  /** The target runs Vesta and holds none of the names of p taken as id. */
  ghost predicate Vacant(dst: Store, p: Payload, id: string)
  {
    NamespaceKey(SYSTEM) in dst && AppKeys(dst, id) == {} && SharedKeys(dst, id) == {} &&
    forall k | k in dst :: !Owned(p, id, k)
  }

  /** No two of the secrets of p are to be written under one key. */
  ghost predicate Unambiguous(p: Payload, id: string)
  {
    forall k: Key ::
      !(WritesSecrets(p, id, k) && WritesShared(p, id, k)) &&
      !(WritesRegistry(p, k) && (WritesSecrets(p, id, k) || WritesShared(p, id, k)))
  }

  ghost predicate NoEmpties(m: map<Slot, map<string, string>>)
  {
    forall s | s in m :: m[s] != map[]
  }

  /** A shared secret does not sit where an app without secrets of its own would keep them. */
  ghost predicate Unshadowed(p: Payload, id: string)
  {
    forall s, e, env | s in Slots(p.apps, p.spec) && s !in p.secrets && AtShared(p, id, SecretsKey(id, s), e, env) ::
      e.data == map[]
  }

  ghost predicate FannedOut(es: seq<SharedEntry>)
  {
    forall e | e in es :: e.environments != [] && NoRepeats(e.environments)
  }

  ghost predicate Transferable(p: Payload, id: string)
  {
    Unambiguous(p, id) && NoEmpties(p.envVars) && NoEmpties(p.secrets) && FannedOut(p.shared) && Unshadowed(p, id)
  }

  // ---------- Keys do not collide by accident ----------

  lemma EnvNamespaceInjective(id: string, a: string, b: string)
    requires EnvNamespace(id, a) == EnvNamespace(id, b)
    ensures a == b
  {
    assert EnvNamespace(id, a)[|id| + 1..] == a && EnvNamespace(id, b)[|id| + 1..] == b;
  }

  lemma SuffixInjective(a: string, b: string, suffix: string)
    requires a + suffix == b + suffix
    ensures a == b
  {
    assert (a + suffix)[..|a|] == a && (b + suffix)[..|a|] == b;
  }

  lemma SlotKeysInjective(id: string, a: Slot, b: Slot)
    ensures VarsKey(id, a) == VarsKey(id, b) ==> a == b
    ensures SecretsKey(id, a) == SecretsKey(id, b) ==> a == b
  {
    if VarsKey(id, a) == VarsKey(id, b) {
      EnvNamespaceInjective(id, a.env, b.env);
      SuffixInjective(a.app, b.app, "-envvars");
    }
    if SecretsKey(id, a) == SecretsKey(id, b) {
      EnvNamespaceInjective(id, a.env, b.env);
      SuffixInjective(a.app, b.app, "-secrets");
    }
  }

  lemma AppsAreDistinct(p: Payload, a: AppEntry, b: AppEntry)
    requires Exported(p) && a in p.apps && b in p.apps && a.name == b.name
    ensures a == b
  {
    ListingIsExact(set k | k in AppKeyList(p.apps));
    var i :| 0 <= i < |p.apps| && p.apps[i] == a;
    var j :| 0 <= j < |p.apps| && p.apps[j] == b;
    assert AppKeyList(p.apps)[i] == AppKeyList(p.apps)[j];
  }

  lemma SharedAreDistinct(p: Payload, a: SharedEntry, b: SharedEntry)
    requires Exported(p) && a in p.shared && b in p.shared && a.name == b.name
    ensures a == b
  {
    OrderedHasNoRepeats(set n | n in SharedNames(p.shared));
    var i :| 0 <= i < |p.shared| && p.shared[i] == a;
    var j :| 0 <= j < |p.shared| && p.shared[j] == b;
    assert SharedNames(p.shared)[i] == SharedNames(p.shared)[j];
  }

  lemma RegistryAreDistinct(p: Payload, a: RegistryEntry, b: RegistryEntry)
    requires Exported(p) && a in p.registry && b in p.registry && a.name == b.name
    ensures a == b
  {
    OrderedHasNoRepeats(set n | n in RegistryList(p.registry));
    var i :| 0 <= i < |p.registry| && p.registry[i] == a;
    var j :| 0 <= j < |p.registry| && p.registry[j] == b;
    assert RegistryList(p.registry)[i] == RegistryList(p.registry)[j];
  }

  lemma AtSharedIsUnique(p: Payload, id: string, k: Key, a: SharedEntry, x: string, b: SharedEntry, y: string)
    requires Exported(p) && AtShared(p, id, k, a, x) && AtShared(p, id, k, b, y)
    ensures a == b && x == y
  {
    EnvNamespaceInjective(id, x, y);
    SharedAreDistinct(p, a, b);
  }

  // ---------- What an import leaves behind ----------

  /** Everything of dst, and the objects of the writes of p. */
  ghost predicate Holds(p: Payload, id: string, dst: Store, t: Store)
  {
    (forall k | k in dst :: k in t && t[k] == dst[k]) &&
    (forall w: Write | IsWriteOf(p, id, w) && w.key !in dst :: w.key in t && t[w.key] == w.o) &&
    (forall k | k in t && k !in dst :: exists w: Write :: IsWriteOf(p, id, w) && w.key == k)
  }

  lemma SecretWritesAgree(p: Payload, id: string, w: Write, v: Write)
    requires Exported(p) && Unambiguous(p, id) && IsWriteOf(p, id, w) && IsWriteOf(p, id, v)
    requires w.key == v.key && w.key.kind == VestaSecret
    ensures w.o == v.o
  {
    SecretWriteKinds(p, id, w);
    SecretWriteKinds(p, id, v);
    hide Exported, IsWriteOf, SecretsKey, SharedKey, RegistryKey;
    if WritesSecrets(p, id, w.key) {
      var a :| a in p.secrets && w == SecretsWrite(id, p.secrets, a);
      var b :| b in p.secrets && v == SecretsWrite(id, p.secrets, b);
      SlotKeysInjective(id, a, b);
    } else if WritesShared(p, id, w.key) {
      var a, x :| AtShared(p, id, w.key, a, x) && w == SharedWrite(id, a, x);
      var b, y :| AtShared(p, id, v.key, b, y) && v == SharedWrite(id, b, y);
      AtSharedIsUnique(p, id, w.key, a, x, b, y);
    } else {
      var a :| a in p.registry && w == Write(RegistryKey(a.name), RegistryObject(a), true);
      var b :| b in p.registry && v == Write(RegistryKey(b.name), RegistryObject(b), true);
      assert a.name == b.name by { assert RegistryKey(a.name).name == a.name && RegistryKey(b.name).name == b.name; }
      RegistryAreDistinct(p, a, b);
    }
  }

  /** A write of a VestaSecret is one of three. */
  lemma SecretWriteKinds(p: Payload, id: string, w: Write)
    requires IsWriteOf(p, id, w) && w.key.kind == VestaSecret
    ensures WritesSecrets(p, id, w.key) || WritesShared(p, id, w.key) || WritesRegistry(p, w.key)
    ensures (exists s | s in p.secrets :: w == SecretsWrite(id, p.secrets, s)) ||
            (exists e, env :: AtShared(p, id, w.key, e, env) && w == SharedWrite(id, e, env)) ||
            (exists r | r in p.registry :: w == Write(RegistryKey(r.name), RegistryObject(r), true))
  {
    if IsSharedWrite(id, p.shared, w) {
      var e :| e in p.shared && exists env | env in e.environments :: w == SharedWrite(id, e, env);
      var env :| env in e.environments && w == SharedWrite(id, e, env);
      assert AtShared(p, id, w.key, e, env);
    }
  }

  lemma AppWriteKind(p: Payload, id: string, w: Write)
    requires IsWriteOf(p, id, w) && w.key.kind == VestaApp
    ensures exists a | a in p.apps :: w == AppWrite(id, a)
  {}

  lemma ConfigWriteKind(p: Payload, id: string, w: Write)
    requires IsWriteOf(p, id, w) && w.key.kind == ConfigMap
    ensures exists s | s in p.envVars :: w == VarsWrite(id, p.envVars, s)
  {}

  lemma PlainWriteKind(p: Payload, id: string, w: Write)
    requires IsWriteOf(p, id, w)
    ensures w.key.kind == VestaProject ==> w == ProjectWrite(id, p.spec)
    ensures w.key.kind == Namespace ==> w.o == NamespaceObject()
  {}

  lemma OneObjectPerKey(p: Payload, id: string, w: Write, v: Write)
    requires Exported(p) && Unambiguous(p, id) && IsWriteOf(p, id, w) && IsWriteOf(p, id, v) && w.key == v.key
    ensures w.o == v.o
  {
    hide Exported, Unambiguous, IsWriteOf, EnvNamespace;
    match w.key.kind
    case VestaSecret =>
      SecretWritesAgree(p, id, w, v);
    case VestaApp =>
      AppWriteKind(p, id, w);
      AppWriteKind(p, id, v);
      var a :| a in p.apps && w == AppWrite(id, a);
      var b :| b in p.apps && v == AppWrite(id, b);
      AppsAreDistinct(p, a, b);
    case ConfigMap =>
      ConfigWriteKind(p, id, w);
      ConfigWriteKind(p, id, v);
      var a :| a in p.envVars && w == VarsWrite(id, p.envVars, a);
      var b :| b in p.envVars && v == VarsWrite(id, p.envVars, b);
      SlotKeysInjective(id, a, b);
    case VestaProject =>
      PlainWriteKind(p, id, w);
      PlainWriteKind(p, id, v);
    case Namespace =>
      PlainWriteKind(p, id, w);
      PlainWriteKind(p, id, v);
  }

  lemma RunHolds(p: Payload, id: string, dst: Store, vo: seq<Slot>, so: seq<Slot>)
    requires Exported(p) && Unambiguous(p, id)
    requires Visits(vo, p.envVars.Keys) && Visits(so, p.secrets.Keys)
    requires !Run(dst, Schedule(p, id, vo, so)).failed
    ensures Holds(p, id, dst, Run(dst, Schedule(p, id, vo, so)).store)
  {
    var ws := Schedule(p, id, vo, so);
    var s := Outcome(dst, Added(0, 0, 0), false);
    var t := RunFrom(s, ws).store;
    RunSucceedsExactly(s, ws);
    RunOnlyAdds(s, ws);
    forall w: Write ensures w in ws <==> IsWriteOf(p, id, w) {
      ScheduleIs(p, id, vo, so, w);
    }
    hide Schedule, IsWriteOf, RunFrom, Exported, Unambiguous, Visits, AllGoThrough;
    forall w: Write | IsWriteOf(p, id, w) && w.key !in dst ensures w.key in t && t[w.key] == w.o {
      forall v | v in ws && v.key == w.key ensures v.o == w.o {
        OneObjectPerKey(p, id, w, v);
      }
      RunStores(s, ws, w);
    }
    forall k | k in t && k !in dst ensures exists w: Write :: IsWriteOf(p, id, w) && w.key == k {
      assert k in KeysOf(ws);
    }
  }

  /** The writes of p other than of namespaces are to keys of its own. */
  lemma WritesAreOwned(p: Payload, id: string, w: Write)
    requires Exported(p) && IsWriteOf(p, id, w) && w.key.kind != Namespace
    ensures Owned(p, id, w.key)
  {
    match w.key.kind
    case VestaSecret => SecretWriteKinds(p, id, w);
    case VestaApp =>
      var a :| a in p.apps && w == AppWrite(id, a);
      var i :| 0 <= i < |p.apps| && p.apps[i] == a;
      assert AppKeyList(p.apps)[i] == w.key;
    case ConfigMap =>
    case VestaProject =>
  }

  lemma Stored(p: Payload, id: string, dst: Store, t: Store, w: Write)
    requires Exported(p) && Vacant(dst, p, id) && Holds(p, id, dst, t)
    requires IsWriteOf(p, id, w) && w.key.kind != Namespace
    ensures w.key in t && t[w.key] == w.o && w.key !in dst
  {
    WritesAreOwned(p, id, w);
    hide Exported, IsWriteOf, Owned;
  }

  // ---------- Exporting it again ----------

  lemma ProjectBack(p: Payload, id: string, dst: Store, t: Store)
    requires Exported(p) && Vacant(dst, p, id) && Holds(p, id, dst, t)
    ensures ProjectKey(id) in t && t[ProjectKey(id)].body == p.spec
  {
    Stored(p, id, dst, t, ProjectWrite(id, p.spec));
  }

  lemma AppStored(p: Payload, id: string, dst: Store, t: Store, i: nat)
    requires Exported(p) && Vacant(dst, p, id) && Holds(p, id, dst, t) && i < |p.apps|
    ensures AppKey(p.apps[i].name) in t && t[AppKey(p.apps[i].name)] == AppObject(id, p.apps[i].spec)
  {
    assert p.apps[i] in p.apps;
    assert IsAppWrite(id, p.apps, AppWrite(id, p.apps[i]));
    Stored(p, id, dst, t, AppWrite(id, p.apps[i]));
  }

  lemma OnlyItsApps(p: Payload, id: string, dst: Store, t: Store, k: Key)
    requires Exported(p) && Vacant(dst, p, id) && Holds(p, id, dst, t) && k in AppKeys(t, id)
    ensures k in AppKeyList(p.apps)
  {
    assert k in dst ==> k in AppKeys(dst, id);
    hide AppKeys, Listing;
    var w: Write :| IsWriteOf(p, id, w) && w.key == k;
    WritesAreOwned(p, id, w);
  }

  lemma AppKeysBack(p: Payload, id: string, dst: Store, t: Store)
    requires Exported(p) && Vacant(dst, p, id) && Holds(p, id, dst, t)
    ensures Listing(AppKeys(t, id)) == AppKeyList(p.apps)
  {
    var own := set k | k in AppKeyList(p.apps);
    forall k | k in own ensures k in AppKeys(t, id) {
      var i :| 0 <= i < |p.apps| && AppKeyList(p.apps)[i] == k;
      AppStored(p, id, dst, t, i);
    }
    forall k | k in AppKeys(t, id) ensures k in own {
      OnlyItsApps(p, id, dst, t, k);
    }
    assert AppKeys(t, id) == own;
  }

  lemma AppsBack(p: Payload, id: string, dst: Store, t: Store)
    requires Exported(p) && Vacant(dst, p, id) && Holds(p, id, dst, t)
    ensures AppsOf(t, id) == RenameApps(p.apps, id)
  {
    AppKeysBack(p, id, dst, t);
    forall i | 0 <= i < |p.apps| ensures AppsOf(t, id)[i] == RenameApp(p.apps[i], id) {
      AppStored(p, id, dst, t, i);
    }
  }

  lemma {:induction false} RenamingKeepsSlots(apps: seq<AppEntry>, project: Fields, id: string)
    ensures Slots(RenameApps(apps, id), project) == Slots(apps, project)
  {
    if apps != [] {
      RenamingKeepsSlots(apps[..|apps| - 1], project, id);
      assert RenameApps(apps, id)[..|apps| - 1] == RenameApps(apps[..|apps| - 1], id);
      RenamingKeepsEnvNames(apps[|apps| - 1].spec, id);
    }
    hide EnvNames, SlotsFor;
  }

  lemma {:induction false} RenamingKeepsAppPullSecrets(apps: seq<AppEntry>, id: string)
    ensures AppPullSecrets(RenameApps(apps, id)) == AppPullSecrets(apps)
  {
    if apps != [] {
      RenamingKeepsAppPullSecrets(apps[..|apps| - 1], id);
      assert RenameApps(apps, id)[..|apps| - 1] == RenameApps(apps[..|apps| - 1], id);
    }
  }

  lemma RenamingKeepsPullSecrets(project: Fields, apps: seq<AppEntry>, id: string)
    ensures PullSecrets(project, RenameApps(apps, id)) == PullSecrets(project, apps)
  {
    RenamingKeepsAppPullSecrets(apps, id);
  }

  lemma VarsStored(p: Payload, id: string, dst: Store, t: Store, s: Slot)
    requires Exported(p) && Vacant(dst, p, id) && Holds(p, id, dst, t) && s in Slots(p.apps, p.spec)
    ensures VarsData(t, id, s) == AnyMap(DataAt(p.envVars, s))
  {
    var k := VarsKey(id, s);
    assert AnyMap(map[]) == map[];
    assert k !in dst by { assert Owned(p, id, k); }
    hide AnyMap, Exported, Vacant, Owned, Slots, VarsKey;
    if s in p.envVars {
      assert IsConfigWrite(p, id, VarsWrite(id, p.envVars, s));
      assert IsWriteOf(p, id, VarsWrite(id, p.envVars, s));
      VarsKeyKind(id, s);
      Stored(p, id, dst, t, VarsWrite(id, p.envVars, s));
    } else if k in t {
      hide IsWriteOf;
      var w: Write :| IsWriteOf(p, id, w) && w.key == k;
      VarsKeyKind(id, s);
      ConfigWriteKind(p, id, w);
      var u :| u in p.envVars && w == VarsWrite(id, p.envVars, u);
      SlotKeysInjective(id, s, u);
    }
  }

  lemma VarsKeyKind(id: string, s: Slot)
    ensures VarsKey(id, s).kind == ConfigMap && SecretsKey(id, s).kind == VestaSecret
  {}

  /** m holds the strings of data and nothing else. */
  ghost predicate IsStringMap(m: Fields, data: map<string, string>)
  {
    StringMap(m) == data && (m == map[] <==> data == map[])
  }

  lemma CollectedVars(store: Store, id: string, slots: set<Slot>, m: map<Slot, map<string, string>>)
    requires m.Keys <= slots && forall s | s in slots :: IsStringMap(VarsData(store, id, s), DataAt(m, s))
    ensures VarsOf(store, id, slots) == m <==> NoEmpties(m)
  {
    hide VarsData, StringMap;
    var found := VarsOf(store, id, slots);
    forall s | s in slots ensures s in found <==> DataAt(m, s) != map[] {
      assert IsStringMap(VarsData(store, id, s), DataAt(m, s));
    }
    if NoEmpties(m) {
      assert found.Keys == m.Keys;
    } else {
      var s :| s in m && m[s] == map[];
      assert s !in found;
    }
  }

  /** The configuration comes back exactly when none of it is empty. */
  lemma VarsBack(p: Payload, id: string, dst: Store, t: Store)
    requires Exported(p) && Vacant(dst, p, id) && Holds(p, id, dst, t)
    ensures VarsOf(t, id, Slots(p.apps, p.spec)) == p.envVars <==> NoEmpties(p.envVars)
  {
    var slots := Slots(p.apps, p.spec);
    assert p.envVars.Keys <= slots;
    hide *;
    forall s | s in slots ensures IsStringMap(VarsData(t, id, s), DataAt(p.envVars, s)) {
      VarsStored(p, id, dst, t, s);
      AnyMapIsStringMap(DataAt(p.envVars, s));
    }
    CollectedVars(t, id, slots, p.envVars);
  }

  lemma AnyMapIsStringMap(data: map<string, string>)
    ensures IsStringMap(AnyMap(data), data)
  {
    StringMapUndoesAnyMap(data);
  }

  // ---------- Secrets of the apps ----------

  /** The data an object under a VestaSecret key carries. */
  function Data(o: Object): Fields { OrEmpty(GetDict(o.body, "data")) }

  lemma SecretBodies(id: string, s: Slot, data: map<string, string>, r: RegistryEntry)
    ensures Data(SecretsObject(id, s, data)) == AnyMap(data)
    ensures Data(SharedObject(id, data)) == AnyMap(data)
    ensures Data(RegistryObject(r)) == map[]
    ensures Data(Object(map[], map[])) == map[]
  {}

  lemma SecretsDataReads(store: Store, id: string, s: Slot)
    ensures SecretsData(store, id, s) == Data(Read(store, SecretsKey(id, s)))
  {}

  lemma SecretWriteStored(p: Payload, id: string, dst: Store, t: Store, s: Slot)
    requires Exported(p) && Vacant(dst, p, id) && Holds(p, id, dst, t) && s in p.secrets
    ensures Read(t, SecretsKey(id, s)) == SecretsObject(id, s, p.secrets[s])
  {
    var w := SecretsWrite(id, p.secrets, s);
    assert IsConfigWrite(p, id, w);
    assert IsWriteOf(p, id, w);
    Stored(p, id, dst, t, w);
  }

  lemma SharedWriteStored(p: Payload, id: string, dst: Store, t: Store, k: Key, e: SharedEntry, env: string)
    requires Exported(p) && Vacant(dst, p, id) && Holds(p, id, dst, t) && AtShared(p, id, k, e, env)
    ensures k in t && k !in dst && Read(t, k) == SharedObject(id, e.data)
  {
    var w := SharedWrite(id, e, env);
    assert IsSharedWrite(id, p.shared, w);
    assert IsWriteOf(p, id, w);
    Stored(p, id, dst, t, w);
  }

  lemma RegistryWriteStored(p: Payload, id: string, dst: Store, t: Store, r: RegistryEntry)
    requires Exported(p) && Vacant(dst, p, id) && Holds(p, id, dst, t) && r in p.registry
    ensures RegistryKey(r.name) in t && RegistryKey(r.name) !in dst && Read(t, RegistryKey(r.name)) == RegistryObject(r)
  {
    var w := Write(RegistryKey(r.name), RegistryObject(r), true);
    assert IsRegistryWrite(p.registry, w);
    assert IsWriteOf(p, id, w);
    Stored(p, id, dst, t, w);
  }

  /** What sits where an app without secrets of its own would keep them. */
  lemma OtherSecretThere(p: Payload, id: string, dst: Store, t: Store, s: Slot)
    requires Exported(p) && Vacant(dst, p, id) && Holds(p, id, dst, t)
    requires s in Slots(p.apps, p.spec) && s !in p.secrets && !WritesShared(p, id, SecretsKey(id, s))
    ensures Data(Read(t, SecretsKey(id, s))) == map[]
  {
    var k := SecretsKey(id, s);
    assert k !in dst by { assert Owned(p, id, k); }
    VarsKeyKind(id, s);
    SecretBodies(id, s, map[], RegistryEntry("", "", "", ""));
    hide Owned, Slots, SecretsKey, Data;
    if k in t {
      hide IsWriteOf;
      var w: Write :| IsWriteOf(p, id, w) && w.key == k;
      SecretWriteKinds(p, id, w);
      if WritesSecrets(p, id, k) {
        var u :| u in p.secrets && k == SecretsKey(id, u);
        SlotKeysInjective(id, s, u);
      } else {
        var r :| r in p.registry && k == RegistryKey(r.name);
        hide Exported, Vacant, Holds, RegistryKey;
        RegistryWriteStored(p, id, dst, t, r);
        SecretBodies(id, s, map[], r);
      }
    }
  }

  lemma CollectedSecrets(store: Store, id: string, slots: set<Slot>, m: map<Slot, map<string, string>>)
    requires m.Keys <= slots && forall s | s in m :: IsStringMap(SecretsData(store, id, s), m[s])
    ensures SecretsOf(store, id, slots) == m <==>
      NoEmpties(m) && forall s | s in slots && s !in m :: SecretsData(store, id, s) == map[]
  {
    hide SecretsData, StringMap;
    var found := SecretsOf(store, id, slots);
    if NoEmpties(m) && forall s | s in slots && s !in m :: SecretsData(store, id, s) == map[] {
      assert found.Keys == m.Keys;
    }
    if found == m {
      forall s | s in slots && s !in m ensures SecretsData(store, id, s) == map[] {
        assert s !in found;
      }
      forall s | s in m ensures m[s] != map[] {
        assert s in found;
      }
    }
  }

  lemma SlotShadowed(p: Payload, id: string, dst: Store, t: Store, s: Slot)
    requires Exported(p) && Vacant(dst, p, id) && Holds(p, id, dst, t)
    requires s in Slots(p.apps, p.spec) && s !in p.secrets
    ensures SecretsData(t, id, s) == map[] <==>
      forall e, env | AtShared(p, id, SecretsKey(id, s), e, env) :: e.data == map[]
  {
    var k := SecretsKey(id, s);
    SecretsDataReads(t, id, s);
    if WritesShared(p, id, k) {
      hide Exported, Vacant, Holds, SecretsData, SecretsKey, AtShared, Slots, Data;
      var e, env :| AtShared(p, id, k, e, env);
      SharedWriteStored(p, id, dst, t, k, e, env);
      SecretBodies(id, s, e.data, RegistryEntry("", "", "", ""));
      StringMapUndoesAnyMap(e.data);
      forall f, x | AtShared(p, id, k, f, x) ensures f == e {
        AtSharedIsUnique(p, id, k, f, x, e, env);
      }
    } else {
      OtherSecretThere(p, id, dst, t, s);
      assert forall e, env :: !AtShared(p, id, k, e, env);
    }
  }

  /** The secrets of the apps come back exactly when none is empty and none is shadowed. */
  lemma SecretsBack(p: Payload, id: string, dst: Store, t: Store)
    requires Exported(p) && Vacant(dst, p, id) && Holds(p, id, dst, t)
    ensures SecretsOf(t, id, Slots(p.apps, p.spec)) == p.secrets <==> NoEmpties(p.secrets) && Unshadowed(p, id)
  {
    var slots := Slots(p.apps, p.spec);
    assert p.secrets.Keys <= slots;
    forall s | s in p.secrets ensures IsStringMap(SecretsData(t, id, s), p.secrets[s]) {
      hide *;
      SecretsDataReads(t, id, s);
      SecretWriteStored(p, id, dst, t, s);
      SecretBodies(id, s, p.secrets[s], RegistryEntry("", "", "", ""));
      AnyMapIsStringMap(p.secrets[s]);
    }
    hide Exported, Vacant, Holds, SecretsData, AtShared, Slots, IsStringMap, SecretsOf, NoEmpties;
    CollectedSecrets(t, id, slots, p.secrets);
    forall s | s in slots && s !in p.secrets
      ensures SecretsData(t, id, s) == map[] <==>
        forall e, env | AtShared(p, id, SecretsKey(id, s), e, env) :: e.data == map[]
    {
      SlotShadowed(p, id, dst, t, s);
    }
  }

  // ---------- Registry credentials ----------

  lemma RegistryBodies(store: Store, r: RegistryEntry)
    requires Read(store, RegistryKey(r.name)) == RegistryObject(r)
    ensures RegistryEntryOf(store, r.name) == r
  {}

  lemma LabelsTell(id: string, s: Slot, data: map<string, string>, r: RegistryEntry)
    ensures !Selects(map[TYPE := "registry"], SecretsObject(id, s, data))
    ensures !Selects(map[TYPE := "registry"], SharedObject(id, data))
    ensures Selects(map[TYPE := "registry"], RegistryObject(r))
    ensures !Selects(map[PROJECT := id, SHARED := "true"], SecretsObject(id, s, data))
    ensures Selects(map[PROJECT := id, SHARED := "true"], SharedObject(id, data))
    ensures !Selects(map[PROJECT := id, SHARED := "true"], RegistryObject(r))
  {
    assert TYPE in map[TYPE := "registry"];
    assert SHARED in map[PROJECT := id, SHARED := "true"];
  }

  /** A VestaSecret the import added is of the kind its labels say. */
  lemma AddedSecretKind(p: Payload, id: string, dst: Store, t: Store, k: Key)
    requires Holds(p, id, dst, t) && k in t && k !in dst && k.kind == VestaSecret
    ensures Selects(map[TYPE := "registry"], t[k]) ==> WritesRegistry(p, k)
    ensures Selects(map[PROJECT := id, SHARED := "true"], t[k]) ==> WritesShared(p, id, k)
  {
    hide IsWriteOf, Selects, SecretsObject, SharedObject, RegistryObject;
    var w: Write :| IsWriteOf(p, id, w) && w.key == k;
    SecretWriteKinds(p, id, w);
    hide Holds;
    if s :| s in p.secrets && w == SecretsWrite(id, p.secrets, s) {
      LabelsTell(id, s, DataAt(p.secrets, s), RegistryEntry("", "", "", ""));
    } else if e, env :| AtShared(p, id, w.key, e, env) && w == SharedWrite(id, e, env) {
      LabelsTell(id, Slot("", ""), e.data, RegistryEntry("", "", "", ""));
    } else {
      var r :| r in p.registry && w == Write(RegistryKey(r.name), RegistryObject(r), true);
      LabelsTell(id, Slot("", ""), map[], r);
    }
  }

  /** The registry credentials wanted are those of the payload. */
  lemma RegistryNameBack(p: Payload, id: string, dst: Store, t: Store, n: string)
    requires Exported(p) && Vacant(dst, p, id) && Holds(p, id, dst, t) && n in PullSecrets(p.spec, p.apps)
    requires RegistryKey(n) in t && Selects(map[TYPE := "registry"], t[RegistryKey(n)])
    ensures n in RegistryList(p.registry)
  {
    var k := RegistryKey(n);
    assert Owned(p, id, k);
    hide Exported, Selects, PullSecrets, Owned;
    AddedSecretKind(p, id, dst, t, k);
    hide Holds, Vacant;
    var r :| r in p.registry && k == RegistryKey(r.name);
    var i :| 0 <= i < |p.registry| && p.registry[i] == r;
    assert RegistryList(p.registry)[i] == n;
  }

  lemma RegistryNamesAre(store: Store, wanted: set<string>, n: string)
    ensures n in RegistryNames(store, wanted) <==>
      n in wanted && RegistryKey(n) in store && Selects(map[TYPE := "registry"], store[RegistryKey(n)])
  {
    var keys := Matching(store, VestaSecret, Some(SYSTEM), map[TYPE := "registry"]);
    assert forall k | k in keys :: k == RegistryKey(k.name);
    if n in wanted && RegistryKey(n) in store && Selects(map[TYPE := "registry"], store[RegistryKey(n)]) {
      assert RegistryKey(n) in keys;
    }
  }

  lemma RegistryNamesBack(p: Payload, id: string, dst: Store, t: Store)
    requires Exported(p) && Vacant(dst, p, id) && Holds(p, id, dst, t)
    ensures RegistryNames(t, PullSecrets(p.spec, p.apps)) == set n | n in RegistryList(p.registry)
  {
    var wanted := PullSecrets(p.spec, p.apps);
    var own := set n | n in RegistryList(p.registry);
    assert forall r | r in p.registry :: r.name in wanted;
    hide PullSecrets, RegistryNames, Selects, Exported, Vacant, Holds, RegistryObject;
    forall n | n in RegistryNames(t, wanted) ensures n in own {
      RegistryNamesAre(t, wanted, n);
      RegistryNameBack(p, id, dst, t, n);
    }
    forall n | n in own ensures n in RegistryNames(t, wanted) {
      var i :| 0 <= i < |p.registry| && RegistryList(p.registry)[i] == n;
      assert p.registry[i] in p.registry;
      RegistryWriteStored(p, id, dst, t, p.registry[i]);
      LabelsTell(id, Slot("", ""), map[], p.registry[i]);
      RegistryNamesAre(t, wanted, n);
    }
  }

  lemma RegistryBack(p: Payload, id: string, dst: Store, t: Store)
    requires Exported(p) && Vacant(dst, p, id) && Holds(p, id, dst, t)
    ensures RegistryOf(t, PullSecrets(p.spec, p.apps)) == p.registry
  {
    RegistryNamesBack(p, id, dst, t);
    assert RegistryOf(t, PullSecrets(p.spec, p.apps)) == RegistryEntries(t, RegistryList(p.registry)) by {
      hide PullSecrets, RegistryEntries, Vacant, Holds;
    }
    forall i | 0 <= i < |p.registry| ensures RegistryEntryOf(t, p.registry[i].name) == p.registry[i] {
      hide *;
      assert p.registry[i] in p.registry;
      RegistryWriteStored(p, id, dst, t, p.registry[i]);
      RegistryBodies(t, p.registry[i]);
    }
  }

  // ---------- Shared secrets ----------

  lemma SharedKeysBack(p: Payload, id: string, dst: Store, t: Store, k: Key)
    requires Exported(p) && Vacant(dst, p, id) && Holds(p, id, dst, t)
    ensures k in SharedKeys(t, id) <==> WritesShared(p, id, k)
  {
    if WritesShared(p, id, k) {
      var e, env :| AtShared(p, id, k, e, env);
      SharedWriteStored(p, id, dst, t, k, e, env);
      LabelsTell(id, Slot("", ""), e.data, RegistryEntry("", "", "", ""));
    }
    if k in SharedKeys(t, id) {
      assert k in dst ==> k in SharedKeys(dst, id);
      AddedSecretKind(p, id, dst, t, k);
    }
  }

  lemma SharedEnvBack(p: Payload, id: string, dst: Store, t: Store, k: Key, e: SharedEntry, env: string)
    requires Exported(p) && Vacant(dst, p, id) && Holds(p, id, dst, t) && AtShared(p, id, k, e, env)
    ensures SharedEnv(id, k, Read(t, k)) == env && env != "" && SecretData(Read(t, k)) == e.data
  {
    SharedWriteStored(p, id, dst, t, k, e, env);
    hide Vacant, Holds;
    assert EnvsSorted(e);
    assert EnvNamespace(id, env)[|id| + 1..] == env;
    SecretBodies(id, Slot("", ""), e.data, RegistryEntry("", "", "", ""));
    StringMapUndoesAnyMap(e.data);
    assert Label(SharedObject(id, e.data), ENVIRONMENT) == "";
  }

  /** The secrets a listing holds under one name serve one environment each, and not the same. */
  ghost predicate OneEnvEach(store: Store, id: string, items: seq<Key>, name: string)
  {
    forall i, j | 0 <= i < j < |items| && items[i].name == items[j].name == name ::
      SharedEnv(id, items[i], Read(store, items[i])) != SharedEnv(id, items[j], Read(store, items[j]))
  }

  ghost predicate Serves(store: Store, id: string, items: seq<Key>, name: string, x: string)
  {
    exists k :: k in items && k.name == name && SharedEnv(id, k, Read(store, k)) == x
  }

  lemma ServesExtends(store: Store, id: string, items: seq<Key>, k: Key, name: string, x: string)
    ensures Serves(store, id, items + [k], name, x) <==>
      Serves(store, id, items, name, x) || (k.name == name && SharedEnv(id, k, Read(store, k)) == x)
  {
    assert k in items + [k] && forall j | j in items :: j in items + [k];
    assert forall j | j in items + [k] :: j in items || j == k;
  }

  lemma {:induction false} GroupEnvsAre(store: Store, id: string, items: seq<Key>, name: string, x: string)
    ensures x in GroupEnvs(store, id, items, name) <==> x != "" && Serves(store, id, items, name, x)
  {
    if items != [] {
      var front, k := items[..|items| - 1], items[|items| - 1];
      GroupEnvsAre(store, id, front, name, x);
      assert items == front + [k];
      ServesExtends(store, id, front, k, name, x);
      hide Serves, SharedEnv, Read;
    }
  }

  lemma {:induction false} GroupEnvsDistinct(store: Store, id: string, items: seq<Key>, name: string)
    requires OneEnvEach(store, id, items, name)
    ensures NoRepeats(GroupEnvs(store, id, items, name))
  {
    if items != [] {
      var front, k := items[..|items| - 1], items[|items| - 1];
      hide SharedEnv, Read;
      GroupEnvsDistinct(store, id, front, name);
      var x := SharedEnv(id, k, Read(store, k));
      GroupEnvsAre(store, id, front, name, x);
      if k.name == name {
        forall j | j in front && j.name == name ensures SharedEnv(id, j, Read(store, j)) != x {
          var i :| 0 <= i < |front| && front[i] == j;
          assert items[i].name == items[|front|].name;
        }
      }
    }
  }

  ghost predicate SharedAre(p: Payload, id: string, t: Store, items: seq<Key>)
  {
    NoRepeats(items) && (forall k :: k in items <==> WritesShared(p, id, k)) &&
    forall k, e, env | AtShared(p, id, k, e, env) ::
      SharedEnv(id, k, Read(t, k)) == env && env != "" && SecretData(Read(t, k)) == e.data
  }

  lemma SharedListed(p: Payload, id: string, dst: Store, t: Store)
    requires Exported(p) && Vacant(dst, p, id) && Holds(p, id, dst, t)
    ensures SharedAre(p, id, t, Listing(SharedKeys(t, id)))
  {
    hide *;
    ListingIsExact(SharedKeys(t, id));
    forall k ensures k in Listing(SharedKeys(t, id)) <==> WritesShared(p, id, k) {
      SharedKeysBack(p, id, dst, t, k);
    }
    forall k, e, env | AtShared(p, id, k, e, env)
      ensures SharedEnv(id, k, Read(t, k)) == env && env != "" && SecretData(Read(t, k)) == e.data
    {
      SharedEnvBack(p, id, dst, t, k, e, env);
    }
    SharedAreIntro(p, id, t, Listing(SharedKeys(t, id)));
  }

  lemma SharedAreIntro(p: Payload, id: string, t: Store, items: seq<Key>)
    requires forall i, j | 0 <= i < j < |items| :: items[i] != items[j]
    requires forall k :: k in items <==> WritesShared(p, id, k)
    requires forall k, e, env | AtShared(p, id, k, e, env) ::
      SharedEnv(id, k, Read(t, k)) == env && env != "" && SecretData(Read(t, k)) == e.data
    ensures SharedAre(p, id, t, items)
  {}

  /** Under one name stand the secrets of the one entry of that name. */
  lemma NamedIsItsEntry(p: Payload, id: string, k: Key, e: SharedEntry)
    requires Exported(p) && WritesShared(p, id, k) && e in p.shared && k.name == e.name
    ensures exists env :: AtShared(p, id, k, e, env)
  {
    var f, env :| AtShared(p, id, k, f, env);
    SharedAreDistinct(p, e, f);
  }

  lemma EntryEnvsBack(p: Payload, id: string, t: Store, items: seq<Key>, e: SharedEntry)
    requires Exported(p) && SharedAre(p, id, t, items) && e in p.shared
    ensures multiset(GroupEnvs(t, id, items, e.name)) == multiset(set env | env in e.environments)
  {
    hide Exported, SharedEnv, SharedKey;
    var envs := GroupEnvs(t, id, items, e.name);
    forall x ensures x in envs <==> x in e.environments {
      GroupEnvsAre(t, id, items, e.name, x);
      if x in e.environments {
        var k := SharedKey(id, e.name, x);
        assert AtShared(p, id, k, e, x);
        assert k.name == e.name by { SharedKeyName(id, e.name, x); }
        assert Serves(t, id, items, e.name, x);
      }
      if x != "" && Serves(t, id, items, e.name, x) {
        var k :| k in items && k.name == e.name && SharedEnv(id, k, Read(t, k)) == x;
        NamedIsItsEntry(p, id, k, e);
      }
    }
    forall i, j | 0 <= i < j < |items| && items[i].name == items[j].name == e.name
      ensures SharedEnv(id, items[i], Read(t, items[i])) != SharedEnv(id, items[j], Read(t, items[j]))
    {
      NamedIsItsEntry(p, id, items[i], e);
      NamedIsItsEntry(p, id, items[j], e);
    }
    GroupEnvsDistinct(t, id, items, e.name);
    NoRepeatsCounts(envs);
    assert (set env | env in envs) == (set env | env in e.environments);
  }

  lemma SharedKeyName(id: string, name: string, env: string)
    ensures SharedKey(id, name, env).name == name
  {}

  lemma NoRepeatsIffCounted(s: seq<string>)
    ensures NoRepeats(s) <==> multiset(s) == multiset(set x | x in s)
  {
    if NoRepeats(s) {
      NoRepeatsCounts(s);
    } else {
      var i, j :| 0 <= i < j < |s| && s[i] == s[j];
      RepeatCountsTwice(s, i, j);
      assert multiset(set x | x in s)[s[i]] <= 1;
    }
  }

  /** An entry comes back from the listing as it was exactly when it was fanned out. */
  lemma EntryBack(p: Payload, id: string, t: Store, items: seq<Key>, e: SharedEntry)
    requires Exported(p) && SharedAre(p, id, t, items) && e in p.shared && e.environments != []
    ensures SortEnvs(Group(t, id, items, e.name)) == e <==> NoRepeats(e.environments)
  {
    EntryEnvsBack(p, id, t, items, e);
    NoRepeatsIffCounted(e.environments);
    var envs := GroupEnvs(t, id, items, e.name);
    SortForgetsOrder(envs, e.environments);
    assert Sorted(e.environments) by { assert EnvsSorted(e); }
    SortIsIdentityOnSorted(e.environments);
    var k := SharedKey(id, e.name, e.environments[0]);
    assert AtShared(p, id, k, e, e.environments[0]);
    var first := FirstNamed(items, e.name);
    NamedIsItsEntry(p, id, first.value, e);
  }

  lemma NameComesBack(p: Payload, id: string, t: Store, items: seq<Key>, e: SharedEntry)
    requires Exported(p) && SharedAre(p, id, t, items) && e in p.shared
    ensures e.name in KeyNames(items) <==> e.environments != []
  {
    hide Exported, SharedEnv;
    if e.environments != [] {
      var k := SharedKey(id, e.name, e.environments[0]);
      assert AtShared(p, id, k, e, e.environments[0]);
    }
    if e.name in KeyNames(items) {
      var k :| k in items && k.name == e.name;
      NamedIsItsEntry(p, id, k, e);
    }
  }

  lemma NamesComeBack(p: Payload, id: string, t: Store, items: seq<Key>)
    requires Exported(p) && SharedAre(p, id, t, items) && FannedOut(p.shared)
    ensures Ordered(KeyNames(items)) == SharedNames(p.shared)
  {
    var own := set n | n in SharedNames(p.shared);
    forall n | n in own ensures n in KeyNames(items) {
      var i :| 0 <= i < |p.shared| && SharedNames(p.shared)[i] == n;
      NameComesBack(p, id, t, items, p.shared[i]);
    }
    forall n | n in KeyNames(items) ensures n in own {
      var k :| k in items && k.name == n;
      var e, env :| AtShared(p, id, k, e, env);
      var i :| 0 <= i < |p.shared| && p.shared[i] == e;
      assert SharedNames(p.shared)[i] == n;
    }
    assert KeyNames(items) == own;
  }

  lemma FannedOutComesBack(p: Payload, id: string, t: Store, items: seq<Key>)
    requires Exported(p) && SharedAre(p, id, t, items) && FannedOut(p.shared)
    ensures SharedEntries(t, id, items, Ordered(KeyNames(items))) == p.shared
  {
    NamesComeBack(p, id, t, items);
    hide Exported, SharedAre, KeyNames, Group, SortEnvs;
    forall i | 0 <= i < |p.shared| ensures SortEnvs(Group(t, id, items, p.shared[i].name)) == p.shared[i] {
      assert p.shared[i] in p.shared;
      EntryBack(p, id, t, items, p.shared[i]);
    }
  }

  lemma OnlyFannedOutComesBack(p: Payload, id: string, t: Store, items: seq<Key>)
    requires Exported(p) && SharedAre(p, id, t, items)
    requires SharedEntries(t, id, items, Ordered(KeyNames(items))) == p.shared
    ensures FannedOut(p.shared)
  {
    var names := Ordered(KeyNames(items));
    OrderedIsExact(KeyNames(items));
    hide Exported, SharedAre, KeyNames, Group, SortEnvs, Ordered;
    forall e | e in p.shared ensures e.environments != [] && NoRepeats(e.environments) {
      var i :| 0 <= i < |p.shared| && p.shared[i] == e;
      assert e == SortEnvs(Group(t, id, items, names[i]));
      assert e.name == names[i] by { GroupName(t, id, items, names[i]); }
      assert names[i] in names;
      NameComesBack(p, id, t, items, e);
      EntryBack(p, id, t, items, e);
    }
  }

  lemma GroupName(store: Store, id: string, items: seq<Key>, name: string)
    ensures SortEnvs(Group(store, id, items, name)).name == name
  {}

  /** The shared secrets come back exactly when each was fanned out, once per environment. */
  lemma SharedBack(p: Payload, id: string, dst: Store, t: Store)
    requires Exported(p) && Vacant(dst, p, id) && Holds(p, id, dst, t)
    ensures SharedOf(t, id) == p.shared <==> FannedOut(p.shared)
  {
    SharedListed(p, id, dst, t);
    var items := Listing(SharedKeys(t, id));
    assert SharedOf(t, id) == SharedEntries(t, id, items, Ordered(KeyNames(items)));
    hide *;
    if FannedOut(p.shared) {
      FannedOutComesBack(p, id, t, items);
    }
    if SharedEntries(t, id, items, Ordered(KeyNames(items))) == p.shared {
      OnlyFannedOutComesBack(p, id, t, items);
    }
  }

  // ---------- When the import succeeds ----------

  lemma {:induction false} FreshWritesGoThrough(have: set<Key>, ws: seq<Write>)
    requires forall w | w in ws :: w.key.kind == Namespace || NamespaceKey(w.key.namespace) in have
    requires forall w | w in ws :: w.ifAbsent || w.key !in have
    requires forall i, j | 0 <= i < j < |ws| :: ws[j].ifAbsent || ws[i].key != ws[j].key
    ensures AllGoThrough(have, ws)
  {
    if ws != [] {
      var front, w := ws[..|ws| - 1], ws[|ws| - 1];
      assert w in ws && forall v | v in front :: v in ws;
      FreshWritesGoThrough(have, front);
      if w.key in KeysOf(front) {
        var v :| v in front && v.key == w.key;
        var i :| 0 <= i < |front| && front[i] == v;
        assert ws[i].key == ws[|ws| - 1].key;
      }
    }
  }

  /** A write that fails on what is there cannot follow a write to its key. */
  lemma {:induction false} TakenKeyFails(have: set<Key>, ws: seq<Write>, w: Write)
    requires AllGoThrough(have, ws) && w in ws && w.key in have
    ensures w.ifAbsent
  {
    var front, last := ws[..|ws| - 1], ws[|ws| - 1];
    assert ws == front + [last];
    if w in front {
      TakenKeyFails(have, front, w);
    }
  }

  /** Two different writes that fail on what is there have different keys. */
  lemma {:induction false} StrictWritesDiffer(have: set<Key>, ws: seq<Write>, w: Write, v: Write)
    requires AllGoThrough(have, ws) && w in ws && v in ws && w != v && !w.ifAbsent && !v.ifAbsent
    ensures w.key != v.key
  {
    var front, last := ws[..|ws| - 1], ws[|ws| - 1];
    assert ws == front + [last];
    if w in front && v in front {
      StrictWritesDiffer(have, front, w, v);
    } else if w in front {
      assert w.key in KeysOf(front);
    } else {
      assert v in front && v.key in KeysOf(front);
    }
  }

  lemma {:induction false} AppPhase(id: string, apps: seq<AppEntry>, have: set<Key>)
    requires NamespaceKey(SYSTEM) in have && NoRepeats(AppKeyList(apps))
    requires forall k | k in AppKeyList(apps) :: k !in have
    ensures AllGoThrough(have, AppWrites(id, apps))
  {
    if apps != [] {
      var front, a := apps[..|apps| - 1], apps[|apps| - 1];
      assert AppKeyList(apps) == AppKeyList(front) + [AppKey(a.name)];
      NoRepeatsFront(AppKeyList(front), AppKey(a.name));
      AppPhase(id, front, have);
      var have' := have + KeysOf(AppWrites(id, front));
      assert AppKey(a.name) !in KeysOf(AppWrites(id, front)) by { NotAmongApps(id, front, a); }
      assert AppKey(a.name) !in have' by { assert AppKey(a.name) in AppKeyList(apps); }
      hide KeysOf, AppWrites, AppKeyList;
      OneAppGoesThrough(id, a, have');
      AllGoThroughConcat(have, AppWrites(id, front), OneAppWrites(id, a));
      AppWritesUnfold(id, apps);
    }
  }

  lemma AppWritesUnfold(id: string, apps: seq<AppEntry>)
    requires apps != []
    ensures AppWrites(id, apps) == AppWrites(id, apps[..|apps| - 1]) + OneAppWrites(id, apps[|apps| - 1])
  {}

  lemma NotAmongApps(id: string, apps: seq<AppEntry>, a: AppEntry)
    requires AppKey(a.name) !in AppKeyList(apps)
    ensures AppKey(a.name) !in KeysOf(AppWrites(id, apps))
  {
    forall w | w in AppWrites(id, apps) ensures w.key != AppKey(a.name) {
      AppWritesAre(id, apps, w);
      if IsAppWrite(id, apps, w) {
        var b :| b in apps && w == AppWrite(id, b);
        var i :| 0 <= i < |apps| && apps[i] == b;
        assert AppKeyList(apps)[i] == w.key;
      }
    }
  }

  lemma OneAppGoesThrough(id: string, a: AppEntry, have: set<Key>)
    requires NamespaceKey(SYSTEM) in have && AppKey(a.name) !in have
    ensures AllGoThrough(have, OneAppWrites(id, a))
  {
    var ns := NamespaceWrites(id, EnvNames(a.spec["project" := Text(id)]));
    FreshWritesGoThrough(have, [AppWrite(id, a)]);
    FreshWritesGoThrough(have + KeysOf([AppWrite(id, a)]), ns);
    AllGoThroughConcat(have, [AppWrite(id, a)], ns);
  }

  lemma VarsPhase(id: string, vars: map<Slot, map<string, string>>, order: seq<Slot>, have: set<Key>)
    requires Visits(order, vars.Keys)
    requires forall s | s in vars :: NamespaceKey(EnvNamespace(id, s.env)) in have && VarsKey(id, s) !in have
    ensures AllGoThrough(have, VarsWrites(id, vars, order))
  {
    var ws := VarsWrites(id, vars, order);
    forall i, j | 0 <= i < j < |ws| ensures ws[i].key != ws[j].key {
      SlotKeysInjective(id, order[i], order[j]);
    }
    forall w | w in ws ensures NamespaceKey(w.key.namespace) in have && w.key !in have {
      VarsWritesAre(id, vars, order, w);
    }
    FreshWritesGoThrough(have, ws);
  }

  lemma SecretsPhase(id: string, secrets: map<Slot, map<string, string>>, order: seq<Slot>, have: set<Key>)
    requires Visits(order, secrets.Keys)
    requires forall s | s in secrets :: NamespaceKey(EnvNamespace(id, s.env)) in have && SecretsKey(id, s) !in have
    ensures AllGoThrough(have, SecretsWrites(id, secrets, order))
  {
    var ws := SecretsWrites(id, secrets, order);
    forall i, j | 0 <= i < j < |ws| ensures ws[i].key != ws[j].key {
      SlotKeysInjective(id, order[i], order[j]);
    }
    forall w | w in ws ensures NamespaceKey(w.key.namespace) in have && w.key !in have {
      SecretsWritesAre(id, secrets, order, w);
    }
    FreshWritesGoThrough(have, ws);
  }

  lemma {:induction false} OneSharedGoesThrough(id: string, e: SharedEntry, envs: seq<string>, have: set<Key>)
    requires NoRepeats(envs) && forall env | env in envs :: SharedKey(id, e.name, env) !in have
    ensures AllGoThrough(have, OneSharedWrites(id, e, envs))
  {
    if envs != [] {
      var front, env := envs[..|envs| - 1], envs[|envs| - 1];
      OneSharedGoesThrough(id, e, front, have);
      var ws := OneSharedWrites(id, e, front);
      forall w | w in ws ensures w.key != SharedKey(id, e.name, env) {
        OneSharedWritesAre(id, e, front, w);
        if x :| x in front && w == SharedWrite(id, e, x) {
          if w.key == SharedKey(id, e.name, env) { EnvNamespaceInjective(id, x, env); }
        }
      }
      var have' := have + KeysOf(ws);
      assert env in envs && SharedKey(id, e.name, env) !in have';
      hide OneSharedWrites, KeysOf, EnvNamespace, AllGoThrough;
      PairGoesThrough(id, e, env, have');
      AllGoThroughConcat(have, ws, [EnsureNamespace(id, env), SharedWrite(id, e, env)]);
      OneSharedUnfolds(id, e, envs);
    }
  }

  lemma OneSharedUnfolds(id: string, e: SharedEntry, envs: seq<string>)
    requires envs != []
    ensures OneSharedWrites(id, e, envs) ==
      OneSharedWrites(id, e, envs[..|envs| - 1]) +
      [EnsureNamespace(id, envs[|envs| - 1]), SharedWrite(id, e, envs[|envs| - 1])]
  {}

  lemma PairGoesThrough(id: string, e: SharedEntry, env: string, have: set<Key>)
    requires SharedKey(id, e.name, env) !in have
    ensures AllGoThrough(have, [EnsureNamespace(id, env), SharedWrite(id, e, env)])
  {
    var a, b := [EnsureNamespace(id, env)], [SharedWrite(id, e, env)];
    FreshWritesGoThrough(have, a);
    assert EnsureNamespace(id, env) in a;
    FreshWritesGoThrough(have + KeysOf(a), b);
    AllGoThroughConcat(have, a, b);
    assert a + b == [EnsureNamespace(id, env), SharedWrite(id, e, env)];
  }

  lemma {:induction false} SharedPhase(id: string, es: seq<SharedEntry>, have: set<Key>)
    requires FannedOut(es) && NoRepeats(SharedNames(es))
    requires forall e | e in es :: forall env | env in e.environments :: SharedKey(id, e.name, env) !in have
    ensures AllGoThrough(have, SharedWrites(id, es))
  {
    if es != [] {
      var front, e := es[..|es| - 1], es[|es| - 1];
      assert e in es && forall f | f in front :: f in es;
      assert SharedNames(es) == SharedNames(front) + [e.name];
      NoRepeatsFront(SharedNames(front), e.name);
      SharedPhase(id, front, have);
      var ws := SharedWrites(id, front);
      forall w, env | w in ws && env in e.environments ensures w.key != SharedKey(id, e.name, env) {
        SharedWritesAre(id, front, w);
        if IsSharedWrite(id, front, w) {
          var f :| f in front && exists x | x in f.environments :: w == SharedWrite(id, f, x);
          var i :| 0 <= i < |front| && front[i] == f;
          assert SharedNames(es)[i] != SharedNames(es)[|front|];
        }
      }
      hide AllGoThrough, SharedKey, SharedWrite;
      OneSharedGoesThrough(id, e, e.environments, have + KeysOf(ws));
      AllGoThroughConcat(have, ws, OneSharedWrites(id, e, e.environments));
    }
  }

  /** The writes made before any configuration is. */
  function Early(p: Payload, id: string): seq<Write>
  {
    RegistryWrites(p.registry) + [ProjectWrite(id, p.spec)] + NamespaceWrites(id, EnvNames(p.spec)) +
    AppWrites(id, p.apps)
  }

  lemma EarlyIs(p: Payload, id: string, w: Write)
    ensures w in Early(p, id) <==>
      IsRegistryWrite(p.registry, w) || w == ProjectWrite(id, p.spec) ||
      (exists env | env in EnvNames(p.spec) :: w == EnsureNamespace(id, env)) ||
      IsAppWrite(id, p.apps, w) || IsAppNamespace(id, p.apps, w)
  {
    RegistryWritesAre(p.registry, w);
    NamespaceWritesAre(id, EnvNames(p.spec), w);
    AppWritesAre(id, p.apps, w);
    hide RegistryWrites, NamespaceWrites, AppWrites, IsRegistryWrite, IsAppWrite, IsAppNamespace, EnvNames;
  }

  lemma EarlyKinds(p: Payload, id: string, k: Key)
    requires k in KeysOf(Early(p, id))
    ensures k.kind == VestaSecret ==> WritesRegistry(p, k)
    ensures k.kind != ConfigMap
  {
    var w :| w in Early(p, id) && w.key == k;
    EarlyIs(p, id, w);
    hide Early;
  }

  lemma {:induction false} SlotHasEnv(apps: seq<AppEntry>, project: Fields, s: Slot)
    requires s in Slots(apps, project)
    ensures s.env in EnvNames(project) || exists a | a in apps :: s.env in EnvNames(a.spec)
  {
    var front, last := apps[..|apps| - 1], apps[|apps| - 1];
    assert last in apps && forall a | a in front :: a in apps;
    if s in Slots(front, project) {
      SlotHasEnv(front, project, s);
    }
  }

  lemma EarlyHomes(p: Payload, id: string, s: Slot)
    requires s in Slots(p.apps, p.spec)
    ensures NamespaceKey(EnvNamespace(id, s.env)) in KeysOf(Early(p, id))
  {
    SlotHasEnv(p.apps, p.spec, s);
    var w := EnsureNamespace(id, s.env);
    EarlyIs(p, id, w);
    hide Early, EnvNames, Slots, EnvNamespace;
  }

  lemma RegistryPhase(rs: seq<RegistryEntry>, have: set<Key>)
    requires NamespaceKey(SYSTEM) in have
    ensures AllGoThrough(have, RegistryWrites(rs))
  {
    FreshWritesGoThrough(have, RegistryWrites(rs));
  }

  lemma ProjectPhase(id: string, spec: Fields, have: set<Key>)
    requires NamespaceKey(SYSTEM) in have && ProjectKey(id) !in have
    ensures AllGoThrough(have, [ProjectWrite(id, spec)])
  {
    FreshWritesGoThrough(have, [ProjectWrite(id, spec)]);
  }

  lemma NamespacePhase(id: string, envs: seq<string>, have: set<Key>)
    ensures AllGoThrough(have, NamespaceWrites(id, envs))
  {
    FreshWritesGoThrough(have, NamespaceWrites(id, envs));
  }

  lemma EarlyGoesThrough(p: Payload, id: string, dst: Store)
    requires Exported(p) && Vacant(dst, p, id)
    ensures AllGoThrough(dst.Keys, Early(p, id))
  {
    var r, j, n, a :=
      RegistryWrites(p.registry), [ProjectWrite(id, p.spec)], NamespaceWrites(id, EnvNames(p.spec)), AppWrites(id, p.apps);
    ListingIsExact(set k | k in AppKeyList(p.apps));
    forall k | k in AppKeyList(p.apps) ensures k.kind == VestaApp && k !in dst.Keys {
      assert Owned(p, id, k);
    }
    assert ProjectKey(id) !in dst.Keys by { assert Owned(p, id, ProjectKey(id)); }
    forall k | k in KeysOf(r + j + n) ensures k.kind != VestaApp { NoAppsYet(p, id, k); }
    assert ProjectKey(id) !in KeysOf(r);
    assert NoRepeats(AppKeyList(p.apps));
    assert NamespaceKey(SYSTEM) in dst;
    hide *;
    RegistryPhase(p.registry, dst.Keys);
    ProjectPhase(id, p.spec, dst.Keys + KeysOf(r));
    AllGoThroughConcat(dst.Keys, r, j);
    NamespacePhase(id, EnvNames(p.spec), dst.Keys + KeysOf(r + j));
    AllGoThroughConcat(dst.Keys, r + j, n);
    AppPhase(id, p.apps, dst.Keys + KeysOf(r + j + n));
    AllGoThroughConcat(dst.Keys, r + j + n, a);
    EarlyUnfold(p, id);
  }

  lemma EarlyUnfold(p: Payload, id: string)
    ensures Early(p, id) == RegistryWrites(p.registry) + [ProjectWrite(id, p.spec)] +
      NamespaceWrites(id, EnvNames(p.spec)) + AppWrites(id, p.apps)
  {}

  lemma NoAppsYet(p: Payload, id: string, k: Key)
    requires k in KeysOf(RegistryWrites(p.registry) + [ProjectWrite(id, p.spec)] + NamespaceWrites(id, EnvNames(p.spec)))
    ensures k.kind != VestaApp
  {}

  lemma VarsKeyIsFree(p: Payload, id: string, dst: Store, s: Slot)
    requires Vacant(dst, p, id) && s in Slots(p.apps, p.spec)
    ensures VarsKey(id, s) !in dst && VarsKey(id, s) !in KeysOf(Early(p, id))
  {
    assert Owned(p, id, VarsKey(id, s));
    VarsKeyKind(id, s);
    hide VarsKey, Slots, Early, KeysOf;
    if VarsKey(id, s) in KeysOf(Early(p, id)) { EarlyKinds(p, id, VarsKey(id, s)); }
  }

  lemma VarsGoThrough(p: Payload, id: string, dst: Store, vo: seq<Slot>)
    requires Exported(p) && Vacant(dst, p, id) && Visits(vo, p.envVars.Keys)
    ensures AllGoThrough(dst.Keys, Early(p, id) + VarsWrites(id, p.envVars, vo))
  {
    var have := dst.Keys + KeysOf(Early(p, id));
    assert p.envVars.Keys <= Slots(p.apps, p.spec);
    hide *;
    forall s | s in p.envVars ensures NamespaceKey(EnvNamespace(id, s.env)) in have && VarsKey(id, s) !in have {
      EarlyHomes(p, id, s);
      VarsKeyIsFree(p, id, dst, s);
    }
    EarlyGoesThrough(p, id, dst);
    VarsPhase(id, p.envVars, vo, have);
    AllGoThroughConcat(dst.Keys, Early(p, id), VarsWrites(id, p.envVars, vo));
  }

  lemma ConfigKinds(p: Payload, id: string, vo: seq<Slot>, so: seq<Slot>, k: Key)
    requires Visits(vo, p.envVars.Keys) && Visits(so, p.secrets.Keys) && k.kind == VestaSecret
    ensures k in KeysOf(Early(p, id) + VarsWrites(id, p.envVars, vo)) ==> WritesRegistry(p, k)
    ensures k in KeysOf(Early(p, id) + VarsWrites(id, p.envVars, vo) + SecretsWrites(id, p.secrets, so)) ==>
      WritesRegistry(p, k) || WritesSecrets(p, id, k)
  {
    var e, v, s := Early(p, id), VarsWrites(id, p.envVars, vo), SecretsWrites(id, p.secrets, so);
    KeysOfConcat(e, v);
    KeysOfConcat(e + v, s);
    if k in KeysOf(e) { EarlyKinds(p, id, k); }
    assert k !in KeysOf(v);
    if k in KeysOf(s) {
      var w :| w in s && w.key == k;
      SecretsWritesAre(id, p.secrets, so, w);
    }
  }

  lemma SecretsGoThrough(p: Payload, id: string, dst: Store, vo: seq<Slot>, so: seq<Slot>)
    requires Exported(p) && Vacant(dst, p, id) && Unambiguous(p, id)
    requires Visits(vo, p.envVars.Keys) && Visits(so, p.secrets.Keys)
    ensures AllGoThrough(dst.Keys, Early(p, id) + VarsWrites(id, p.envVars, vo) + SecretsWrites(id, p.secrets, so))
  {
    var e, v := Early(p, id), VarsWrites(id, p.envVars, vo);
    var have := dst.Keys + KeysOf(e + v);
    KeysOfConcat(e, v);
    forall s | s in p.secrets ensures NamespaceKey(EnvNamespace(id, s.env)) in have && SecretsKey(id, s) !in have {
      EarlyHomes(p, id, s);
      assert Owned(p, id, SecretsKey(id, s));
      ConfigKinds(p, id, vo, so, SecretsKey(id, s));
      assert WritesSecrets(p, id, SecretsKey(id, s));
    }
    VarsGoThrough(p, id, dst, vo);
    SecretsPhase(id, p.secrets, so, have);
    hide *;
    AllGoThroughConcat(dst.Keys, e + v, SecretsWrites(id, p.secrets, so));
  }

  /** The import of an unambiguous project with every shared secret fanned out succeeds. */
  lemma ScheduleGoesThrough(p: Payload, id: string, dst: Store, vo: seq<Slot>, so: seq<Slot>)
    requires Exported(p) && Vacant(dst, p, id) && Unambiguous(p, id) && FannedOut(p.shared)
    requires Visits(vo, p.envVars.Keys) && Visits(so, p.secrets.Keys)
    ensures AllGoThrough(dst.Keys, Schedule(p, id, vo, so))
  {
    var before := Early(p, id) + VarsWrites(id, p.envVars, vo) + SecretsWrites(id, p.secrets, so);
    var have := dst.Keys + KeysOf(before);
    forall e | e in p.shared ensures forall env | env in e.environments :: SharedKey(id, e.name, env) !in have {
      forall env | env in e.environments ensures SharedKey(id, e.name, env) !in have {
        var k := SharedKey(id, e.name, env);
        assert AtShared(p, id, k, e, env);
        assert Owned(p, id, k);
        ConfigKinds(p, id, vo, so, k);
      }
    }
    OrderedHasNoRepeats(set n | n in SharedNames(p.shared));
    assert NoRepeats(SharedNames(p.shared));
    SecretsGoThrough(p, id, dst, vo, so);
    hide *;
    SharedPhase(id, p.shared, have);
    AllGoThroughConcat(dst.Keys, before, SharedWrites(id, p.shared));
    ScheduleParts(p, id, vo, so);
    EarlyUnfold(p, id);
  }

  /** A successful import wrote no two secrets under one key. */
  lemma SuccessIsUnambiguous(p: Payload, id: string, dst: Store, vo: seq<Slot>, so: seq<Slot>)
    requires Visits(vo, p.envVars.Keys) && Visits(so, p.secrets.Keys)
    requires AllGoThrough(dst.Keys, Schedule(p, id, vo, so))
    ensures Unambiguous(p, id)
  {
    var ws := Schedule(p, id, vo, so);
    forall k: Key | WritesSecrets(p, id, k) ensures !WritesShared(p, id, k) && !WritesRegistry(p, k) {
      var s :| s in p.secrets && k == SecretsKey(id, s);
      var w := SecretsWrite(id, p.secrets, s);
      assert IsConfigWrite(p, id, w);
      StrictIsNotRegistry(p, id, dst, vo, so, w);
      forall e, env ensures !AtShared(p, id, k, e, env) {
        if AtShared(p, id, k, e, env) {
          var v := SharedWrite(id, e, env);
          assert IsSharedWrite(id, p.shared, v);
          ScheduleIs(p, id, vo, so, w);
          ScheduleIs(p, id, vo, so, v);
          LabelsTell(id, s, p.secrets[s], RegistryEntry("", "", "", ""));
          LabelsTell(id, s, e.data, RegistryEntry("", "", "", ""));
          StrictWritesDiffer(dst.Keys, ws, w, v);
        }
      }
    }
    forall k: Key | WritesShared(p, id, k) ensures !WritesRegistry(p, k) {
      var e, env :| AtShared(p, id, k, e, env);
      assert IsSharedWrite(id, p.shared, SharedWrite(id, e, env));
      StrictIsNotRegistry(p, id, dst, vo, so, SharedWrite(id, e, env));
    }
  }

  lemma StrictIsNotRegistry(p: Payload, id: string, dst: Store, vo: seq<Slot>, so: seq<Slot>, w: Write)
    requires Visits(vo, p.envVars.Keys) && Visits(so, p.secrets.Keys)
    requires AllGoThrough(dst.Keys, Schedule(p, id, vo, so))
    requires IsWriteOf(p, id, w) && !w.ifAbsent
    ensures !WritesRegistry(p, w.key)
  {
    hide *;
    ScheduleIs(p, id, vo, so, w);
    RegistryTaken(p, w);
    var rest := RegistryComesFirst(p, id, vo, so);
    AllGoThroughConcat(dst.Keys, RegistryWrites(p.registry), rest);
    if WritesRegistry(p, w.key) {
      TakenKeyFails(dst.Keys + KeysOf(RegistryWrites(p.registry)), rest, w);
    }
  }

  lemma RegistryComesFirst(p: Payload, id: string, vo: seq<Slot>, so: seq<Slot>) returns (rest: seq<Write>)
    ensures Schedule(p, id, vo, so) == RegistryWrites(p.registry) + rest
  {
    ScheduleParts(p, id, vo, so);
    hide *;
    rest := [ProjectWrite(id, p.spec)] + NamespaceWrites(id, EnvNames(p.spec)) + AppWrites(id, p.apps) +
      VarsWrites(id, p.envVars, vo) + SecretsWrites(id, p.secrets, so) + SharedWrites(id, p.shared);
  }

  lemma RegistryTaken(p: Payload, w: Write)
    ensures w.ifAbsent || w !in RegistryWrites(p.registry)
    ensures forall k | WritesRegistry(p, k) :: k in KeysOf(RegistryWrites(p.registry))
  {
    forall k | WritesRegistry(p, k) ensures k in KeysOf(RegistryWrites(p.registry)) {
      var r :| r in p.registry && k == RegistryKey(r.name);
      var v := Write(k, RegistryObject(r), true);
      RegistryWritesAre(p.registry, v);
      assert v in RegistryWrites(p.registry);
    }
  }

  // ---------- Namespaces come first ----------

  /** Every write targets a namespace that is there, or that an earlier write ensures. */
  ghost predicate HomesFirst(have: set<Key>, ws: seq<Write>)
  {
    forall i | 0 <= i < |ws| :: ws[i].key.kind == Namespace ||
      NamespaceKey(ws[i].key.namespace) in have + KeysOf(ws[..i])
  }

  lemma HomesFirstConcat(have: set<Key>, a: seq<Write>, b: seq<Write>)
    requires HomesFirst(have, a) && HomesFirst(have + KeysOf(a), b)
    ensures HomesFirst(have, a + b)
  {
    forall i | 0 <= i < |a + b| && (a + b)[i].key.kind != Namespace
      ensures NamespaceKey((a + b)[i].key.namespace) in have + KeysOf((a + b)[..i])
    {
      if i < |a| {
        assert (a + b)[..i] == a[..i];
      } else {
        assert (a + b)[i] == b[i - |a|] && (a + b)[..i] == a + b[..i - |a|];
        KeysOfConcat(a, b[..i - |a|]);
      }
    }
  }

  lemma HomesThere(have: set<Key>, ws: seq<Write>)
    requires forall w | w in ws :: w.key.kind == Namespace || NamespaceKey(w.key.namespace) in have
    ensures HomesFirst(have, ws)
  {}

  lemma EarlyHomesFirst(p: Payload, id: string, have: set<Key>)
    requires NamespaceKey(SYSTEM) in have
    ensures HomesFirst(have, Early(p, id))
  {
    forall w | w in Early(p, id)
      ensures w.key.kind == Namespace || NamespaceKey(w.key.namespace) in have
    {
      EarlyIs(p, id, w);
    }
    HomesThere(have, Early(p, id));
  }

  lemma ConfigHomesFirst(p: Payload, id: string, vo: seq<Slot>, so: seq<Slot>, have: set<Key>)
    requires Exported(p) && Visits(vo, p.envVars.Keys) && Visits(so, p.secrets.Keys)
    requires KeysOf(Early(p, id)) <= have
    ensures HomesFirst(have, VarsWrites(id, p.envVars, vo) + SecretsWrites(id, p.secrets, so))
  {
    var ws := VarsWrites(id, p.envVars, vo) + SecretsWrites(id, p.secrets, so);
    forall w | w in ws ensures NamespaceKey(w.key.namespace) in have {
      hide Early, EnvNamespace, Slots;
      VarsWritesAre(id, p.envVars, vo, w);
      SecretsWritesAre(id, p.secrets, so, w);
      if s :| s in p.envVars && w == VarsWrite(id, p.envVars, s) {
        EarlyHomes(p, id, s);
      } else {
        var s :| s in p.secrets && w == SecretsWrite(id, p.secrets, s);
        EarlyHomes(p, id, s);
      }
    }
    HomesThere(have, ws);
  }

  lemma {:induction false} OneSharedHomesFirst(id: string, e: SharedEntry, envs: seq<string>, have: set<Key>)
    ensures HomesFirst(have, OneSharedWrites(id, e, envs))
  {
    if envs != [] {
      var front, env := OneSharedWrites(id, e, envs[..|envs| - 1]), envs[|envs| - 1];
      OneSharedHomesFirst(id, e, envs[..|envs| - 1], have);
      var a, b := [EnsureNamespace(id, env)], [SharedWrite(id, e, env)];
      assert EnsureNamespace(id, env) in a;
      HomesThere(have + KeysOf(front), a);
      HomesThere(have + KeysOf(front) + KeysOf(a), b);
      HomesFirstConcat(have + KeysOf(front), a, b);
      HomesFirstConcat(have, front, a + b);
      assert a + b == [EnsureNamespace(id, env), SharedWrite(id, e, env)];
    }
  }

  lemma {:induction false} SharedHomesFirst(id: string, es: seq<SharedEntry>, have: set<Key>)
    ensures HomesFirst(have, SharedWrites(id, es))
  {
    if es != [] {
      var front, e := SharedWrites(id, es[..|es| - 1]), es[|es| - 1];
      SharedHomesFirst(id, es[..|es| - 1], have);
      OneSharedHomesFirst(id, e, e.environments, have + KeysOf(front));
      HomesFirstConcat(have, front, OneSharedWrites(id, e, e.environments));
    }
  }

  lemma ScheduleHomesFirst(p: Payload, id: string, vo: seq<Slot>, so: seq<Slot>, have: set<Key>)
    requires Exported(p) && Visits(vo, p.envVars.Keys) && Visits(so, p.secrets.Keys) && NamespaceKey(SYSTEM) in have
    ensures HomesFirst(have, Schedule(p, id, vo, so))
  {
    hide *;
    var e, v, s, h :=
      Early(p, id), VarsWrites(id, p.envVars, vo), SecretsWrites(id, p.secrets, so), SharedWrites(id, p.shared);
    EarlyHomesFirst(p, id, have);
    ConfigHomesFirst(p, id, vo, so, have + KeysOf(e));
    HomesFirstConcat(have, e, v + s);
    SharedHomesFirst(id, p.shared, have + KeysOf(e + (v + s)));
    HomesFirstConcat(have, e + (v + s), h);
    ScheduleParts(p, id, vo, so);
    EarlyUnfold(p, id);
    assert e + (v + s) + h == e + v + s + h;
  }

  lemma {:induction false} FirstFailure(s: Outcome, ws: seq<Write>) returns (i: nat)
    requires !s.failed && RunFrom(s, ws).failed
    ensures i < |ws| && !RunFrom(s, ws[..i]).failed && Perform(RunFrom(s, ws[..i]), ws[i]).failed
  {
    var front := ws[..|ws| - 1];
    if RunFrom(s, front).failed {
      i := FirstFailure(s, front);
      assert front[..i] == ws[..i];
    } else {
      i := |ws| - 1;
    }
  }

  /** The import of an exported payload, into any cluster that runs Vesta, fails only on a key
      that is taken: never for want of a namespace. */
  lemma ImportFailsOnlyOnATakenKey(p: Payload, id: string, dst: Store, vo: seq<Slot>, so: seq<Slot>) returns (i: nat)
    requires Exported(p) && NamespaceKey(SYSTEM) in dst && Visits(vo, p.envVars.Keys) && Visits(so, p.secrets.Keys)
    requires Run(dst, Schedule(p, id, vo, so)).failed
    ensures var ws := Schedule(p, id, vo, so);
      i < |ws| && !Run(dst, ws[..i]).failed && ws[i].key in Run(dst, ws[..i]).store && !ws[i].ifAbsent
  {
    var ws := Schedule(p, id, vo, so);
    ScheduleHomesFirst(p, id, vo, so, dst.Keys);
    var start := Outcome(dst, Added(0, 0, 0), false);
    i := FirstFailure(start, ws);
    RunSucceedsExactly(start, ws[..i]);
    hide Schedule, Exported, AllGoThrough, RunFrom, KeysOf;
  }

  // ---------- The round trip ----------

  lemma CollectIs(p: Payload, id: string, t: Store)
    requires ProjectKey(id) in t && t[ProjectKey(id)].body == p.spec && AppsOf(t, id) == RenameApps(p.apps, id)
    requires Slots(RenameApps(p.apps, id), p.spec) == Slots(p.apps, p.spec)
    requires PullSecrets(p.spec, RenameApps(p.apps, id)) == PullSecrets(p.spec, p.apps)
    ensures Collect(t, id) == Some(Rename(p, id)) <==>
      VarsOf(t, id, Slots(p.apps, p.spec)) == p.envVars && SecretsOf(t, id, Slots(p.apps, p.spec)) == p.secrets &&
      SharedOf(t, id) == p.shared && RegistryOf(t, PullSecrets(p.spec, p.apps)) == p.registry
  {
    hide AppsOf, VarsOf, SecretsOf, SharedOf, RegistryOf, RenameApps, Slots, PullSecrets;
  }

  lemma ExportAgain(p: Payload, id: string, dst: Store, t: Store)
    requires Exported(p) && Vacant(dst, p, id) && Holds(p, id, dst, t)
    ensures Collect(t, id) == Some(Rename(p, id)) <==>
      NoEmpties(p.envVars) && NoEmpties(p.secrets) && FannedOut(p.shared) && Unshadowed(p, id)
  {
    hide *;
    ProjectBack(p, id, dst, t);
    AppsBack(p, id, dst, t);
    RenamingKeepsSlots(p.apps, p.spec, id);
    RenamingKeepsPullSecrets(p.spec, p.apps, id);
    VarsBack(p, id, dst, t);
    SecretsBack(p, id, dst, t);
    SharedBack(p, id, dst, t);
    RegistryBack(p, id, dst, t);
    CollectIs(p, id, t);
  }

  lemma ImportThenExport(p: Payload, id: string, dst: Store, vo: seq<Slot>, so: seq<Slot>)
    requires Exported(p) && Vacant(dst, p, id)
    requires Visits(vo, p.envVars.Keys) && Visits(so, p.secrets.Keys)
    ensures var end := Run(dst, Schedule(p, id, vo, so));
      !end.failed && Collect(end.store, id) == Some(Rename(p, id)) <==> Transferable(p, id)
  {
    var ws := Schedule(p, id, vo, so);
    RunSucceedsExactly(Outcome(dst, Added(0, 0, 0), false), ws);
    assert Run(dst, ws) == RunFrom(Outcome(dst, Added(0, 0, 0), false), ws);
    assert Transferable(p, id) <==>
      Unambiguous(p, id) && NoEmpties(p.envVars) && NoEmpties(p.secrets) && FannedOut(p.shared) && Unshadowed(p, id);
    hide *;
    if Transferable(p, id) {
      ScheduleGoesThrough(p, id, dst, vo, so);
    }
    if !Run(dst, ws).failed {
      SuccessIsUnambiguous(p, id, dst, vo, so);
      RunHolds(p, id, dst, vo, so);
      ExportAgain(p, id, dst, Run(dst, ws).store);
    }
  }

  /** Exporting name from src, importing it as id into a target with none of its names, and
      exporting id gives the same project back, exactly when the project is transferable;
      whatever order the import visits its maps in. */
  lemma RoundTrip(
    src: Store, name: string, p: Payload, dst: Store, id: string, vo: seq<Slot>, so: seq<Slot>,
    after: Store, created: Added, error: Option<ApiError>)
    requires Collect(src, name) == Some(p) && Vacant(dst, p, id)
    requires Visits(vo, p.envVars.Keys) && Visits(so, p.secrets.Keys)
    requires Ran(Outcome(dst, Added(0, 0, 0), false), Schedule(p, id, vo, so), Outcome(after, created, false), error)
    requires error != Some(Unavailable)
    ensures error == None && Collect(after, id) == Some(Rename(p, id)) <==> Transferable(p, id)
  {
    var start, ws := Outcome(dst, Added(0, 0, 0), false), Schedule(p, id, vo, so);
    assert Run(dst, ws) == RunFrom(start, ws);
    hide *;
    ExportsAreExported(src, name);
    ImportThenExport(p, id, dst, vo, so);
    RanEnds(start, ws, Outcome(after, created, false), error);
  }

  /** Under its own name, and with every app saying it belongs there, the payload is the same. */
  lemma RenamingToItself(p: Payload)
    ensures Rename(p, p.name) == p <==>
      forall a | a in p.apps :: "project" in a.spec && a.spec["project"] == Text(p.name)
  {
    forall i | 0 <= i < |p.apps|
      ensures RenameApps(p.apps, p.name)[i] == p.apps[i] <==>
        "project" in p.apps[i].spec && p.apps[i].spec["project"] == Text(p.name)
    {
      var a := p.apps[i];
      if RenameApp(a, p.name) == a { assert "project" in a.spec["project" := Text(p.name)]; }
    }
    if Rename(p, p.name) == p {
      forall a | a in p.apps ensures "project" in a.spec && a.spec["project"] == Text(p.name) {
        var i :| 0 <= i < |p.apps| && p.apps[i] == a;
        assert RenameApps(p.apps, p.name)[i] == p.apps[i];
      }
    }
    if forall a | a in p.apps :: "project" in a.spec && a.spec["project"] == Text(p.name) {
      assert RenameApps(p.apps, p.name) == p.apps;
    }
  }
}
