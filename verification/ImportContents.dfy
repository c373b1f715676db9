/** What an import leaves in the cluster, told object by object, and in which order it writes. */
module ImportContents {
  import opened Json
  import opened Text
  import opened Cluster
  import opened Bundle
  import opened Export
  import opened Import
  import opened ImportRun
  import opened ExportContents

  // ---------- Writes that went through ----------

  /** A write that must create its object has, in a run that succeeded, and nothing was there before. */
  lemma {:induction false} CreatedStands(s: Outcome, ws: seq<Write>, w: Write)
    requires !RunFrom(s, ws).failed && w in ws && !w.ifAbsent
    ensures w.key !in s.store && w.key in RunFrom(s, ws).store && RunFrom(s, ws).store[w.key] == w.o
  {
    var front, last := ws[..|ws| - 1], ws[|ws| - 1];
    assert ws == front + [last];
    RunOnlyAdds(s, front);
    if w in front { CreatedStands(s, front, w); }
  }

  /** One that may find its object leaves it alone. */
  lemma {:induction false} EnsuredStands(s: Outcome, ws: seq<Write>, w: Write)
    requires !RunFrom(s, ws).failed && w in ws
    ensures w.key in RunFrom(s, ws).store && (w.key in s.store ==> RunFrom(s, ws).store[w.key] == s.store[w.key])
  {
    var front, last := ws[..|ws| - 1], ws[|ws| - 1];
    assert ws == front + [last];
    RunOnlyAdds(s, ws);
    RunOnlyAdds(s, front);
    if w in front { EnsuredStands(s, front, w); }
  }

  /** Every object a run added is that of one of its writes. */
  lemma {:induction false} AddedIsWritten(s: Outcome, ws: seq<Write>, k: Key)
    requires k in RunFrom(s, ws).store && k !in s.store
    ensures exists w | w in ws :: w.key == k && RunFrom(s, ws).store[k] == w.o
  {
    var front, last := ws[..|ws| - 1], ws[|ws| - 1];
    assert ws == front + [last];
    if k in RunFrom(s, front).store { AddedIsWritten(s, front, k); }
  }

  // ---------- The objects of an import ----------

  predicate Stands(t: Store, k: Key, labels: map<string, string>, body: Fields) { k in t && t[k] == Object(labels, body) }

  /** An import of the bundle as id went through, from the store dst to t. */
  ghost predicate Imported(dst: Store, p: Payload, id: string, t: Store)
  {
    exists vo, so :: Visits(vo, p.envVars.Keys) && Visits(so, p.secrets.Keys) &&
      Run(dst, Schedule(p, id, vo, so)).store == t && !Run(dst, Schedule(p, id, vo, so)).failed
  }

  lemma ImportedStands(dst: Store, p: Payload, id: string, t: Store, w: Write)
    requires Imported(dst, p, id, t) && IsWriteOf(p, id, w)
    ensures w.key in t && (w.key in dst ==> t[w.key] == dst[w.key])
    ensures !w.ifAbsent ==> w.key !in dst && t[w.key] == w.o
  {
    var vo, so :| Visits(vo, p.envVars.Keys) && Visits(so, p.secrets.Keys) &&
      Run(dst, Schedule(p, id, vo, so)).store == t && !Run(dst, Schedule(p, id, vo, so)).failed;
    var start, ws := Outcome(dst, Added(0, 0, 0), false), Schedule(p, id, vo, so);
    ScheduleIs(p, id, vo, so, w);
    EnsuredStands(start, ws, w);
    if !w.ifAbsent { CreatedStands(start, ws, w); }
    hide Schedule, IsWriteOf, RunFrom;
  }

  /** The project and its apps: each spec as in the bundle, but that an app says it belongs to id. */
  lemma ProjectIsImported(dst: Store, p: Payload, id: string, t: Store)
    requires Imported(dst, p, id, t)
    ensures Stands(t, Key(VestaProject, "vesta-system", id), map[], p.spec)
    ensures forall a | a in p.apps :: Stands(t, Key(VestaApp, "vesta-system", a.name),
      map["kubernetes.getvesta.sh/project" := id], a.spec["project" := Text(id)])
  {
    ImportedStands(dst, p, id, t, ProjectWrite(id, p.spec));
    forall a | a in p.apps
      ensures Stands(t, Key(VestaApp, "vesta-system", a.name), map["kubernetes.getvesta.sh/project" := id], a.spec["project" := Text(id)])
    {
      assert IsAppWrite(id, p.apps, AppWrite(id, a));
      ImportedStands(dst, p, id, t, AppWrite(id, a));
    }
    hide Imported;
  }

  function TextsOf(data: map<string, string>): Fields { map k | k in data :: Text(data[k]) }

  /** The variables of each app and environment, labelled with both. */
  lemma VariablesAreImported(dst: Store, p: Payload, id: string, t: Store, s: Slot)
    requires Imported(dst, p, id, t) && s in p.envVars
    ensures Stands(t, Key(ConfigMap, id + "-" + s.env, s.app + "-envvars"),
      map["app.kubernetes.io/managed-by" := "vesta", "kubernetes.getvesta.sh/project" := id,
          "kubernetes.getvesta.sh/app" := s.app, "kubernetes.getvesta.sh/environment" := s.env],
      TextsOf(p.envVars[s]))
  {
    assert IsConfigWrite(p, id, VarsWrite(id, p.envVars, s));
    ImportedStands(dst, p, id, t, VarsWrite(id, p.envVars, s));
    assert AnyMap(p.envVars[s]) == TextsOf(p.envVars[s]);
    hide Imported;
  }

  /** And its secrets. */
  lemma SecretsAreImported(dst: Store, p: Payload, id: string, t: Store, s: Slot)
    requires Imported(dst, p, id, t) && s in p.secrets
    ensures Stands(t, Key(VestaSecret, id + "-" + s.env, s.app + "-secrets"),
      map["kubernetes.getvesta.sh/project" := id, "kubernetes.getvesta.sh/app" := s.app,
          "kubernetes.getvesta.sh/environment" := s.env],
      map["type" := Text("Opaque"), "project" := Text(id), "app" := Text(s.app), "environment" := Text(s.env),
          "data" := Dict(TextsOf(p.secrets[s]))])
  {
    assert IsConfigWrite(p, id, SecretsWrite(id, p.secrets, s));
    ImportedStands(dst, p, id, t, SecretsWrite(id, p.secrets, s));
    assert AnyMap(p.secrets[s]) == TextsOf(p.secrets[s]);
    hide Imported;
  }

  /** Each shared secret in each of its environments, whose namespace is there. */
  lemma SharedSecretsAreImported(dst: Store, p: Payload, id: string, t: Store, e: SharedEntry, env: string)
    requires Imported(dst, p, id, t) && e in p.shared && env in e.environments
    ensures Key(Namespace, "", id + "-" + env) in t
    ensures Stands(t, Key(VestaSecret, id + "-" + env, e.name),
      map["kubernetes.getvesta.sh/project" := id, "kubernetes.getvesta.sh/shared" := "true"],
      map["type" := Text("Opaque"), "project" := Text(id), "data" := Dict(TextsOf(e.data))])
  {
    assert IsSharedWrite(id, p.shared, SharedWrite(id, e, env)) && IsSharedNamespace(id, p.shared, EnsureNamespace(id, env));
    ImportedStands(dst, p, id, t, SharedWrite(id, e, env));
    ImportedStands(dst, p, id, t, EnsureNamespace(id, env));
    assert AnyMap(e.data) == TextsOf(e.data);
    hide Imported;
  }

  /** A registry credential is left as it is where the instance has one of its name; one that is made is
      that of an entry of the bundle. */
  lemma CredentialsAreImported(dst: Store, p: Payload, id: string, t: Store, r: RegistryEntry)
    requires Imported(dst, p, id, t) && r in p.registry
    ensures Key(VestaSecret, "vesta-system", r.name) in t
    ensures Key(VestaSecret, "vesta-system", r.name) in dst ==>
      t[Key(VestaSecret, "vesta-system", r.name)] == dst[Key(VestaSecret, "vesta-system", r.name)]
  {
    var w := Write(RegistryKey(r.name), RegistryObject(r), true);
    assert IsRegistryWrite(p.registry, w);
    ImportedStands(dst, p, id, t, w);
    hide Imported;
  }

  /** The namespaces of the project and of each app are there. */
  lemma NamespacesAreImported(dst: Store, p: Payload, id: string, t: Store, env: string)
    requires Imported(dst, p, id, t)
    requires Names(p.spec, "environments", env) || exists a | a in p.apps :: Names(a.spec, "environments", env)
    ensures Key(Namespace, "", id + "-" + env) in t
  {
    EnvNamesAre(p.spec, env);
    if a :| a in p.apps && Names(a.spec, "environments", env) {
      EnvNamesAre(a.spec, env);
      assert IsAppNamespace(id, p.apps, EnsureNamespace(id, env));
    }
    assert IsWriteOf(p, id, EnsureNamespace(id, env));
    ImportedStands(dst, p, id, t, EnsureNamespace(id, env));
    hide Imported, EnvNames;
  }

  /** What an import can add: nothing but these. */
  ghost predicate FromBundle(p: Payload, id: string, k: Key, o: Object)
  {
    match k.kind
    case VestaProject => k == Key(VestaProject, "vesta-system", id)
    case VestaApp => k.namespace == "vesta-system" && exists a | a in p.apps :: a.name == k.name
    case ConfigMap => exists s | s in p.envVars :: k.namespace == id + "-" + s.env && k.name == s.app + "-envvars"
    case Namespace =>
      k.namespace == "" && o == Object(map["app.kubernetes.io/managed-by" := "vesta"], map[]) &&
      exists env: string :: k.name == id + "-" + env
    case VestaSecret =>
      (exists s | s in p.secrets :: k.namespace == id + "-" + s.env && k.name == s.app + "-secrets") ||
      (exists e | e in p.shared :: exists env | env in e.environments :: k.namespace == id + "-" + env && k.name == e.name) ||
      (k.namespace == "vesta-system" && exists r | r in p.registry :: r.name == k.name && IsCredentialOf(o, r))
  }

  predicate IsCredentialOf(o: Object, r: RegistryEntry)
  {
    o == Object(map["kubernetes.getvesta.sh/type" := "registry"],
      map["type" := Text("kubernetes.io/dockerconfigjson"),
          "dockerConfig" := Dict(map["registry" := Text(r.registry), "username" := Text(r.username), "password" := Text(r.password)])])
  }

  lemma WriteIsFromBundle(p: Payload, id: string, w: Write)
    requires IsWriteOf(p, id, w)
    ensures FromBundle(p, id, w.key, w.o)
  {
    if IsRegistryWrite(p.registry, w) {
      var r :| r in p.registry && w == Write(RegistryKey(r.name), RegistryObject(r), true);
      assert IsCredentialOf(w.o, r);
    } else if IsSharedWrite(id, p.shared, w) {
      var e :| e in p.shared && exists env | env in e.environments :: w == SharedWrite(id, e, env);
      var env :| env in e.environments && w == SharedWrite(id, e, env);
    } else if IsNamespaceWrite(p, id, w) {
      NamespaceWriteIs(p, id, w);
    }
  }

  lemma NamespaceWriteIs(p: Payload, id: string, w: Write)
    requires IsNamespaceWrite(p, id, w)
    ensures exists env: string :: w == EnsureNamespace(id, env)
  {}

  /** An import adds nothing that is not of the bundle. */
  lemma NothingElseIsImported(dst: Store, p: Payload, id: string, t: Store, k: Key)
    requires Imported(dst, p, id, t) && k in t && k !in dst
    ensures FromBundle(p, id, k, t[k])
  {
    var vo, so :| Visits(vo, p.envVars.Keys) && Visits(so, p.secrets.Keys) &&
      Run(dst, Schedule(p, id, vo, so)).store == t && !Run(dst, Schedule(p, id, vo, so)).failed;
    var ws := Schedule(p, id, vo, so);
    AddedIsWritten(Outcome(dst, Added(0, 0, 0), false), ws, k);
    var w :| w in ws && w.key == k && t[k] == w.o;
    ScheduleIs(p, id, vo, so, w);
    WriteIsFromBundle(p, id, w);
    hide Schedule, IsWriteOf, RunFrom, FromBundle;
  }

  // ---------- The order of the writes ----------

  /** Where the kind of a write stands in the order of an import; namespaces come whenever they are needed. */
  function Rank(w: Write): int
  {
    match w.key.kind
    case Namespace => -1
    case VestaProject => 1
    case VestaApp => 2
    case ConfigMap => 3
    case VestaSecret =>
      if "kubernetes.getvesta.sh/type" in w.o.labels then 0
      else if "kubernetes.getvesta.sh/shared" in w.o.labels then 5
      else 4
  }

  ghost predicate Ranked(ws: seq<Write>, low: int, high: int)
  {
    (forall w | w in ws :: Rank(w) == -1 || low <= Rank(w) <= high) &&
    forall i, j | 0 <= i < j < |ws| :: Rank(ws[i]) == -1 || Rank(ws[j]) == -1 || Rank(ws[i]) <= Rank(ws[j])
  }

  lemma RankedConcat(a: seq<Write>, b: seq<Write>, low: int, mid: int, high: int)
    requires low <= mid <= high && Ranked(a, low, mid) && Ranked(b, mid, high)
    ensures Ranked(a + b, low, high)
  {
    hide Rank;
    forall w | w in a + b ensures Rank(w) == -1 || low <= Rank(w) <= high { assert w in a || w in b; }
    forall i, j | 0 <= i < j < |a + b| ensures Rank((a + b)[i]) == -1 || Rank((a + b)[j]) == -1 || Rank((a + b)[i]) <= Rank((a + b)[j]) {
      if i < |a| <= j { assert a[i] in a && b[j - |a|] in b; }
    }
  }

  lemma OneRank(ws: seq<Write>, rank: int)
    requires forall w | w in ws :: Rank(w) == -1 || Rank(w) == rank
    ensures Ranked(ws, rank, rank)
  {
    hide Rank;
    forall i, j | 0 <= i < j < |ws| ensures Rank(ws[i]) == -1 || Rank(ws[j]) == -1 || Rank(ws[i]) <= Rank(ws[j]) {
      assert ws[i] in ws && ws[j] in ws;
    }
  }

  lemma PartsAreRanked(p: Payload, id: string, vo: seq<Slot>, so: seq<Slot>)
    ensures Ranked(RegistryWrites(p.registry), 0, 0) && Ranked([ProjectWrite(id, p.spec)], 1, 1)
    ensures Ranked(VarsWrites(id, p.envVars, vo), 3, 3) && Ranked(SecretsWrites(id, p.secrets, so), 4, 4)
  {
    OneRank(RegistryWrites(p.registry), 0);
    OneRank([ProjectWrite(id, p.spec)], 1);
    OneRank(VarsWrites(id, p.envVars, vo), 3);
    assert "kubernetes.getvesta.sh/type"[24] != APP[24] && |PROJECT| == 30 && |"kubernetes.getvesta.sh/type"| == 27 && |SHARED| == 29;
    assert |ENVIRONMENT| == 34 && |APP| == 26;
    OneRank(SecretsWrites(id, p.secrets, so), 4);
    hide Ranked;
  }

  lemma AppLoopIsRanked(id: string, apps: seq<AppEntry>)
    ensures Ranked(AppWrites(id, apps), 2, 2)
  {
    forall w | w in AppWrites(id, apps) ensures Rank(w) == -1 || Rank(w) == 2 {
      AppWritesAre(id, apps, w);
      hide AppWrites, EnvNames;
    }
    hide AppWrites, EnvNames;
    OneRank(AppWrites(id, apps), 2);
  }

  lemma SharedWriteRank(id: string, es: seq<SharedEntry>, w: Write)
    requires IsSharedWrite(id, es, w)
    ensures Rank(w) == 5
  {
    assert |"kubernetes.getvesta.sh/type"| == 27 && |SHARED| == 29 && |PROJECT| == 30;
  }

  lemma SharedLoopIsRanked(id: string, es: seq<SharedEntry>)
    ensures Ranked(SharedWrites(id, es), 5, 5)
  {
    hide SharedWrites, IsSharedWrite;
    forall w | w in SharedWrites(id, es) ensures Rank(w) == -1 || Rank(w) == 5 {
      SharedWritesAre(id, es, w);
      if IsSharedWrite(id, es, w) { SharedWriteRank(id, es, w); }
    }
    OneRank(SharedWrites(id, es), 5);
  }

  lemma LoopsAreRanked(p: Payload, id: string)
    ensures Ranked(NamespaceWrites(id, EnvNames(p.spec)), 1, 1) && Ranked(AppWrites(id, p.apps), 2, 2)
    ensures Ranked(SharedWrites(id, p.shared), 5, 5)
  {
    OneRank(NamespaceWrites(id, EnvNames(p.spec)), 1);
    AppLoopIsRanked(id, p.apps);
    SharedLoopIsRanked(id, p.shared);
    hide Ranked, AppWrites, SharedWrites, EnvNames;
  }

  /** An import writes registry credentials first, then the project, its apps, their variables, their
      secrets, and shared secrets last. */
  lemma ImportGoesInOrder(p: Payload, id: string, vo: seq<Slot>, so: seq<Slot>)
    ensures Ranked(Schedule(p, id, vo, so), 0, 5)
  {
    PartsAreRanked(p, id, vo, so);
    LoopsAreRanked(p, id);
    ScheduleParts(p, id, vo, so);
    hide Ranked, Schedule, RegistryWrites, ProjectWrite, NamespaceWrites, AppWrites, VarsWrites, SecretsWrites, SharedWrites;
    var a := RegistryWrites(p.registry) + [ProjectWrite(id, p.spec)];
    WiderRank([ProjectWrite(id, p.spec)], 1, 1, 0, 1);
    RankedConcat(RegistryWrites(p.registry), [ProjectWrite(id, p.spec)], 0, 0, 1);
    RankedConcat(a, NamespaceWrites(id, EnvNames(p.spec)), 0, 1, 1);
    var b := a + NamespaceWrites(id, EnvNames(p.spec));
    WiderRank(AppWrites(id, p.apps), 2, 2, 1, 2);
    RankedConcat(b, AppWrites(id, p.apps), 0, 1, 2);
    var c := b + AppWrites(id, p.apps);
    WiderRank(VarsWrites(id, p.envVars, vo), 3, 3, 2, 3);
    RankedConcat(c, VarsWrites(id, p.envVars, vo), 0, 2, 3);
    var d := c + VarsWrites(id, p.envVars, vo);
    WiderRank(SecretsWrites(id, p.secrets, so), 4, 4, 3, 4);
    RankedConcat(d, SecretsWrites(id, p.secrets, so), 0, 3, 4);
    var e := d + SecretsWrites(id, p.secrets, so);
    WiderRank(SharedWrites(id, p.shared), 5, 5, 4, 5);
    RankedConcat(e, SharedWrites(id, p.shared), 0, 4, 5);
  }

  lemma WiderRank(ws: seq<Write>, low: int, high: int, low': int, high': int)
    requires Ranked(ws, low, high) && low' <= low && high <= high'
    ensures Ranked(ws, low', high')
  {
    hide Rank;
  }
}
