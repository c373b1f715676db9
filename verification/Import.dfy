/** How an import writes a project bundle into a cluster. */
module Import {
  import opened Json
  import opened Text
  import opened Cluster
  import opened Bundle
  import opened Export

  // ---------- The objects written ----------

  const MANAGED_BY := "app.kubernetes.io/managed-by"

  function SharedKey(id: string, name: string, env: string): Key
  {
    Key(VestaSecret, EnvNamespace(id, env), name)
  }

  function RegistryObject(r: RegistryEntry): Object
  {
    Object(map[TYPE := "registry"],
           map["type" := Text("kubernetes.io/dockerconfigjson"),
               "dockerConfig" := Dict(map["registry" := Text(r.registry), "username" := Text(r.username),
                                          "password" := Text(r.password)])])
  }

  function ProjectObject(spec: Fields): Object { Object(map[], spec) }

  function NamespaceObject(): Object { Object(map[MANAGED_BY := "vesta"], map[]) }

  function AppObject(id: string, spec: Fields): Object
  {
    Object(map[PROJECT := id], spec["project" := Text(id)])
  }

  function VarsObject(id: string, s: Slot, data: map<string, string>): Object
  {
    Object(map[MANAGED_BY := "vesta", PROJECT := id, APP := s.app, ENVIRONMENT := s.env], AnyMap(data))
  }

  function SecretsObject(id: string, s: Slot, data: map<string, string>): Object
  {
    Object(map[PROJECT := id, APP := s.app, ENVIRONMENT := s.env],
           map["type" := Text("Opaque"), "project" := Text(id), "app" := Text(s.app),
               "environment" := Text(s.env), "data" := Dict(AnyMap(data))])
  }

  function SharedObject(id: string, data: map<string, string>): Object
  {
    Object(map[PROJECT := id, SHARED := "true"],
           map["type" := Text("Opaque"), "project" := Text(id), "data" := Dict(AnyMap(data))])
  }

  // ---------- A run of writes ----------

  /** One write request. With ifAbsent it leaves an object that is already there alone;
      without, it fails on it. */
  datatype Write = Write(key: Key, o: Object, ifAbsent: bool)

  /** The counters an import reports that stand for objects. */
  datatype Added = Added(registrySecrets: nat, projects: nat, apps: nat)

  datatype Outcome = Outcome(store: Store, added: Added, failed: bool)

  predicate IsRegistry(k: Key, o: Object) { k.kind == VestaSecret && Label(o, TYPE) == "registry" }

  function Count(a: Added, w: Write): Added
  {
    if IsRegistry(w.key, w.o) then a.(registrySecrets := a.registrySecrets + 1)
    else if w.key.kind == VestaProject then a.(projects := a.projects + 1)
    else if w.key.kind == VestaApp then a.(apps := a.apps + 1)
    else a
  }

  function Perform(s: Outcome, w: Write): Outcome
  {
    if s.failed || (w.ifAbsent && w.key in s.store) then s
    else if w.key in s.store || !HasHome(s.store, w.key) then s.(failed := true)
    else Outcome(s.store[w.key := w.o], Count(s.added, w), false)
  }

  function RunFrom(s: Outcome, ws: seq<Write>): Outcome
  {
    if ws == [] then s else Perform(RunFrom(s, ws[..|ws| - 1]), ws[|ws| - 1])
  }

  function Run(store: Store, ws: seq<Write>): Outcome
  {
    RunFrom(Outcome(store, Added(0, 0, 0), false), ws)
  }

  lemma {:induction false} RunAppends(s: Outcome, a: seq<Write>, b: seq<Write>)
    ensures RunFrom(s, a + b) == RunFrom(RunFrom(s, a), b)
  {
    if b == [] {
      assert a + b == a;
    } else {
      RunAppends(s, a, b[..|b| - 1]);
      assert (a + b)[..|a + b| - 1] == a + b[..|b| - 1];
    }
  }

  lemma {:induction false} FailedRunStays(s: Outcome, ws: seq<Write>)
    requires s.failed
    ensures RunFrom(s, ws) == s
  {
    if ws != [] {
      FailedRunStays(s, ws[..|ws| - 1]);
    }
  }

  // ---------- What a project is written as ----------

  function RegistryWrites(rs: seq<RegistryEntry>): seq<Write>
  {
    seq(|rs|, i requires 0 <= i < |rs| => Write(RegistryKey(rs[i].name), RegistryObject(rs[i]), true))
  }

  function ProjectWrite(id: string, spec: Fields): Write
  {
    Write(ProjectKey(id), ProjectObject(spec), false)
  }

  function EnsureNamespace(id: string, env: string): Write
  {
    Write(NamespaceKey(EnvNamespace(id, env)), NamespaceObject(), true)
  }

  function NamespaceWrites(id: string, envs: seq<string>): seq<Write>
  {
    seq(|envs|, i requires 0 <= i < |envs| => EnsureNamespace(id, envs[i]))
  }

  function AppWrite(id: string, a: AppEntry): Write
  {
    Write(AppKey(a.name), AppObject(id, a.spec), false)
  }

  /** The object of one app, then the namespaces of its own environments. */
  function OneAppWrites(id: string, a: AppEntry): seq<Write>
  {
    [AppWrite(id, a)] + NamespaceWrites(id, EnvNames(a.spec["project" := Text(id)]))
  }

  function AppWrites(id: string, apps: seq<AppEntry>): seq<Write>
  {
    if apps == [] then [] else AppWrites(id, apps[..|apps| - 1]) + OneAppWrites(id, apps[|apps| - 1])
  }

  /** The data recorded for an app in one environment. */
  function DataAt(m: map<Slot, map<string, string>>, s: Slot): map<string, string>
  {
    if s in m then m[s] else map[]
  }

  function VarsWrite(id: string, vars: map<Slot, map<string, string>>, s: Slot): Write
  {
    Write(VarsKey(id, s), VarsObject(id, s, DataAt(vars, s)), false)
  }

  function VarsWrites(id: string, vars: map<Slot, map<string, string>>, order: seq<Slot>): seq<Write>
  {
    seq(|order|, i requires 0 <= i < |order| => VarsWrite(id, vars, order[i]))
  }

  function SecretsWrite(id: string, secrets: map<Slot, map<string, string>>, s: Slot): Write
  {
    Write(SecretsKey(id, s), SecretsObject(id, s, DataAt(secrets, s)), false)
  }

  function SecretsWrites(id: string, secrets: map<Slot, map<string, string>>, order: seq<Slot>): seq<Write>
  {
    seq(|order|, i requires 0 <= i < |order| => SecretsWrite(id, secrets, order[i]))
  }

  function SharedWrite(id: string, e: SharedEntry, env: string): Write
  {
    Write(SharedKey(id, e.name, env), SharedObject(id, e.data), false)
  }

  function OneSharedWrites(id: string, e: SharedEntry, envs: seq<string>): seq<Write>
  {
    if envs == [] then []
    else
      var env := envs[|envs| - 1];
      OneSharedWrites(id, e, envs[..|envs| - 1]) + [EnsureNamespace(id, env), SharedWrite(id, e, env)]
  }

  function SharedWrites(id: string, es: seq<SharedEntry>): seq<Write>
  {
    if es == [] then []
    else
      var e := es[|es| - 1];
      SharedWrites(id, es[..|es| - 1]) + OneSharedWrites(id, e, e.environments)
  }

  /** The keys of a map in the order a loop happens to visit them. */
  ghost predicate Visits(order: seq<Slot>, keys: set<Slot>)
  {
    NoRepeats(order) && forall s :: s in order <==> s in keys
  }

  /** All the writes of an import, in the order they are made. */
  function Schedule(p: Payload, id: string, varsOrder: seq<Slot>, secretsOrder: seq<Slot>): seq<Write>
  {
    RegistryWrites(p.registry) + [ProjectWrite(id, p.spec)] + NamespaceWrites(id, EnvNames(p.spec)) +
    AppWrites(id, p.apps) + VarsWrites(id, p.envVars, varsOrder) + SecretsWrites(id, p.secrets, secretsOrder) +
    SharedWrites(id, p.shared)
  }

  lemma ScheduleParts(p: Payload, id: string, vo: seq<Slot>, so: seq<Slot>)
    ensures Schedule(p, id, vo, so) ==
      RegistryWrites(p.registry) + [ProjectWrite(id, p.spec)] + NamespaceWrites(id, EnvNames(p.spec)) +
      AppWrites(id, p.apps) + VarsWrites(id, p.envVars, vo) + SecretsWrites(id, p.secrets, so) +
      SharedWrites(id, p.shared)
  {}

  // ---------- The handler ----------

  /** A call that was to make the writes ws from state s left state t: all of them, or up to
      the one that had to fail, or up to one the server did not serve. */
  ghost predicate Ran(s: Outcome, ws: seq<Write>, t: Outcome, error: Option<ApiError>)
  {
    match error
    case None => RunFrom(s, ws) == t && !t.failed
    case Some(Unavailable) => !t.failed && exists n: nat | n <= |ws| :: RunFrom(s, ws[..n]) == t
    case Some(_) => !t.failed && RunFrom(s, ws) == t.(failed := true)
  }

  /** With the server up, a call ends without error exactly when its writes all go through. */
  lemma RanEnds(s: Outcome, ws: seq<Write>, t: Outcome, error: Option<ApiError>)
    requires Ran(s, ws, t, error) && error != Some(Unavailable)
    ensures error == None <==> !RunFrom(s, ws).failed
    ensures error == None ==> t == RunFrom(s, ws)
  {}

  lemma RanThen(s: Outcome, a: seq<Write>, t: Outcome, b: seq<Write>, u: Outcome, error: Option<ApiError>)
    requires Ran(s, a, t, None) && Ran(t, b, u, error)
    ensures Ran(s, a + b, u, error)
  {
    RunAppends(s, a, b);
    if error == Some(Unavailable) {
      var n: nat :| n <= |b| && RunFrom(t, b[..n]) == u;
      RunAppends(s, a, b[..n]);
      assert (a + b)[..|a| + n] == a + b[..n];
    }
  }

  lemma RanStops(s: Outcome, a: seq<Write>, t: Outcome, b: seq<Write>, error: Option<ApiError>)
    requires Ran(s, a, t, error) && error.Some?
    ensures Ran(s, a + b, t, error)
  {
    if error == Some(Unavailable) {
      var n: nat :| n <= |a| && RunFrom(s, a[..n]) == t;
      assert (a + b)[..n] == a[..n];
    } else {
      RunAppends(s, a, b);
      FailedRunStays(RunFrom(s, a), b);
    }
  }

  lemma RanOne(s: Outcome, w: Write, t: Outcome, error: Option<ApiError>)
    requires !s.failed
    requires error == None ==> t == Perform(s, w) && !t.failed
    requires error.Some? ==> t == s
    requires error.Some? && error != Some(Unavailable) ==> Perform(s, w).failed
    ensures Ran(s, [w], t, error)
  {
    assert RunFrom(s, [w]) == Perform(s, w);
    if error == Some(Unavailable) {
      assert RunFrom(s, [w][..0]) == s;
    }
  }

  /** The state an import is in. */
  ghost function Now(server: ApiServer, added: Added): Outcome reads server { Outcome(server.objects, added, false) }

  /** Sends one write. With ifAbsent it asks for the object first. */
  method Send(server: ApiServer, w: Write, added: Added) returns (added': Added, error: Option<ApiError>)
    modifies server
    ensures Ran(old(Now(server, added)), [w], Now(server, added'), error)
  {
    ghost var s := Outcome(server.objects, added, false);
    added', error := added, None;
    if w.ifAbsent && w.key in server.objects {
      RanOne(s, w, s, None);
      return;
    }
    error := server.Create(w.key, w.o);
    if error == None {
      added' := Count(added, w);
    }
    RanOne(s, w, Outcome(server.objects, added', false), error);
  }

  lemma RanNothing(s: Outcome)
    requires !s.failed
    ensures Ran(s, [], s, None)
  {}

  /** One round of a loop that makes the writes ws: it goes on, or the whole loop stops here. */
  lemma RanRound(s: Outcome, ws: seq<Write>, i: nat, t: Outcome, u: Outcome, error: Option<ApiError>)
    requires i < |ws| && Ran(s, ws[..i], t, None) && Ran(t, [ws[i]], u, error)
    ensures if error == None then Ran(s, ws[..i + 1], u, None) else Ran(s, ws, u, error)
  {
    RanThen(s, ws[..i], t, [ws[i]], u, error);
    assert ws[..i + 1] == ws[..i] + [ws[i]];
    if error.Some? {
      RanStops(s, ws[..i + 1], u, ws[i + 1..], error);
      assert ws == ws[..i + 1] + ws[i + 1..];
    }
  }

  method ApplyRegistrySecrets(server: ApiServer, rs: seq<RegistryEntry>, added: Added)
    returns (added': Added, error: Option<ApiError>)
    modifies server
    ensures Ran(old(Now(server, added)), RegistryWrites(rs), Now(server, added'), error)
  {
    ghost var s, ws := Now(server, added), RegistryWrites(rs);
    added', error := added, None;
    hide Ran;
    RanNothing(s);
    for i := 0 to |rs|
      invariant error == None && Ran(s, ws[..i], Now(server, added'), None)
    {
      ghost var t := Now(server, added');
      added', error := Send(server, Write(RegistryKey(rs[i].name), RegistryObject(rs[i]), true), added');
      RanRound(s, ws, i, t, Now(server, added'), error);
      if error.Some? {
        return;
      }
    }
    assert ws[..|rs|] == ws;
  }

  method EnsureNamespaces(server: ApiServer, id: string, envs: seq<string>, added: Added)
    returns (added': Added, error: Option<ApiError>)
    modifies server
    ensures Ran(old(Now(server, added)), NamespaceWrites(id, envs), Now(server, added'), error)
  {
    ghost var s, ws := Now(server, added), NamespaceWrites(id, envs);
    added', error := added, None;
    hide Ran;
    RanNothing(s);
    for i := 0 to |envs|
      invariant error == None && Ran(s, ws[..i], Now(server, added'), None)
    {
      ghost var t := Now(server, added');
      added', error := Send(server, EnsureNamespace(id, envs[i]), added');
      RanRound(s, ws, i, t, Now(server, added'), error);
      if error.Some? {
        return;
      }
    }
    assert ws[..|envs|] == ws;
  }

  /** One app: its spec takes the project's name, and its own environments their namespaces. */
  method ApplyApp(server: ApiServer, id: string, a: AppEntry, added: Added)
    returns (added': Added, error: Option<ApiError>)
    modifies server
    ensures Ran(old(Now(server, added)), OneAppWrites(id, a), Now(server, added'), error)
  {
    ghost var s := Now(server, added);
    var spec := a.spec;
    spec := spec["project" := Text(id)];
    ghost var rest := NamespaceWrites(id, EnvNames(spec));
    added', error := Send(server, Write(AppKey(a.name), Object(map[PROJECT := id], spec), false), added);
    ghost var t := Now(server, added');
    if error.Some? {
      RanStops(s, [AppWrite(id, a)], t, rest, error);
      return;
    }
    var envs := SpecEnvironmentNames(spec);
    added', error := EnsureNamespaces(server, id, envs, added');
    RanThen(s, [AppWrite(id, a)], t, rest, Now(server, added'), error);
  }

  lemma AppWritesSplit(id: string, apps: seq<AppEntry>, i: nat)
    requires i < |apps|
    ensures AppWrites(id, apps[..i + 1]) == AppWrites(id, apps[..i]) + OneAppWrites(id, apps[i])
    ensures AppWrites(id, apps[..i]) <= AppWrites(id, apps)
    ensures AppWrites(id, apps[..i + 1]) <= AppWrites(id, apps)
    decreases |apps| - i
  {
    assert apps[..i + 1][..i] == apps[..i];
    if i + 1 < |apps| {
      AppWritesSplit(id, apps, i + 1);
    } else {
      assert apps[..i + 1] == apps;
    }
  }

  /** What was made of a longer list of writes when it stopped inside it. */
  lemma RanPrefix(s: Outcome, done: seq<Write>, ws: seq<Write>, t: Outcome, error: Option<ApiError>)
    requires done <= ws && Ran(s, done, t, error) && error.Some?
    ensures Ran(s, ws, t, error)
  {
    RanStops(s, done, t, ws[|done|..], error);
    assert ws == done + ws[|done|..];
  }

  method ApplyApps(server: ApiServer, id: string, apps: seq<AppEntry>, added: Added)
    returns (added': Added, error: Option<ApiError>)
    modifies server
    ensures Ran(old(Now(server, added)), AppWrites(id, apps), Now(server, added'), error)
  {
    ghost var s := Now(server, added);
    added', error := added, None;
    assert AppWrites(id, []) == [];
    hide Ran, AppWrites, OneAppWrites;
    RanNothing(s);
    for i := 0 to |apps|
      invariant error == None && Ran(s, AppWrites(id, apps[..i]), Now(server, added'), None)
    {
      ghost var t := Now(server, added');
      added', error := ApplyApp(server, id, apps[i], added');
      AppWritesSplit(id, apps, i);
      RanThen(s, AppWrites(id, apps[..i]), t, OneAppWrites(id, apps[i]), Now(server, added'), error);
      if error.Some? {
        RanPrefix(s, AppWrites(id, apps[..i + 1]), AppWrites(id, apps), Now(server, added'), error);
        return;
      }
    }
    assert apps[..|apps|] == apps;
  }

  /** The two loops over the configuration of the apps; order is how the maps are visited. */
  method ApplyConfig(server: ApiServer, id: string, p: Payload, varsOrder: seq<Slot>, secretsOrder: seq<Slot>, added: Added)
    returns (added': Added, error: Option<ApiError>)
    modifies server
    ensures Ran(old(Now(server, added)), VarsWrites(id, p.envVars, varsOrder) + SecretsWrites(id, p.secrets, secretsOrder),
                Now(server, added'), error)
  {
    ghost var s, vars, secrets :=
      Now(server, added), VarsWrites(id, p.envVars, varsOrder), SecretsWrites(id, p.secrets, secretsOrder);
    added', error := added, None;
    hide Ran, VarsObject, SecretsObject;
    RanNothing(s);
    for i := 0 to |varsOrder|
      invariant error == None && Ran(s, vars[..i], Now(server, added'), None)
    {
      ghost var t := Now(server, added');
      var slot := varsOrder[i];
      added', error := Send(server, Write(VarsKey(id, slot), VarsObject(id, slot, DataAt(p.envVars, slot)), false), added');
      RanRound(s, vars, i, t, Now(server, added'), error);
      if error.Some? {
        RanStops(s, vars, Now(server, added'), secrets, error);
        return;
      }
    }
    assert vars[..|varsOrder|] == vars;
    ghost var middle := Now(server, added');
    RanNothing(middle);
    for i := 0 to |secretsOrder|
      invariant error == None && Ran(middle, secrets[..i], Now(server, added'), None)
    {
      ghost var t := Now(server, added');
      var slot := secretsOrder[i];
      added', error := Send(server, Write(SecretsKey(id, slot), SecretsObject(id, slot, DataAt(p.secrets, slot)), false), added');
      RanRound(middle, secrets, i, t, Now(server, added'), error);
      if error.Some? {
        RanThen(s, vars, middle, secrets, Now(server, added'), error);
        return;
      }
    }
    assert secrets[..|secretsOrder|] == secrets;
    RanThen(s, vars, middle, secrets, Now(server, added'), error);
  }

  lemma OneSharedSplit(id: string, e: SharedEntry, envs: seq<string>, i: nat)
    requires i < |envs|
    ensures OneSharedWrites(id, e, envs[..i + 1]) ==
      OneSharedWrites(id, e, envs[..i]) + [EnsureNamespace(id, envs[i]), SharedWrite(id, e, envs[i])]
    ensures OneSharedWrites(id, e, envs[..i + 1]) <= OneSharedWrites(id, e, envs)
    decreases |envs| - i
  {
    assert envs[..i + 1][..i] == envs[..i];
    if i + 1 < |envs| {
      OneSharedSplit(id, e, envs, i + 1);
    } else {
      assert envs[..i + 1] == envs;
    }
  }

  /** One shared secret in one environment, its namespace first. */
  method ApplySharedIn(server: ApiServer, id: string, e: SharedEntry, env: string, added: Added)
    returns (added': Added, error: Option<ApiError>)
    modifies server
    ensures Ran(old(Now(server, added)), [EnsureNamespace(id, env), SharedWrite(id, e, env)], Now(server, added'), error)
  {
    ghost var s, a, b := Now(server, added), [EnsureNamespace(id, env)], [SharedWrite(id, e, env)];
    assert a + b == [EnsureNamespace(id, env), SharedWrite(id, e, env)];
    hide Ran;
    added', error := Send(server, EnsureNamespace(id, env), added);
    ghost var t := Now(server, added');
    if error.Some? {
      RanStops(s, a, t, b, error);
      return;
    }
    added', error := Send(server, Write(SharedKey(id, e.name, env), SharedObject(id, e.data), false), added');
    RanThen(s, a, t, b, Now(server, added'), error);
  }

  /** One shared secret, fanned out over its environments. */
  method ApplySharedSecret(server: ApiServer, id: string, e: SharedEntry, added: Added)
    returns (added': Added, error: Option<ApiError>)
    modifies server
    ensures Ran(old(Now(server, added)), OneSharedWrites(id, e, e.environments), Now(server, added'), error)
  {
    ghost var s, envs := Now(server, added), e.environments;
    added', error := added, None;
    assert OneSharedWrites(id, e, []) == [];
    hide Ran, OneSharedWrites;
    RanNothing(s);
    for i := 0 to |e.environments|
      invariant error == None && Ran(s, OneSharedWrites(id, e, envs[..i]), Now(server, added'), None)
    {
      ghost var t := Now(server, added');
      var env := e.environments[i];
      added', error := ApplySharedIn(server, id, e, env, added');
      OneSharedSplit(id, e, envs, i);
      RanThen(s, OneSharedWrites(id, e, envs[..i]), t, [EnsureNamespace(id, env), SharedWrite(id, e, env)],
              Now(server, added'), error);
      if error.Some? {
        RanPrefix(s, OneSharedWrites(id, e, envs[..i + 1]), OneSharedWrites(id, e, envs), Now(server, added'), error);
        return;
      }
    }
    assert envs[..|envs|] == envs;
  }

  lemma SharedWritesSplit(id: string, es: seq<SharedEntry>, i: nat)
    requires i < |es|
    ensures SharedWrites(id, es[..i + 1]) == SharedWrites(id, es[..i]) + OneSharedWrites(id, es[i], es[i].environments)
    ensures SharedWrites(id, es[..i + 1]) <= SharedWrites(id, es)
    decreases |es| - i
  {
    assert es[..i + 1][..i] == es[..i];
    if i + 1 < |es| {
      SharedWritesSplit(id, es, i + 1);
    } else {
      assert es[..i + 1] == es;
    }
  }

  method ApplySharedSecrets(server: ApiServer, id: string, es: seq<SharedEntry>, added: Added)
    returns (added': Added, error: Option<ApiError>)
    modifies server
    ensures Ran(old(Now(server, added)), SharedWrites(id, es), Now(server, added'), error)
  {
    ghost var s := Now(server, added);
    added', error := added, None;
    assert SharedWrites(id, []) == [];
    hide Ran, SharedWrites, OneSharedWrites;
    RanNothing(s);
    for i := 0 to |es|
      invariant error == None && Ran(s, SharedWrites(id, es[..i]), Now(server, added'), None)
    {
      ghost var t := Now(server, added');
      added', error := ApplySharedSecret(server, id, es[i], added');
      SharedWritesSplit(id, es, i);
      RanThen(s, SharedWrites(id, es[..i]), t, OneSharedWrites(id, es[i], es[i].environments), Now(server, added'), error);
      if error.Some? {
        RanPrefix(s, SharedWrites(id, es[..i + 1]), SharedWrites(id, es), Now(server, added'), error);
        return;
      }
    }
    assert es[..|es|] == es;
  }

  /** A loop over a map visits its keys in some order. */
  method AnyOrder(keys: set<Slot>) returns (order: seq<Slot>)
    ensures Visits(order, keys)
  {
    order := [];
    var rest := keys;
    while rest != {}
      invariant rest <= keys && NoRepeats(order)
      invariant forall s :: s in order <==> s in keys && s !in rest
      decreases rest
    {
      var s :| s in rest;
      order, rest := order + [s], rest - {s};
    }
  }

  /** Two phases one after the other, the second only when the first went through. */
  lemma RanPhases(s: Outcome, a: seq<Write>, t: Outcome, b: seq<Write>, u: Outcome, error: Option<ApiError>, later: Option<ApiError>)
    requires Ran(s, a, t, error)
    requires if error == None then Ran(t, b, u, later) else u == t && later == error
    ensures Ran(s, a + b, u, later)
  {
    if error == None {
      RanThen(s, a, t, b, u, later);
    } else {
      RanStops(s, a, t, b, error);
    }
  }

  /** applyPayload: registry credentials, the project, its namespaces, the apps with theirs,
      the configuration of each app and environment, and the shared secrets. */
  method ApplyPayload(server: ApiServer, p: Payload, id: string)
    returns (created: Added, error: Option<ApiError>, varsOrder: seq<Slot>, secretsOrder: seq<Slot>)
    modifies server
    ensures Visits(varsOrder, p.envVars.Keys) && Visits(secretsOrder, p.secrets.Keys)
    ensures Ran(old(Now(server, Added(0, 0, 0))), Schedule(p, id, varsOrder, secretsOrder), Now(server, created), error)
  {
    varsOrder := AnyOrder(p.envVars.Keys);
    secretsOrder := AnyOrder(p.secrets.Keys);
    hide *;
    ghost var s := Now(server, Added(0, 0, 0));
    created, error := ApplyRegistrySecrets(server, p.registry, Added(0, 0, 0));
    ghost var a, t := RegistryWrites(p.registry), Now(server, created);
    ghost var first := error;
    if error == None {
      created, error := Send(server, ProjectWrite(id, p.spec), created);
    }
    RanPhases(s, a, t, [ProjectWrite(id, p.spec)], Now(server, created), first, error);
    a, t, first := a + [ProjectWrite(id, p.spec)], Now(server, created), error;
    if error == None {
      var envs := SpecEnvironmentNames(p.spec);
      created, error := EnsureNamespaces(server, id, envs, created);
    }
    RanPhases(s, a, t, NamespaceWrites(id, EnvNames(p.spec)), Now(server, created), first, error);
    a, t, first := a + NamespaceWrites(id, EnvNames(p.spec)), Now(server, created), error;
    if error == None {
      created, error := ApplyApps(server, id, p.apps, created);
    }
    RanPhases(s, a, t, AppWrites(id, p.apps), Now(server, created), first, error);
    a, t, first := a + AppWrites(id, p.apps), Now(server, created), error;
    ghost var config := VarsWrites(id, p.envVars, varsOrder) + SecretsWrites(id, p.secrets, secretsOrder);
    if error == None {
      created, error := ApplyConfig(server, id, p, varsOrder, secretsOrder, created);
    }
    RanPhases(s, a, t, config, Now(server, created), first, error);
    a, t, first := a + config, Now(server, created), error;
    if error == None {
      created, error := ApplySharedSecrets(server, id, p.shared, created);
    }
    RanPhases(s, a, t, SharedWrites(id, p.shared), Now(server, created), first, error);
    ScheduleParts(p, id, varsOrder, secretsOrder);
    assert a + SharedWrites(id, p.shared) == Schedule(p, id, varsOrder, secretsOrder);
  }

  // ---------- Import only adds ----------

  /** Whatever a run writes, and wherever it stops, every earlier object is as it was. */
  lemma {:induction false} RunOnlyAdds(s: Outcome, ws: seq<Write>)
    ensures forall k | k in s.store :: k in RunFrom(s, ws).store && RunFrom(s, ws).store[k] == s.store[k]
  {
    if ws != [] {
      RunOnlyAdds(s, ws[..|ws| - 1]);
    }
  }

  datatype Counted = Registry | Project | App

  predicate Counts(c: Counted, k: Key, o: Object)
  {
    match c
    case Registry => IsRegistry(k, o)
    case Project => k.kind == VestaProject
    case App => k.kind == VestaApp
  }

  function Counter(c: Counted, a: Added): nat
  {
    match c
    case Registry => a.registrySecrets
    case Project => a.projects
    case App => a.apps
  }

  ghost function New(c: Counted, before: Store, now: Store): set<Key>
  {
    set k | k in now && k !in before && Counts(c, k, now[k])
  }

  lemma NewGrows(c: Counted, before: Store, s: Outcome, w: Write)
    requires w.key !in s.store && w.key !in before
    ensures New(c, before, s.store[w.key := w.o]) ==
            New(c, before, s.store) + if Counts(c, w.key, w.o) then {w.key} else {}
    ensures w.key !in New(c, before, s.store)
    ensures Counter(c, Count(s.added, w)) == Counter(c, s.added) + if Counts(c, w.key, w.o) then 1 else 0
  {}

  /** Each counter is the number of objects of its kind the run added. */
  lemma {:induction false} RunCounts(c: Counted, before: Store, ws: seq<Write>)
    ensures |New(c, before, Run(before, ws).store)| == Counter(c, Run(before, ws).added)
  {
    var start := Outcome(before, Added(0, 0, 0), false);
    if ws == [] {
      assert New(c, before, before) == {};
    } else {
      var front, w := ws[..|ws| - 1], ws[|ws| - 1];
      RunCounts(c, before, front);
      RunOnlyAdds(start, front);
      var s := Run(before, front);
      if w.key !in s.store {
        NewGrows(c, before, s, w);
      }
    }
  }

  /** At every return of an import, failed or not: earlier objects are unchanged and the
      registrySecrets, projects and apps it reports are the objects of that kind it added. */
  lemma ImportOnlyAdds(before: Store, ws: seq<Write>, after: Store, created: Added, error: Option<ApiError>)
    requires Ran(Outcome(before, Added(0, 0, 0), false), ws, Outcome(after, created, false), error)
    ensures forall k | k in before :: k in after && after[k] == before[k]
    ensures forall c :: |New(c, before, after)| == Counter(c, created)
  {
    var done := ws;
    if error == Some(Unavailable) {
      var n: nat :| n <= |ws| &&
        RunFrom(Outcome(before, Added(0, 0, 0), false), ws[..n]) == Outcome(after, created, false);
      done := ws[..n];
    }
    RunOnlyAdds(Outcome(before, Added(0, 0, 0), false), done);
    forall c ensures |New(c, before, after)| == Counter(c, created) {
      RunCounts(c, before, done);
    }
  }
}
