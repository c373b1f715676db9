/** What makes a Deployment roll out again: the secrets and config maps that feed an app, the
    bytes hashed for its pods, and which apps a changed object wakes. */
module Rollout {
  import opened Text

  /** A VestaApp, by the names of the secrets it binds; "" for a binding without a reference. */
  datatype App = App(namespace: string, name: string, project: string, bound: seq<string>)

  datatype Source = Source(isSecret: bool, namespace: string, name: string)

  // ---------- The sources of an app in one environment ----------

  function TargetNamespace(project: string, env: string): string { project + "-" + env }

  function BoundSources(ns: string, bound: seq<string>): seq<Source>
  {
    if bound == [] then []
    else
      var front, n := BoundSources(ns, bound[..|bound| - 1]), bound[|bound| - 1];
      if n == "" then front else front + [Source(true, ns, n)]
  }

  /** In the order the operator looks them up. */
  function Sources(a: App, env: string): seq<Source>
  {
    var ns := TargetNamespace(a.project, env);
    [Source(true, ns, a.name + "-secrets")] + BoundSources(ns, a.bound) + [Source(false, ns, a.name + "-envvars")]
  }

  lemma {:induction false} BoundSourcesAre(ns: string, bound: seq<string>, s: Source)
    ensures s in BoundSources(ns, bound) <==> s.isSecret && s.namespace == ns && s.name != "" && s.name in bound
  {
    if bound != [] {
      BoundSourcesAre(ns, bound[..|bound| - 1], s);
      assert bound == bound[..|bound| - 1] + [bound[|bound| - 1]];
    }
  }

  /** An object feeds an app's pods in an environment: the secret or the config map named after the
      app, or a secret it binds, in the namespace of the project and the environment. */
  predicate Feeds(s: Source, a: App, env: string)
  {
    s.namespace == a.project + "-" + env &&
    if s.isSecret then s.name == a.name + "-secrets" || (s.name != "" && s.name in a.bound)
    else s.name == a.name + "-envvars"
  }

  lemma SourcesAreWhatFeeds(a: App, env: string, s: Source)
    ensures s in Sources(a, env) <==> Feeds(s, a, env)
  {
    BoundSourcesAre(TargetNamespace(a.project, env), a.bound, s);
  }

  function Part(s: Source, version: string): string
  {
    (if s.isSecret then "secret/" else "configmap/") + s.name + "=" + version
  }

  /** The fingerprint parts of those that exist, with their resource versions. */
  function Parts(sources: seq<Source>, versions: map<Source, string>): seq<string>
  {
    if sources == [] then []
    else
      var front, s := Parts(sources[..|sources| - 1], versions), sources[|sources| - 1];
      if s in versions then front + [Part(s, versions[s])] else front
  }

  lemma {:induction false} PartsOf(sources: seq<Source>, versions: map<Source, string>, p: string)
    ensures p in Parts(sources, versions) <==> exists s | s in sources && s in versions :: p == Part(s, versions[s])
  {
    if sources != [] {
      var front, s := sources[..|sources| - 1], sources[|sources| - 1];
      PartsOf(front, versions, p);
      assert sources == front + [s];
      hide Part;
    }
  }

  /** The parts are those of the objects that feed the pods and exist: kind, name and resource version. */
  lemma PartsAreOfWhatFeeds(a: App, env: string, versions: map<Source, string>, p: string)
    ensures p in Parts(Sources(a, env), versions) <==>
      exists s | s in versions :: Feeds(s, a, env) &&
        p == (if s.isSecret then "secret/" else "configmap/") + s.name + "=" + versions[s]
  {
    PartsOf(Sources(a, env), versions, p);
    forall s | s in versions ensures s in Sources(a, env) <==> Feeds(s, a, env) { SourcesAreWhatFeeds(a, env, s); }
    if s :| s in versions && Feeds(s, a, env) && p == (if s.isSecret then "secret/" else "configmap/") + s.name + "=" + versions[s] {
      assert p == Part(s, versions[s]);
    }
    hide Feeds, Sources, Parts;
  }

  lemma PartsAppend(sources: seq<Source>, s: Source, versions: map<Source, string>)
    ensures Parts(sources + [s], versions) == Parts(sources, versions) + if s in versions then [Part(s, versions[s])] else []
  {
    assert (sources + [s])[..|sources|] == sources;
  }

  lemma BoundAppend(ns: string, bound: seq<string>, n: string)
    ensures BoundSources(ns, bound + [n]) == BoundSources(ns, bound) + if n == "" then [] else [Source(true, ns, n)]
  {
    assert (bound + [n])[..|bound|] == bound;
  }

  method FingerprintParts(a: App, env: string, versions: map<Source, string>) returns (parts: seq<string>)
    ensures parts == Parts(Sources(a, env), versions)
  {
    var ns := TargetNamespace(a.project, env);
    parts := [];
    var own := Source(true, ns, a.name + "-secrets");
    ghost var done: seq<Source> := [];
    PartsAppend(done, own, versions);
    assert Parts(done, versions) == [] && done + [own] == [own] && a.bound[..0] == [];
    hide Parts, Part;
    if own in versions {
      parts := parts + [Part(own, versions[own])];
    }
    done := done + [own];
    for i := 0 to |a.bound|
      invariant done == [own] + BoundSources(ns, a.bound[..i]) && parts == Parts(done, versions)
    {
      var n := a.bound[i];
      assert a.bound[..i + 1] == a.bound[..i] + [n];
      BoundAppend(ns, a.bound[..i], n);
      if n == "" {
        continue;
      }
      var s := Source(true, ns, n);
      PartsAppend(done, s, versions);
      done := done + [s];
      if s in versions {
        parts := parts + [Part(s, versions[s])];
      }
    }
    assert a.bound[..|a.bound|] == a.bound;
    var vars := Source(false, ns, a.name + "-envvars");
    PartsAppend(done, vars, versions);
    if vars in versions {
      parts := parts + [Part(vars, versions[vars])];
    }
  }

  // ---------- The bytes hashed ----------

  const NUL := 0 as char

  function WithNuls(parts: seq<string>): string
  {
    if parts == [] then "" else [NUL] + parts[0] + WithNuls(parts[1..])
  }

  /** The encoded pod spec, then each part in order behind a zero byte. */
  function HashInput(spec: string, parts: seq<string>): string { spec + WithNuls(SortStrings(parts)) }

  lemma {:induction false} WithNulsAppends(parts: seq<string>, p: string)
    ensures WithNuls(parts + [p]) == WithNuls(parts) + ([NUL] + p)
  {
    if parts == [] {
      assert WithNuls([p]) == [NUL] + p + WithNuls([p][1..]);
    } else {
      assert (parts + [p])[1..] == parts[1..] + [p] && (parts + [p])[0] == parts[0];
      WithNulsAppends(parts[1..], p);
    }
  }

  method RolloutHashInput(spec: string, fingerprintParts: seq<string>) returns (bytes: string)
    ensures bytes == HashInput(spec, fingerprintParts)
  {
    bytes := spec;
    var parts := SortStrings(fingerprintParts);
    hide SortStrings, WithNuls;
    assert WithNuls([]) == "" by { NoNuls(); }
    for i := 0 to |parts|
      invariant bytes == spec + WithNuls(parts[..i])
    {
      WithNulsAppends(parts[..i], parts[i]);
      assert parts[..i + 1] == parts[..i] + [parts[i]];
      bytes := bytes + [NUL];
      bytes := bytes + parts[i];
    }
    assert parts[..|parts|] == parts;
  }

  lemma NoNuls()
    ensures WithNuls([]) == ""
  {}

  /** The length of what stands before the first mark. */
  function Before(s: string, mark: char): nat
  {
    if s == "" || s[0] == mark then 0 else 1 + Before(s[1..], mark)
  }

  lemma {:induction false} BeforeIsLength(a: string, rest: string, mark: char)
    requires mark !in a && (rest != "" ==> rest[0] == mark)
    ensures Before(a + rest, mark) == |a|
  {
    if a == "" {
      assert a + rest == rest;
    } else {
      assert (a + rest)[0] == a[0] && (a + rest)[1..] == a[1..] + rest;
      BeforeIsLength(a[1..], rest, mark);
    }
  }

  /** What stands before the first mark is read back. */
  lemma MarkSeparates(a: string, rest: string, b: string, more: string, mark: char)
    requires mark !in a && mark !in b && a + rest == b + more
    requires (rest != "" ==> rest[0] == mark) && (more != "" ==> more[0] == mark)
    ensures a == b && rest == more
  {
    BeforeIsLength(a, rest, mark);
    BeforeIsLength(b, more, mark);
    assert a == (a + rest)[..|a|] && b == (b + more)[..|b|];
    assert rest == (a + rest)[|a|..] && more == (b + more)[|b|..];
  }

  lemma {:induction false} WithNulsInjective(a: seq<string>, b: seq<string>)
    requires (forall p | p in a :: NUL !in p) && (forall p | p in b :: NUL !in p)
    requires WithNuls(a) == WithNuls(b)
    ensures a == b
  {
    if a != [] && b != [] {
      assert WithNuls(a)[1..] == a[0] + WithNuls(a[1..]) && WithNuls(b)[1..] == b[0] + WithNuls(b[1..]);
      MarkSeparates(a[0], WithNuls(a[1..]), b[0], WithNuls(b[1..]), NUL);
      WithNulsInjective(a[1..], b[1..]);
      assert a == [a[0]] + a[1..] && b == [b[0]] + b[1..];
    }
  }

  lemma SortedPartsArePlain(parts: seq<string>)
    requires forall p | p in parts :: NUL !in p
    ensures forall p | p in SortStrings(parts) :: NUL !in p
  {
    SortStringsSorts(parts);
    forall p | p in SortStrings(parts) ensures NUL !in p {
      assert p in multiset(parts);
    }
  }

  /** The bytes hashed are the same exactly when the pod spec and the parts are, whatever order
      the parts come in. */
  lemma HashInputIsExact(spec: string, parts: seq<string>, spec': string, parts': seq<string>)
    requires NUL !in spec && NUL !in spec'
    requires (forall p | p in parts :: NUL !in p) && (forall p | p in parts' :: NUL !in p)
    ensures HashInput(spec, parts) == HashInput(spec', parts') <==> spec == spec' && multiset(parts) == multiset(parts')
  {
    SortForgetsOrder(parts, parts');
    if HashInput(spec, parts) == HashInput(spec', parts') {
      MarkSeparates(spec, WithNuls(SortStrings(parts)), spec', WithNuls(SortStrings(parts')), NUL);
      SortedPartsArePlain(parts);
      SortedPartsArePlain(parts');
      WithNulsInjective(SortStrings(parts), SortStrings(parts'));
    }
  }

  // ---------- A changed source changes the hash ----------

  lemma {:induction false} ChangeRemovesParts(sources: seq<Source>, versions: map<Source, string>, s: Source, v: string)
    requires s in versions && versions[s] != v
    ensures multiset(Parts(sources, versions))[Part(s, versions[s])] ==
      multiset(Parts(sources, versions[s := v]))[Part(s, versions[s])] + multiset(sources)[s]
  {
    if sources != [] {
      var front, t := sources[..|sources| - 1], sources[|sources| - 1];
      ChangeRemovesParts(front, versions, s, v);
      assert sources == front + [t];
      assert Part(s, v) != Part(s, versions[s]) by { PartTellsVersion(s, v, versions[s]); }
      hide Part;
    }
  }

  lemma PartTellsVersion(s: Source, v: string, w: string)
    ensures Part(s, v) == Part(s, w) <==> v == w
  {
    var n := |(if s.isSecret then "secret/" else "configmap/") + s.name + "="|;
    assert Part(s, v)[n..] == v && Part(s, w)[n..] == w;
  }

  ghost predicate PlainParts(sources: seq<Source>, versions: map<Source, string>)
  {
    forall p | p in Parts(sources, versions) :: NUL !in p
  }

  /** An update of any object that feeds an app's pods changes the bytes hashed for them. */
  lemma UpdatedSourceChangesHash(a: App, env: string, spec: string, versions: map<Source, string>, s: Source, v: string)
    requires Feeds(s, a, env) && s in versions && versions[s] != v && NUL !in spec
    requires PlainParts(Sources(a, env), versions) && PlainParts(Sources(a, env), versions[s := v])
    ensures HashInput(spec, Parts(Sources(a, env), versions)) != HashInput(spec, Parts(Sources(a, env), versions[s := v]))
  {
    var sources := Sources(a, env);
    SourcesAreWhatFeeds(a, env, s);
    ChangeRemovesParts(sources, versions, s, v);
    assert multiset(sources)[s] > 0;
    hide Sources, Feeds, Parts, Part, HashInput;
    HashInputIsExact(spec, Parts(sources, versions), spec, Parts(sources, versions[s := v]));
  }

  // ---------- Which apps an object wakes ----------

  /** The project a namespace is of: what stands before its last '-'. */
  function ProjectOf(ns: string): string
  {
    var dash := LastIndex(ns, '-');
    if dash <= 0 then "" else ns[..dash]
  }

  function AutoApp(name: string): string
  {
    if HasSuffix(name, "-secrets") then name[..|name| - 8]
    else if HasSuffix(name, "-envvars") then name[..|name| - 8]
    else ""
  }

  predicate Wakes(s: Source, a: App)
  {
    ProjectOf(s.namespace) != "" && a.project == ProjectOf(s.namespace) &&
    ((AutoApp(s.name) != "" && a.name == AutoApp(s.name)) || (s.isSecret && exists n | n in a.bound :: n == s.name && n != ""))
  }

  datatype Request = Request(namespace: string, name: string)

  function RequestFor(a: App): Request { Request(a.namespace, a.name) }

  /** The key by which a request is not made twice. */
  function SeenKey(r: Request): string { r.namespace + "/" + r.name }

  lemma SeenKeyInjective(r: Request, q: Request)
    requires '/' !in r.namespace && '/' !in q.namespace
    ensures SeenKey(r) == SeenKey(q) <==> r == q
  {
    if SeenKey(r) == SeenKey(q) {
      assert r.namespace + ("/" + r.name) == SeenKey(r) && q.namespace + ("/" + q.name) == SeenKey(q);
      MarkSeparates(r.namespace, "/" + r.name, q.namespace, "/" + q.name, '/');
      assert ("/" + r.name)[1..] == r.name && ("/" + q.name)[1..] == q.name;
    }
  }

  ghost predicate Woken(requests: seq<Request>, s: Source, apps: seq<App>)
  {
    NoRepeats(requests) && forall r :: r in requests <==> exists a | a in apps :: Wakes(s, a) && r == RequestFor(a)
  }

  /** A request names the app it wakes. */
  lemma WokenAreNamed(requests: seq<Request>, s: Source, apps: seq<App>, namespace: string, name: string)
    requires Woken(requests, s, apps)
    ensures Request(namespace, name) in requests <==>
      exists a | a in apps :: Wakes(s, a) && a.namespace == namespace && a.name == name
  {
    hide Wakes;
    if a :| a in apps && Wakes(s, a) && a.namespace == namespace && a.name == name {
      assert RequestFor(a) == Request(namespace, name);
    }
  }

  lemma WokenExtends(requests: seq<Request>, s: Source, apps: seq<App>, a: App)
    requires Woken(requests, s, apps)
    ensures Woken(if Wakes(s, a) && RequestFor(a) !in requests then requests + [RequestFor(a)] else requests, s, apps + [a])
  {
    hide Wakes;
    assert a in apps + [a] && forall b | b in apps + [a] :: b in apps || b == a;
    assert forall b | b in apps :: b in apps + [a];
  }

  /** Names of Kubernetes objects hold no '/'. */
  ghost predicate ProperNames(apps: seq<App>) { forall a | a in apps :: '/' !in a.namespace }

  method MapEnvFromSourceToApps(s: Source, apps: seq<App>) returns (requests: seq<Request>)
    requires s.name != "" && ProperNames(apps)
    ensures Woken(requests, s, apps)
  {
    requests := [];
    var dash := LastIndex(s.namespace, '-');
    if dash <= 0 {
      assert ProjectOf(s.namespace) == "";
      return;
    }
    var project := s.namespace[..dash];
    var autoApp := AutoApp(s.name);
    var seen: set<string> := {};
    assert Woken(requests, s, []);
    hide Woken, AutoApp, NoRepeats;
    for i := 0 to |apps|
      invariant Woken(requests, s, apps[..i])
      invariant forall r | r in requests :: '/' !in r.namespace
      invariant forall r: Request | '/' !in r.namespace :: SeenKey(r) in seen <==> r in requests
    {
      var a := apps[i];
      assert a in apps && apps[..i + 1] == apps[..i] + [a];
      WokenExtends(requests, s, apps[..i], a);
      if a.project != project {
        continue;
      }
      var wakes := (autoApp != "" && a.name == autoApp) || (s.isSecret && s.name in a.bound);
      assert wakes == Wakes(s, a);
      forall r: Request | '/' !in r.namespace ensures SeenKey(r) == SeenKey(RequestFor(a)) <==> r == RequestFor(a) {
        SeenKeyInjective(r, RequestFor(a));
      }
      if wakes && SeenKey(RequestFor(a)) !in seen {
        seen := seen + {SeenKey(RequestFor(a))};
        requests := requests + [RequestFor(a)];
      }
    }
    assert apps[..|apps|] == apps;
  }

  lemma NamespaceTellsProject(project: string, env: string)
    requires project != ""
    ensures ProjectOf(TargetNamespace(project, env)) == project <==> '-' !in env
  {
    LastIndexSplits(project, '-', env);
    var ns := TargetNamespace(project, env);
    LastIndexIsLast(ns, '-', |project|);
    assert ns[..|project|] == project;
  }

  lemma AutoAppOfOwn(name: string)
    ensures AutoApp(name + "-secrets") == name && AutoApp(name + "-envvars") == name
  {
    var a, b := name + "-secrets", name + "-envvars";
    assert a[|name|..] == "-secrets" && a[..|name|] == name && b[|name|..] == "-envvars" && b[..|name|] == name;
    assert "-envvars"[1] != "-secrets"[1];
  }

  /** An object that feeds an app's pods in an environment wakes the app, exactly when the app
      has a project and the environment's name holds no '-'. */
  lemma SourceWakesItsApp(a: App, env: string, s: Source)
    requires a.name != "" && Feeds(s, a, env)
    ensures Wakes(s, a) <==> a.project != "" && '-' !in env
  {
    if a.project != "" { NamespaceTellsProject(a.project, env); }
    AutoAppOfOwn(a.name);
    hide AutoApp, ProjectOf;
    assert s.namespace == TargetNamespace(a.project, env);
  }

  lemma AutoAppIs(name: string, app: string)
    requires app != ""
    ensures AutoApp(name) == app <==> name == app + "-secrets" || name == app + "-envvars"
  {
    AutoAppOfOwn(app);
    if HasSuffix(name, "-secrets") {
      assert name == name[..|name| - 8] + "-secrets";
    } else if HasSuffix(name, "-envvars") {
      assert name == name[..|name| - 8] + "-envvars";
    }
  }

  /** Which objects wake an app, told by their names: those in a namespace of its project whose
      environment holds no '-', that are named after it, whether secret or config map, or are a
      secret it binds. */
  lemma WakesExactly(s: Source, a: App)
    requires a.name != ""
    ensures Wakes(s, a) <==>
      a.project != "" && (exists env: string :: '-' !in env && s.namespace == a.project + "-" + env) &&
      (s.name == a.name + "-secrets" || s.name == a.name + "-envvars" || (s.isSecret && s.name != "" && s.name in a.bound))
  {
    AutoAppIs(s.name, a.name);
    hide AutoApp;
    if env: string :| '-' !in env && s.namespace == a.project + "-" + env && a.project != "" {
      NamespaceTellsProject(a.project, env);
      assert s.namespace == TargetNamespace(a.project, env);
    }
    if a.project != "" && ProjectOf(s.namespace) == a.project {
      var dash := LastIndex(s.namespace, '-');
      var env := s.namespace[dash + 1..];
      assert s.namespace == a.project + "-" + env;
      NamespaceTellsProject(a.project, env);
      assert TargetNamespace(a.project, env) == s.namespace;
    }
  }
}
