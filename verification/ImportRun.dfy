/** When a run of writes succeeds, what it stores, and which writes an import makes. */
module ImportRun {
  import opened Json
  import opened Text
  import opened Cluster
  import opened Bundle
  import opened Export
  import opened Import

  // ---------- When a run of writes succeeds ----------

  ghost function KeysOf(ws: seq<Write>): set<Key> { set w | w in ws :: w.key }

  /** A write goes through after the keys in have are taken. */
  ghost predicate GoesThrough(have: set<Key>, w: Write)
  {
    if w.key in have then w.ifAbsent
    else w.key.kind == Namespace || NamespaceKey(w.key.namespace) in have
  }

  /** Every write goes through when those before it have. */
  ghost predicate AllGoThrough(have: set<Key>, ws: seq<Write>)
  {
    ws == [] ||
    (AllGoThrough(have, ws[..|ws| - 1]) && GoesThrough(have + KeysOf(ws[..|ws| - 1]), ws[|ws| - 1]))
  }

  lemma KeysOfAppend(ws: seq<Write>, w: Write)
    ensures KeysOf(ws + [w]) == KeysOf(ws) + {w.key}
  {
    assert w in ws + [w] && forall v | v in ws + [w] :: v in ws || v == w;
    assert forall v | v in ws :: v in ws + [w];
  }

  lemma KeysOfConcat(a: seq<Write>, b: seq<Write>)
    ensures KeysOf(a + b) == KeysOf(a) + KeysOf(b)
  {
    assert forall v | v in a + b :: v in a || v in b;
    assert forall v | v in a || v in b :: v in a + b;
  }

  /** A run fails exactly when some write does not go through, and a run that does not fail
      leaves exactly the keys it was asked for. */
  lemma {:induction false} RunSucceedsExactly(s: Outcome, ws: seq<Write>)
    requires !s.failed
    ensures !RunFrom(s, ws).failed <==> AllGoThrough(s.store.Keys, ws)
    ensures !RunFrom(s, ws).failed ==> RunFrom(s, ws).store.Keys == s.store.Keys + KeysOf(ws)
  {
    if ws != [] {
      var front, w := ws[..|ws| - 1], ws[|ws| - 1];
      RunSucceedsExactly(s, front);
      assert ws == front + [w];
      KeysOfAppend(front, w);
    }
  }

  lemma {:induction false} AllGoThroughConcat(have: set<Key>, a: seq<Write>, b: seq<Write>)
    ensures AllGoThrough(have, a + b) <==> AllGoThrough(have, a) && AllGoThrough(have + KeysOf(a), b)
  {
    if b == [] {
      assert a + b == a;
    } else {
      var front := b[..|b| - 1];
      AllGoThroughConcat(have, a, front);
      assert (a + b)[..|a + b| - 1] == a + front;
      KeysOfConcat(a, front);
      assert have + KeysOf(a + front) == have + KeysOf(a) + KeysOf(front);
    }
  }

  /** The object under a new key is that of the writes for the key, when they agree. */
  lemma {:induction false} RunStores(s: Outcome, ws: seq<Write>, w: Write)
    requires !RunFrom(s, ws).failed && !s.failed
    requires w in ws && w.key !in s.store
    requires forall v | v in ws && v.key == w.key :: v.o == w.o
    ensures w.key in RunFrom(s, ws).store && RunFrom(s, ws).store[w.key] == w.o
  {
    var front, last := ws[..|ws| - 1], ws[|ws| - 1];
    assert ws == front + [last];
    if w in front {
      RunStores(s, front, w);
    } else {
      assert w == last;
      RunSucceedsExactly(s, front);
      if w.key in RunFrom(s, front).store {
        var v :| v in front && v.key == w.key;
        RunStores(s, front, v);
      }
    }
  }

  // ---------- Which writes an import makes ----------

  ghost predicate IsAppWrite(id: string, apps: seq<AppEntry>, w: Write)
  {
    exists a | a in apps :: w == AppWrite(id, a)
  }

  ghost predicate IsAppNamespace(id: string, apps: seq<AppEntry>, w: Write)
  {
    exists a | a in apps :: exists env | env in EnvNames(a.spec) :: w == EnsureNamespace(id, env)
  }

  lemma RenamingKeepsEnvNames(spec: Fields, id: string)
    ensures EnvNames(spec["project" := Text(id)]) == EnvNames(spec)
  {}

  lemma {:induction false} NamespaceWritesAre(id: string, envs: seq<string>, w: Write)
    ensures w in NamespaceWrites(id, envs) <==> exists env | env in envs :: w == EnsureNamespace(id, env)
  {
    var ws := NamespaceWrites(id, envs);
    if w in ws {
      var i :| 0 <= i < |ws| && ws[i] == w;
      assert envs[i] in envs;
    }
    if exists env | env in envs :: w == EnsureNamespace(id, env) {
      var env :| env in envs && w == EnsureNamespace(id, env);
      var i :| 0 <= i < |envs| && envs[i] == env;
      assert ws[i] in ws;
    }
  }

  lemma AppKindsExtend(id: string, front: seq<AppEntry>, a: AppEntry, w: Write)
    ensures IsAppWrite(id, front + [a], w) <==> IsAppWrite(id, front, w) || w == AppWrite(id, a)
    ensures IsAppNamespace(id, front + [a], w) <==>
      IsAppNamespace(id, front, w) || exists env | env in EnvNames(a.spec) :: w == EnsureNamespace(id, env)
  {
    hide EnvNames, AppWrite, EnsureNamespace;
    assert forall b :: b in front + [a] <==> b in front || b == a;
  }

  lemma {:induction false} AppWritesAre(id: string, apps: seq<AppEntry>, w: Write)
    ensures w in AppWrites(id, apps) <==> IsAppWrite(id, apps, w) || IsAppNamespace(id, apps, w)
  {
    if apps != [] {
      var front, a := apps[..|apps| - 1], apps[|apps| - 1];
      assert apps == front + [a];
      AppWritesAre(id, front, w);
      RenamingKeepsEnvNames(a.spec, id);
      NamespaceWritesAre(id, EnvNames(a.spec), w);
      AppKindsExtend(id, front, a, w);
      hide NamespaceWrites, EnvNames, AppWrite, IsAppWrite, IsAppNamespace;
    }
  }

  ghost predicate IsSharedWrite(id: string, es: seq<SharedEntry>, w: Write)
  {
    exists e | e in es :: exists env | env in e.environments :: w == SharedWrite(id, e, env)
  }

  ghost predicate IsSharedNamespace(id: string, es: seq<SharedEntry>, w: Write)
  {
    exists e | e in es :: exists env | env in e.environments :: w == EnsureNamespace(id, env)
  }

  lemma {:induction false} OneSharedWritesAre(id: string, e: SharedEntry, envs: seq<string>, w: Write)
    ensures w in OneSharedWrites(id, e, envs) <==>
            exists env | env in envs :: w == EnsureNamespace(id, env) || w == SharedWrite(id, e, env)
  {
    if envs != [] {
      var front, env := envs[..|envs| - 1], envs[|envs| - 1];
      OneSharedWritesAre(id, e, front, w);
      assert envs == front + [env];
    }
  }

  lemma {:induction false} SharedWritesAre(id: string, es: seq<SharedEntry>, w: Write)
    ensures w in SharedWrites(id, es) <==> IsSharedWrite(id, es, w) || IsSharedNamespace(id, es, w)
  {
    if es != [] {
      var front, e := es[..|es| - 1], es[|es| - 1];
      SharedWritesAre(id, front, w);
      OneSharedWritesAre(id, e, e.environments, w);
      assert es == front + [e];
      hide OneSharedWrites, SharedWrite, EnsureNamespace;
      assert w in SharedWrites(id, es) <==>
        w in SharedWrites(id, front) || w in OneSharedWrites(id, e, e.environments);
    }
  }

  ghost predicate IsRegistryWrite(rs: seq<RegistryEntry>, w: Write)
  {
    exists r | r in rs :: w == Write(RegistryKey(r.name), RegistryObject(r), true)
  }

  lemma RegistryWritesAre(rs: seq<RegistryEntry>, w: Write)
    ensures w in RegistryWrites(rs) <==> IsRegistryWrite(rs, w)
  {
    var ws := RegistryWrites(rs);
    if w in ws {
      var i :| 0 <= i < |ws| && ws[i] == w;
      assert rs[i] in rs;
    }
    if IsRegistryWrite(rs, w) {
      var r :| r in rs && w == Write(RegistryKey(r.name), RegistryObject(r), true);
      var i :| 0 <= i < |rs| && rs[i] == r;
      assert ws[i] in ws;
    }
  }

  lemma VarsWritesAre(id: string, vars: map<Slot, map<string, string>>, order: seq<Slot>, w: Write)
    requires Visits(order, vars.Keys)
    ensures w in VarsWrites(id, vars, order) <==> exists s | s in vars :: w == VarsWrite(id, vars, s)
  {
    var ws := VarsWrites(id, vars, order);
    if w in ws {
      var i :| 0 <= i < |ws| && ws[i] == w;
      assert order[i] in order;
    }
    if exists s | s in vars :: w == VarsWrite(id, vars, s) {
      var s :| s in vars && w == VarsWrite(id, vars, s);
      var i :| 0 <= i < |order| && order[i] == s;
      assert ws[i] in ws;
    }
  }

  lemma SecretsWritesAre(id: string, secrets: map<Slot, map<string, string>>, order: seq<Slot>, w: Write)
    requires Visits(order, secrets.Keys)
    ensures w in SecretsWrites(id, secrets, order) <==> exists s | s in secrets :: w == SecretsWrite(id, secrets, s)
  {
    var ws := SecretsWrites(id, secrets, order);
    if w in ws {
      var i :| 0 <= i < |ws| && ws[i] == w;
      assert order[i] in order;
    }
    if exists s | s in secrets :: w == SecretsWrite(id, secrets, s) {
      var s :| s in secrets && w == SecretsWrite(id, secrets, s);
      var i :| 0 <= i < |order| && order[i] == s;
      assert ws[i] in ws;
    }
  }

  ghost predicate IsConfigWrite(p: Payload, id: string, w: Write)
  {
    (exists s | s in p.envVars :: w == VarsWrite(id, p.envVars, s)) ||
    (exists s | s in p.secrets :: w == SecretsWrite(id, p.secrets, s))
  }

  ghost predicate IsNamespaceWrite(p: Payload, id: string, w: Write)
  {
    (exists env | env in EnvNames(p.spec) :: w == EnsureNamespace(id, env)) ||
    IsAppNamespace(id, p.apps, w) || IsSharedNamespace(id, p.shared, w)
  }

  ghost predicate IsWriteOf(p: Payload, id: string, w: Write)
  {
    IsRegistryWrite(p.registry, w) || w == ProjectWrite(id, p.spec) || IsNamespaceWrite(p, id, w) ||
    IsAppWrite(id, p.apps, w) || IsConfigWrite(p, id, w) || IsSharedWrite(id, p.shared, w)
  }

  /** The writes of an import, whatever order its maps are visited in. */
  lemma ScheduleIs(p: Payload, id: string, vo: seq<Slot>, so: seq<Slot>, w: Write)
    requires Visits(vo, p.envVars.Keys) && Visits(so, p.secrets.Keys)
    ensures w in Schedule(p, id, vo, so) <==> IsWriteOf(p, id, w)
  {
    RegistryWritesAre(p.registry, w);
    NamespaceWritesAre(id, EnvNames(p.spec), w);
    AppWritesAre(id, p.apps, w);
    VarsWritesAre(id, p.envVars, vo, w);
    SecretsWritesAre(id, p.secrets, so, w);
    SharedWritesAre(id, p.shared, w);
    assert Schedule(p, id, vo, so) == RegistryWrites(p.registry) + [ProjectWrite(id, p.spec)] +
      NamespaceWrites(id, EnvNames(p.spec)) + AppWrites(id, p.apps) + VarsWrites(id, p.envVars, vo) +
      SecretsWrites(id, p.secrets, so) + SharedWrites(id, p.shared);
    hide Schedule, RegistryWrites, NamespaceWrites, AppWrites, VarsWrites, SecretsWrites, SharedWrites;
    hide IsAppWrite, IsAppNamespace, IsSharedWrite, IsSharedNamespace, IsRegistryWrite, ProjectWrite, Visits;
  }
}
