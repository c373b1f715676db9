/** The image each environment runs, the deployment history the operator keeps of it, and the
    version a rollback takes from that history. */
module History {
  import opened Json
  import opened Text
  import opened AppSpec

  // ---------- Which image runs where ----------

  datatype ImageConfig = ImageConfig(repository: string, tag: string)

  /** The image block of a spec or of an environment, as the operator decodes it. */
  function ImageIn(fields: Fields): Option<ImageConfig>
  {
    var image := GetDict(fields, "image");
    if image.None? then None
    else Some(ImageConfig(GetString(image.value, "repository"), GetString(image.value, "tag")))
  }

  datatype Target = Target(name: string, image: Option<ImageConfig>)

  function TargetOf(v: Value): Target
  {
    if v.Dict? then Target(GetString(v.fields, "name"), ImageIn(v.fields)) else Target("", None)
  }

  function TargetsOf(envs: seq<Value>): seq<Target>
  {
    seq(|envs|, i requires 0 <= i < |envs| => TargetOf(envs[i]))
  }

  /** An app that lists no environment goes to all of the project's, with no image of its own. */
  function TargetsFor(spec: Fields, inherited: seq<string>): seq<Target>
  {
    if Environments(spec) != [] then TargetsOf(Environments(spec))
    else seq(|inherited|, i requires 0 <= i < |inherited| => Target(inherited[i], None))
  }

  function OrLatest(tag: string): string { if tag != "" then tag else "latest" }

  function ResolveImage(app: Option<ImageConfig>, env: Option<ImageConfig>): string
  {
    if env.Some? && env.value.repository != "" then env.value.repository + ":" + OrLatest(env.value.tag)
    else if env.Some? && env.value.tag != "" && app.Some? then app.value.repository + ":" + env.value.tag
    else if app.Some? then app.value.repository + ":" + OrLatest(app.value.tag)
    else "placeholder:latest"
  }

  /** The repository and the tag an environment runs, when the app has an image. */
  function RepositoryOf(app: ImageConfig, env: Option<ImageConfig>): string
  {
    if env.Some? && env.value.repository != "" then env.value.repository else app.repository
  }

  function TagOf(app: ImageConfig, env: Option<ImageConfig>): string
  {
    if env.Some? && env.value.tag != "" then env.value.tag
    else if env.Some? && env.value.repository != "" then "latest"
    else OrLatest(app.tag)
  }

  /** Repository and tag are decided apart: the environment's own of each, else the app's. An
      environment with a repository of its own neither inherits the app's tag nor needs an app
      image; without one, any other runs a placeholder. */
  lemma ImageIsRepositoryAndTag(app: ImageConfig, env: Option<ImageConfig>)
    ensures ResolveImage(Some(app), env) == RepositoryOf(app, env) + ":" + TagOf(app, env)
    ensures TagOf(app, env) != ""
    ensures ResolveImage(None, env) ==
      if env.Some? && env.value.repository != "" then ResolveImage(Some(app), env) else "placeholder:latest"
  {}

  /** The image the environment at index k of a spec runs. */
  function Running(spec: Fields, k: nat): string
    requires k < |Environments(spec)|
  {
    ResolveImage(ImageIn(spec), TargetOf(Environments(spec)[k]).image)
  }

  // ---------- The history ----------

  datatype Record = Record(version: int, image: string, environment: string, deployedAt: string)

  function LastImage(history: seq<Record>, env: string): string
  {
    if history == [] then ""
    else if history[|history| - 1].environment == env then history[|history| - 1].image
    else LastImage(history[..|history| - 1], env)
  }

  function NextVersion(history: seq<Record>): int
  {
    if history == [] then 1 else history[|history| - 1].version + 1
  }

  function RecordOne(history: seq<Record>, app: ImageConfig, t: Target, now: string): seq<Record>
  {
    var image := ResolveImage(Some(app), t.image);
    if LastImage(history, t.name) == image then history
    else history + [Record(NextVersion(history), image, t.name, now)]
  }

  function RecordAll(history: seq<Record>, app: ImageConfig, targets: seq<Target>, now: string): seq<Record>
  {
    if targets == [] then history
    else RecordOne(RecordAll(history, app, targets[..|targets| - 1], now), app, targets[|targets| - 1], now)
  }

  /** The history part of a status pass. An app without an image is not recorded. */
  function Recorded(history: seq<Record>, spec: Fields, inherited: seq<string>, now: string): seq<Record>
  {
    var app := ImageIn(spec);
    if app.None? then history else RecordAll(history, app.value, TargetsFor(spec, inherited), now)
  }

  /** The index the operator builds over the history before it compares. */
  ghost predicate Indexes(index: map<string, string>, history: seq<Record>)
  {
    forall env :: (if env in index then index[env] else "") == LastImage(history, env)
  }

  lemma IndexGrows(index: map<string, string>, history: seq<Record>, r: Record)
    requires Indexes(index, history)
    ensures Indexes(index[r.environment := r.image], history + [r])
  {
    assert (history + [r])[..|history|] == history;
  }

  method IndexHistory(history: seq<Record>) returns (index: map<string, string>)
    ensures Indexes(index, history)
  {
    index := map[];
    for i := 0 to |history|
      invariant Indexes(index, history[..i])
    {
      IndexGrows(index, history[..i], history[i]);
      assert history[..i + 1] == history[..i] + [history[i]];
      index := index[history[i].environment := history[i].image];
    }
    assert history[..|history|] == history;
  }

  /** The loop that appends to the history, with its index, its next version and the current image
      kept beside it. The current image becomes that of the last record, unless nothing was
      recorded and there was one. */
  method RecordDeployments(start: seq<Record>, shown: string, app: ImageConfig, targets: seq<Target>, now: string)
    returns (history: seq<Record>, index: map<string, string>, current: string)
    ensures history == RecordAll(start, app, targets, now)
    ensures Indexes(index, history)
    ensures current ==
      if |history| == 0 || (|history| == |start| && shown != "") then shown else history[|history| - 1].image
  {
    hide ResolveImage, LastImage;
    history, current := start, shown;
    index := IndexHistory(start);
    var next := 1;
    if |start| > 0 {
      next := start[|start| - 1].version + 1;
    }
    for i := 0 to |targets|
      invariant history == RecordAll(start, app, targets[..i], now)
      invariant Indexes(index, history) && next == NextVersion(history)
      invariant |history| >= |start| && if |history| == |start| then current == shown else current == history[|history| - 1].image
    {
      var t := targets[i];
      assert targets[..i + 1][..i] == targets[..i];
      var image := ResolveImage(Some(app), t.image);
      if (if t.name in index then index[t.name] else "") != image {
        var r := Record(next, image, t.name, now);
        IndexGrows(index, history, r);
        history := history + [r];
        index := index[t.name := image];
        next, current := next + 1, image;
      }
    }
    assert targets[..|targets|] == targets;
    if current == "" && |history| > 0 {
      current := history[|history| - 1].image;
    }
  }

  // ---------- What a pass keeps ----------

  ghost predicate Consecutive(history: seq<Record>)
  {
    forall i | 0 < i < |history| :: history[i].version == history[i - 1].version + 1
  }

  lemma RecordOneKeeps(history: seq<Record>, app: ImageConfig, t: Target, now: string)
    ensures history <= RecordOne(history, app, t, now)
    ensures Consecutive(history) ==> Consecutive(RecordOne(history, app, t, now))
  {}

  lemma {:induction false} PassAppends(history: seq<Record>, app: ImageConfig, targets: seq<Target>, now: string)
    ensures history <= RecordAll(history, app, targets, now)
    ensures Consecutive(history) ==> Consecutive(RecordAll(history, app, targets, now))
  {
    hide Consecutive, RecordOne;
    if targets != [] {
      var before := RecordAll(history, app, targets[..|targets| - 1], now);
      PassAppends(history, app, targets[..|targets| - 1], now);
      RecordOneKeeps(before, app, targets[|targets| - 1], now);
    }
  }

  /** The record stands for one of the targets, the image it runs and the time of the pass. */
  ghost predicate StandsForTarget(r: Record, app: ImageConfig, targets: seq<Target>, now: string)
  {
    r.deployedAt == now && exists t | t in targets :: r.environment == t.name && r.image == ResolveImage(Some(app), t.image)
  }

  lemma StandsInMore(r: Record, app: ImageConfig, front: seq<Target>, t: Target, now: string)
    requires StandsForTarget(r, app, front, now)
    ensures StandsForTarget(r, app, front + [t], now)
  {
    var s :| s in front && r.environment == s.name && r.image == ResolveImage(Some(app), s.image);
    assert s in front + [t];
  }

  /** The record at an index past the old history stands for a target, and its version goes on. */
  ghost predicate AppendedAt(all: seq<Record>, i: nat, app: ImageConfig, targets: seq<Target>, now: string)
    requires i < |all|
  {
    StandsForTarget(all[i], app, targets, now) && all[i].version == if i == 0 then 1 else all[i - 1].version + 1
  }

  lemma RecordOneAppends(history: seq<Record>, app: ImageConfig, front: seq<Target>, t: Target, now: string)
    ensures var all := RecordOne(history, app, t, now);
      all == history ||
      (|all| == |history| + 1 && all[..|history|] == history && AppendedAt(all, |history|, app, front + [t], now))
  {
    assert t in front + [t];
    hide ResolveImage, LastImage;
  }

  /** Each record a pass appends stands for a target of it, and versions go on from the last one, or
      from 1. */
  lemma {:induction false} PassRecords(history: seq<Record>, app: ImageConfig, targets: seq<Target>, now: string)
    ensures var all := RecordAll(history, app, targets, now);
      |all| >= |history| && all[..|history|] == history &&
      forall i: nat | |history| <= i < |all| :: AppendedAt(all, i, app, targets, now)
  {
    if targets != [] {
      var front, t := targets[..|targets| - 1], targets[|targets| - 1];
      var before, all := RecordAll(history, app, front, now), RecordAll(history, app, targets, now);
      PassRecords(history, app, front, now);
      assert targets == front + [t];
      assert all == RecordOne(before, app, t, now);
      hide RecordAll, RecordOne, StandsForTarget;
      RecordOneAppends(before, app, front, t, now);
      forall i: nat | |history| <= i < |all| ensures AppendedAt(all, i, app, targets, now) {
        if i < |before| {
          assert AppendedAt(before, i, app, front, now);
          StandsInMore(before[i], app, front, t, now);
          assert all[i] == before[i] && (i > 0 ==> all[i - 1] == before[i - 1]);
        }
      }
      assert all[..|history|] == before[..|history|];
    }
  }

  /** The environments a pass looks at: those the app lists, or the project's when it lists none. */
  lemma TargetsAre(spec: Fields, inherited: seq<string>)
    ensures var envs, targets := Environments(spec), TargetsFor(spec, inherited);
      if envs == [] then |targets| == |inherited| && forall i | 0 <= i < |targets| :: targets[i] == Target(inherited[i], None)
      else |targets| == |envs| && forall i | 0 <= i < |targets| :: envs[i].Dict? ==>
        targets[i].name == GetString(envs[i].fields, "name") &&
        var image := GetDict(envs[i].fields, "image");
        targets[i].image == if image.None? then None
          else Some(ImageConfig(GetString(image.value, "repository"), GetString(image.value, "tag")))
  {}

  /** Consecutive versions name their records. */
  lemma {:induction false} VersionsAreUnique(history: seq<Record>, i: nat, j: nat)
    requires Consecutive(history) && i <= j < |history|
    ensures history[j].version == history[i].version + (j - i)
    decreases j
  {
    if i < j {
      VersionsAreUnique(history, i, j - 1);
    }
  }

  ghost predicate UpToDate(history: seq<Record>, app: ImageConfig, targets: seq<Target>)
  {
    forall t | t in targets :: LastImage(history, t.name) == ResolveImage(Some(app), t.image)
  }

  /** Targets of the same name run the same image. */
  ghost predicate NamesAgree(app: ImageConfig, targets: seq<Target>)
  {
    forall s, t | s in targets && t in targets && s.name == t.name ::
      ResolveImage(Some(app), s.image) == ResolveImage(Some(app), t.image)
  }

  lemma LastImageExtends(history: seq<Record>, r: Record, env: string)
    ensures LastImage(history + [r], env) == if r.environment == env then r.image else LastImage(history, env)
  {
    assert (history + [r])[..|history|] == history;
  }

  /** After a pass the last record of every environment is the image it runs, exactly when
      targets of the same name run the same image. */
  lemma {:induction false} PassIsUpToDate(history: seq<Record>, app: ImageConfig, targets: seq<Target>, now: string)
    ensures UpToDate(RecordAll(history, app, targets, now), app, targets) <==> NamesAgree(app, targets)
  {
    if targets != [] && NamesAgree(app, targets) {
      var front, t := targets[..|targets| - 1], targets[|targets| - 1];
      assert t in targets && forall s | s in front :: s in targets;
      PassIsUpToDate(history, app, front, now);
      var before := RecordAll(history, app, front, now);
      var r := Record(NextVersion(before), ResolveImage(Some(app), t.image), t.name, now);
      forall s | s in targets
        ensures LastImage(RecordAll(history, app, targets, now), s.name) == ResolveImage(Some(app), s.image)
      {
        LastImageExtends(before, r, s.name);
        assert s in front || s == t;
      }
    }
  }

  lemma {:induction false} UpToDateRecordsNothing(history: seq<Record>, app: ImageConfig, targets: seq<Target>, now: string)
    ensures UpToDate(history, app, targets) <==> RecordAll(history, app, targets, now) == history
  {
    if targets != [] {
      var front, t := targets[..|targets| - 1], targets[|targets| - 1];
      assert t in targets && forall s | s in front :: s in targets;
      assert forall s | s in targets :: s in front || s == t;
      UpToDateRecordsNothing(history, app, front, now);
      PassAppends(history, app, front, now);
    }
  }

  /** A repeated pass records nothing, exactly when targets of the same name agree; when they do
      not, every pass records again. */
  lemma RepeatedPass(history: seq<Record>, app: ImageConfig, targets: seq<Target>, now: string, later: string)
    ensures var once := RecordAll(history, app, targets, now);
      RecordAll(once, app, targets, later) == once <==> NamesAgree(app, targets)
  {
    PassIsUpToDate(history, app, targets, now);
    UpToDateRecordsNothing(RecordAll(history, app, targets, now), app, targets, later);
  }

  // ---------- Rolling back ----------

  datatype Found = Image(image: string) | OtherEnvironment(env: string) | NoVersion

  /** The first record of the version decides. */
  function Find(history: seq<Record>, version: int, env: string): Found
  {
    if history == [] then NoVersion
    else if history[0].version != version then Find(history[1..], version, env)
    else if history[0].environment != "" && history[0].environment != env then OtherEnvironment(history[0].environment)
    else if history[0].image == "" then NoVersion
    else Image(history[0].image)
  }

  method FindRecord(history: seq<Record>, version: int, env: string) returns (image: string, wrongEnv: string)
    ensures image != "" <==> Find(history, version, env).Image?
    ensures image != "" ==> Find(history, version, env) == Image(image)
    ensures wrongEnv != "" <==> Find(history, version, env).OtherEnvironment?
    ensures wrongEnv != "" ==> Find(history, version, env) == OtherEnvironment(wrongEnv)
  {
    image, wrongEnv := "", "";
    for i := 0 to |history|
      invariant image == "" && wrongEnv == "" && Find(history, version, env) == Find(history[i..], version, env)
    {
      assert history[i..][1..] == history[i + 1..];
      if history[i].version != version {
        continue;
      }
      if history[i].environment != "" && history[i].environment != env {
        wrongEnv := history[i].environment;
        return;
      }
      image := history[i].image;
      return;
    }
  }

  /** With consecutive versions, a version finds its own record and no other. */
  lemma {:induction false} FindsTheRecord(history: seq<Record>, k: nat, env: string)
    requires Consecutive(history) && k < |history|
    ensures Find(history, history[k].version, env) ==
      var r := history[k];
      if r.environment != "" && r.environment != env then OtherEnvironment(r.environment)
      else if r.image == "" then NoVersion else Image(r.image)
  {
    if k > 0 {
      VersionsAreUnique(history, 0, k);
      assert history[1..][k - 1] == history[k];
      assert Consecutive(history[1..]) by {
        forall i | 0 < i < |history[1..]| ensures history[1..][i].version == history[1..][i - 1].version + 1 {
          assert history[i + 1].version == history[i].version + 1;
        }
      }
      FindsTheRecord(history[1..], k - 1, env);
    }
  }

  /** What follows the last ':' of the image, or all of it when there is none. */
  function RollbackTag(image: string): string
  {
    var i := LastIndex(image, ':');
    if i >= 0 then image[i + 1..] else image
  }

  /** What stands before the last ':'. */
  function RecordedRepository(image: string): Option<string>
  {
    var i := LastIndex(image, ':');
    if i >= 0 then Some(image[..i]) else None
  }

  /** A rollback tag never holds a ':', so it survives being recorded and rolled back to. */
  lemma RollbackTagIsPlain(image: string)
    ensures ':' !in RollbackTag(image)
  {}

  lemma {:induction false} RepositoryPrefix(a: string, b: string, t: string)
    ensures a + ":" + t == b + ":" + t <==> a == b
  {
    if a + ":" + t == b + ":" + t {
      assert |a| == |b|;
      assert (a + ":" + t)[..|a|] == a && (b + ":" + t)[..|b|] == b;
    }
  }

  /** After an environment takes the tag of a recorded image, it runs that image exactly when
      its repository is the one recorded. */
  lemma RollbackRestores(app: ImageConfig, env: ImageConfig, image: string)
    requires RollbackTag(image) != ""
    requires env.tag == RollbackTag(image)
    ensures ResolveImage(Some(app), Some(env)) == image <==>
      RecordedRepository(image) == Some(RepositoryOf(app, Some(env)))
  {
    var repo, tag := RepositoryOf(app, Some(env)), RollbackTag(image);
    ImageIsRepositoryAndTag(app, Some(env));
    var i := LastIndex(image, ':');
    if i >= 0 {
      assert image == image[..i] + ":" + tag;
      RepositoryPrefix(image[..i], repo, tag);
    } else {
      assert |repo + ":" + tag| > |image|;
    }
  }

  /** An image recorded from a repository and a plain tag gives both back. */
  lemma RecordedParts(repository: string, tag: string)
    ensures RollbackTag(repository + ":" + tag) == tag <==> ':' !in tag
    ensures RecordedRepository(repository + ":" + tag) == Some(repository) <==> ':' !in tag
  {
    var image := repository + ":" + tag;
    LastIndexSplits(repository, ':', tag);
    assert image[|repository|] == ':';
    LastIndexIsLast(image, ':', |repository|);
    assert image[..|repository|] == repository && image[|repository| + 1..] == tag;
  }
}
