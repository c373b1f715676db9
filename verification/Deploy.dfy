/** The stored app, the writes that reach it, and the two handlers that change which image an
    environment runs. */
module Deploy {
  import opened Json
  import opened Text
  import opened AppSpec
  import opened History

  // ---------- The stored app ----------

  datatype App = App(spec: Fields, lastTarget: string, history: seq<Record>, checkedAt: string, resourceVersion: nat)

  /** A write the API server committed: an edit of the image by one of the two handlers, a
      status pass of the operator, or a write to anything else of the object. */
  datatype Event = Edited(author: nat, edit: Edit) | Passed(inherited: seq<string>, now: string) | Touched

  /** A write that changes nothing keeps the resource version. */
  function Stamp(before: App, after: App): App
  {
    if after.(resourceVersion := before.resourceVersion) == before then before
    else after.(resourceVersion := before.resourceVersion + 1)
  }

  /** What the server stores for a write computed from the copy seen. A write of the object
      leaves the status as stored, a write of the status leaves the rest. */
  function Store(stored: App, seen: App, ev: Event): App
  {
    match ev
    case Edited(_, e) => Stamp(stored, stored.(spec := Apply(seen.spec, e), lastTarget := e.env))
    case Passed(inherited, now) =>
      Stamp(stored, stored.(history := Recorded(seen.history, seen.spec, inherited, now), checkedAt := now))
    case Touched => stored.(resourceVersion := stored.resourceVersion + 1)
  }

  /** A write computed from what is stored. */
  function Occur(app: App, ev: Event): App { Store(app, app, ev) }

  function After(app: App, events: seq<Event>): App
  {
    if events == [] then app else Occur(After(app, events[..|events| - 1]), events[|events| - 1])
  }

  lemma {:induction false} AfterConcat(app: App, a: seq<Event>, b: seq<Event>)
    ensures After(app, a + b) == After(After(app, a), b)
  {
    if b == [] {
      assert a + b == a;
    } else {
      AfterConcat(app, a, b[..|b| - 1]);
      assert (a + b)[..|a + b| - 1] == a + b[..|b| - 1];
    }
  }

  /** What a committed edit leaves: the edited spec, its environment as the last target, and the
      history and check as they were. */
  lemma EditIsStored(app: App, author: nat, e: Edit)
    ensures var u := Occur(app, Edited(author, e));
      u.spec == Apply(app.spec, e) && u.lastTarget == e.env && u.history == app.history && u.checkedAt == app.checkedAt &&
      (u.resourceVersion > app.resourceVersion <==> u.spec != app.spec || u.lastTarget != app.lastTarget)
  {
    hide Apply;
  }

  /** What a status pass leaves: the recorded history and the time, and the rest as it was. */
  lemma PassIsStored(app: App, inherited: seq<string>, now: string)
    ensures var u := Occur(app, Passed(inherited, now));
      u.spec == app.spec && u.lastTarget == app.lastTarget && u.checkedAt == now &&
      (GetDict(app.spec, "image").None? ==> u.history == app.history) &&
      (GetDict(app.spec, "image").Some? ==>
        u.history == RecordAll(app.history, ImageIn(app.spec).value, TargetsFor(app.spec, inherited), now))
  {
    hide RecordAll, TargetsFor;
  }

  /** Whatever changes the object gives it a new version; a write to anything else of it only that. */
  lemma WritesAreSeen(app: App, ev: Event)
    ensures Occur(app, ev) != app ==> Occur(app, ev).resourceVersion > app.resourceVersion
    ensures Occur(app, Touched) == app.(resourceVersion := app.resourceVersion + 1)
  {
    hide Apply, Recorded;
  }

  // ---------- The API server, as one client meets it ----------

  /** What others commit around requests from to until. */
  function Between(others: nat -> seq<Event>, from: nat, until: nat): seq<Event>
    requires from <= until
    decreases until
  {
    if until == from then [] else Between(others, from, until - 1) + others(until - 1)
  }

  /** The resource version only grows, and stands still only when nothing changed. */
  lemma {:induction false} VersionsGrow(app: App, events: seq<Event>)
    ensures After(app, events).resourceVersion >= app.resourceVersion
    ensures After(app, events).resourceVersion == app.resourceVersion ==> After(app, events) == app
  {
    if events != [] {
      VersionsGrow(app, events[..|events| - 1]);
    }
  }

  datatype Outcome = Committed | Conflict | Failure

  class AppServer {
    const start: App
    var app: App
    /** Every write committed so far. */
    ghost var log: seq<Event>
    var requests: nat
    /** The writes of others that commit just before each request is served. */
    const others: nat -> seq<Event>
    /** The requests the server fails to serve. */
    const down: nat -> bool

    /** What is stored is the work of the committed writes, one after another. */
    ghost predicate Valid() reads this { app == After(start, log) }

    constructor (app: App, others: nat -> seq<Event>, down: nat -> bool)
      ensures Valid() && start == app && this.others == others && this.down == down && log == [] && requests == 0
    {
      this.start, this.app, this.others, this.down, log, requests := app, app, others, down, [], 0;
    }

    method Arrive()
      requires Valid()
      modifies this
      ensures Valid() && app == After(old(app), others(old(requests)))
      ensures log == old(log) + others(old(requests)) && requests == old(requests) + 1
    {
      AfterConcat(start, log, others(requests));
      app, log, requests := After(app, others(requests)), log + others(requests), requests + 1;
    }

    method Get() returns (seen: Option<App>)
      requires Valid()
      modifies this
      ensures Valid() && log == old(log) + others(old(requests)) && requests == old(requests) + 1
      ensures seen == if down(old(requests)) then None else Some(app)
    {
      Arrive();
      seen := if down(requests - 1) then None else Some(app);
    }

    /** Takes an edited copy of what was stored at the last request; refused when the copy has
        become stale. */
    method Update(edited: App, ghost ev: Event) returns (outcome: Outcome)
      requires Valid() && ev.Edited? && edited == app.(spec := Apply(app.spec, ev.edit), lastTarget := ev.edit.env)
      modifies this
      ensures Valid() && requests == old(requests) + 1
      ensures log == old(log) + others(old(requests)) + if outcome == Committed then [ev] else []
      ensures outcome == Failure <==> down(old(requests))
      ensures outcome == Conflict ==> others(old(requests)) != []
    {
      ghost var seen := app;
      VersionsGrow(app, others(requests));
      Arrive();
      if down(requests - 1) {
        return Failure;
      }
      if edited.resourceVersion != app.resourceVersion {
        return Conflict;
      }
      assert seen == app;
      assert (log + [ev])[..|log|] == log;
      app, log := Stamp(app, app.(spec := edited.spec, lastTarget := edited.lastTarget)), log + [ev];
      outcome := Committed;
    }
  }

  // ---------- The handlers ----------

  datatype Reply = NotFound | BadEnvironment | NoTag | NoImage | NoSuchVersion | Failed | Accepted

  /** What a deploy answers before it writes, from the first copy it reads. */
  function Checked(spec: Fields, env: string, tag: string): Reply
  {
    if !HasEnvironment(spec, env) then BadEnvironment
    else if tag == "" then NoTag
    else if GetDict(spec, "image").None? then NoImage
    else Accepted
  }

  /** The environment is listed, as a mapping of that name or as a bare string. */
  ghost predicate IsListed(spec: Fields, env: string)
  {
    "environments" in spec && spec["environments"].List? &&
    exists v | v in spec["environments"].items :: v == Text(env) || (v.Dict? && GetString(v.fields, "name") == env)
  }

  lemma ListedMeans(spec: Fields, env: string)
    ensures HasEnvironment(spec, env) <==> IsListed(spec, env)
  {
    var envs := Environments(spec);
    if HasEntry(envs, env) {
      var v :| v in envs && IsNamed(v, env);
      assert v in spec["environments"].items;
    }
    if IsListed(spec, env) {
      var v :| v in spec["environments"].items && (v == Text(env) || (v.Dict? && GetString(v.fields, "name") == env));
      assert v == Text(env) || IsNamed(v, env);
    }
  }

  /** A deploy is let through exactly when the app lists the environment and has an image block, and the
      request names a tag; the first of these that fails is the answer. */
  lemma DeployIsChecked(spec: Fields, env: string, tag: string)
    ensures Checked(spec, env, tag) ==
      if !IsListed(spec, env) then BadEnvironment
      else if tag == "" then NoTag
      else if "image" in spec && spec["image"].Dict? then Accepted
      else NoImage
  {
    ListedMeans(spec, env);
    hide HasEnvironment, IsListed;
  }

  /** The edit a deploy commits: the repository is that of the copy it read first, whichever
      copy it ends up editing. */
  function DeployEdit(first: Fields, env: string, tag: string): Edit
  {
    Edit(env, tag, Some(GetString(ImageOf(first), "repository")))
  }

  function RollbackEdit(env: string, image: string): Edit { Edit(env, RollbackTag(image), None) }

  /** Without a mapping for the environment, a deploy replaces the app's image by the repository it saw
      first and the tag, and a rollback only sets the tag there. */
  lemma AppWideEdits(spec: Fields, first: Fields, env: string, tag: string, image: string)
    requires forall v | v in Environments(spec) :: v.Dict? ==> GetString(v.fields, "name") != env
    ensures var deployed, rolledBack := Apply(spec, DeployEdit(first, env, tag)), Apply(spec, RollbackEdit(env, image));
      deployed == spec["image" := Dict(map["repository" := Text(GetString(ImageOf(first), "repository")), "tag" := Text(tag)])] &&
      rolledBack == spec["image" := Dict(ImageOf(spec)["tag" := Text(RollbackTag(image))])]
  {
    assert !HasEntry(Environments(spec), env);
    hide RollbackTag;
  }

  /** The edited copy a handler sends. */
  method EditSpec(spec: Fields, e: Edit) returns (spec': Fields)
    ensures spec' == Apply(spec, e)
  {
    var envs, updated := TagEnvironment(GetList(spec, "environments"), e.env, e.tag);
    if updated {
      spec' := spec["environments" := List(envs)];
    } else if e.repository.Some? {
      spec' := spec["image" := Dict(map["repository" := Text(e.repository.value), "tag" := Text(e.tag)])];
    } else {
      spec' := spec["image" := Dict(OrEmpty(GetDict(spec, "image"))["tag" := Text(e.tag)])];
    }
  }

  /** Others wrote around every one of the attempts of a deploy that started at request from. */
  ghost predicate Conflicted(others: nat -> seq<Event>, from: nat, attempts: nat)
  {
    forall k | 0 <= k < attempts :: others(from + 2 * k + 1) != []
  }

  /** Edits the copy just read and sends it. */
  method SendEdit(server: AppServer, seen: App, author: nat, edit: Edit) returns (outcome: Outcome)
    requires server.Valid() && seen == server.app
    modifies server
    ensures server.Valid() && server.requests == old(server.requests) + 1
    ensures server.log == old(server.log) + server.others(old(server.requests)) +
      if outcome == Committed then [Edited(author, edit)] else []
    ensures outcome == Failure <==> server.down(old(server.requests))
    ensures outcome == Conflict ==> server.others(old(server.requests)) != []
  {
    hide *;
    var spec := EditSpec(seen.spec, edit);
    outcome := server.Update(seen.(spec := spec, lastTarget := edit.env), Edited(author, edit));
  }

  /** What a client's call adds to the log: the writes of others up to its last request, and
      its own edit when it was committed. */
  function Added(others: nat -> seq<Event>, from: nat, until: nat, accepted: bool, own: Event): seq<Event>
    requires from <= until
  {
    Between(others, from, until) + if accepted then [own] else []
  }

  lemma AddedGrows(others: nat -> seq<Event>, from: nat, until: nat, own: Event, log0: seq<Event>, log: seq<Event>)
    requires from <= until && log == log0 + Added(others, from, until, false, own)
    ensures log + others(until) == log0 + Added(others, from, until + 1, false, own)
    ensures log + others(until) + [own] == log0 + Added(others, from, until + 1, true, own)
  {}

  /** Checks a deploy makes on the copy it reads first. */
  method CheckDeploy(spec: Fields, env: string, tag: string) returns (reply: Reply)
    ensures reply == Checked(spec, env, tag)
  {
    if !HasEnvironment(spec, env) {
      return BadEnvironment;
    }
    if tag == "" {
      return NoTag;
    }
    if GetDict(spec, "image").None? {
      return NoImage;
    }
    return Accepted;
  }

  /** A deploy of a tag. What it adds to the log, beside the writes of others, is its own edit
      exactly when it answers Accepted; and with the server up it fails only when others wrote
      around every one of its attempts. */
  method DeployApp(server: AppServer, author: nat, env: string, tag: string) returns (reply: Reply)
    requires server.Valid()
    modifies server
    ensures server.Valid() && server.requests > old(server.requests)
    ensures reply == NotFound <==> server.down(old(server.requests))
    ensures var first := After(server.start, old(server.log) + server.others(old(server.requests))).spec;
      server.log == old(server.log) +
        Added(server.others, old(server.requests), server.requests, reply == Accepted, Edited(author, DeployEdit(first, env, tag)))
    ensures var first := After(server.start, old(server.log) + server.others(old(server.requests))).spec;
      reply != NotFound && reply != Failed ==> reply == Checked(first, env, tag)
    ensures var first := After(server.start, old(server.log) + server.others(old(server.requests))).spec;
      reply == Failed ==> Checked(first, env, tag) == Accepted
    ensures reply == Failed ==>
      (exists n :: old(server.requests) <= n < server.requests && server.down(n)) ||
      Conflicted(server.others, old(server.requests), 5)
  {
    hide *;
    ghost var r0, log0, others := server.requests, server.log, server.others;
    var got := server.Get();
    ghost var first := After(server.start, log0 + others(r0)).spec;
    ghost var own := Edited(author, DeployEdit(first, env, tag));
    NothingAdded(others, r0, own, log0);
    AddedGrows(others, r0, r0, own, log0, log0);
    if got.None? {
      return NotFound;
    }
    var seen := got.value;
    assert seen.spec == first by { ValidMeans(server); }
    reply := CheckDeploy(seen.spec, env, tag);
    if reply != Accepted {
      CheckedReplies(first, env, tag);
      return;
    }
    var edit := Edit(env, tag, Some(GetString(ImageOf(seen.spec), "repository")));
    assert edit == own.edit by { DeployEditIs(first, env, tag); }
    var maxRetries := 5;
    for attempt := 0 to maxRetries
      invariant server.Valid() && server.requests == r0 + 2 * attempt + if attempt == 0 then 1 else 0
      invariant server.log == log0 + Added(others, r0, server.requests, false, own)
      invariant attempt == 0 ==> seen == server.app
      invariant forall k | 0 <= k < attempt :: others(r0 + 2 * k + 1) != []
    {
      if attempt > 0 {
        AddedGrows(others, r0, server.requests, own, log0, server.log);
        got := server.Get();
        if got.None? {
          return Failed;
        }
        seen := got.value;
      }
      AddedGrows(others, r0, server.requests, own, log0, server.log);
      var outcome := SendEdit(server, seen, author, edit);
      if outcome == Committed {
        return Accepted;
      }
      if outcome == Failure {
        return Failed;
      }
    }
    assert Conflicted(others, r0, 5) by { ConflictedIs(others, r0, 5); }
    return Failed;
  }

  lemma NothingAdded(others: nat -> seq<Event>, from: nat, own: Event, log0: seq<Event>)
    ensures log0 == log0 + Added(others, from, from, false, own)
  {}

  lemma CheckedReplies(spec: Fields, env: string, tag: string)
    ensures Checked(spec, env, tag) in {BadEnvironment, NoTag, NoImage, Accepted}
  {}

  lemma DeployEditIs(first: Fields, env: string, tag: string)
    ensures DeployEdit(first, env, tag) == Edit(env, tag, Some(GetString(ImageOf(first), "repository")))
  {}

  lemma ConflictedIs(others: nat -> seq<Event>, from: nat, attempts: nat)
    requires forall k | 0 <= k < attempts :: others(from + 2 * k + 1) != []
    ensures Conflicted(others, from, attempts)
  {}

  lemma ValidMeans(server: AppServer)
    requires server.Valid()
    ensures server.app == After(server.start, server.log)
  {}

  /** A rollback of an environment to a recorded version: one read, one write, no retry. */
  method RollbackApp(server: AppServer, author: nat, env: string, version: int) returns (reply: Reply)
    requires server.Valid()
    modifies server
    ensures server.Valid() && server.requests > old(server.requests)
    ensures reply == NotFound <==> server.down(old(server.requests))
    ensures var first := After(server.start, old(server.log) + server.others(old(server.requests)));
      var found := Find(first.history, version, env);
      (reply != NotFound ==>
        if !HasEnvironment(first.spec, env) then reply == BadEnvironment
        else if !found.Image? then reply == NoSuchVersion
        else reply in {Accepted, Failed}) &&
      server.log == old(server.log) +
        Added(server.others, old(server.requests), server.requests, reply == Accepted,
              Edited(author, RollbackEdit(env, if found.Image? then found.image else "")))
    ensures reply == Failed ==>
      server.down(old(server.requests) + 1) || server.others(old(server.requests) + 1) != []
  {
    hide *;
    ghost var r0, log0, others := server.requests, server.log, server.others;
    var got := server.Get();
    ghost var first := After(server.start, log0 + others(r0));
    ghost var found := Find(first.history, version, env);
    ghost var own := Edited(author, RollbackEdit(env, if found.Image? then found.image else ""));
    NothingAdded(others, r0, own, log0);
    AddedGrows(others, r0, r0, own, log0, log0);
    if got.None? {
      return NotFound;
    }
    var seen := got.value;
    assert seen == first by { ValidMeans(server); }
    if !HasEnvironment(seen.spec, env) {
      return BadEnvironment;
    }
    var image, wrongEnv := FindRecord(seen.history, version, env);
    if image == "" {
      return NoSuchVersion;
    }
    var edit := RollbackEdit(env, image);
    AddedGrows(others, r0, server.requests, own, log0, server.log);
    var outcome := SendEdit(server, seen, author, edit);
    reply := if outcome == Committed then Accepted else Failed;
  }
}
