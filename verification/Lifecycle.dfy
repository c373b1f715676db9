/** Any number of deploys, rollbacks and status passes on one app, interleaved request by
    request. */
module Lifecycle {
  import opened Json
  import opened Text
  import opened AppSpec
  import opened History
  import opened Deploy

  datatype Request =
    | DeployTag(env: string, tag: string)
    | RollbackTo(env: string, version: int)
    | StatusPass

  /** Where a client stands: about to read, holding the copy it read and the write it computed
      from it, or done. A deploy keeps the repository it saw first across its attempts. */
  datatype Phase =
    | Reading(tries: nat, first: Option<Fields>)
    | Holding(seen: App, ev: Event, tries: nat, first: Option<Fields>)
    | Done(reply: Reply)

  datatype Client = Client(request: Request, phase: Phase)

  datatype System = System(app: App, clients: map<nat, Client>, log: seq<Event>)

  datatype Step =
    | Read(client: nat, inherited: seq<string>, now: string)
    | Write(client: nat)
    | Other

  /** What a client does with the copy it reads. */
  function OnRead(id: nat, c: Client, app: App, inherited: seq<string>, now: string): Phase
    requires c.phase.Reading?
  {
    match c.request
    case DeployTag(env, tag) =>
      if c.phase.first.None? && Checked(app.spec, env, tag) != Accepted then Done(Checked(app.spec, env, tag))
      else
        var first := if c.phase.first.Some? then c.phase.first.value else app.spec;
        Holding(app, Edited(id, DeployEdit(first, env, tag)), c.phase.tries, Some(first))
    case RollbackTo(env, version) =>
      if !HasEnvironment(app.spec, env) then Done(BadEnvironment)
      else
        var found := Find(app.history, version, env);
        if found.Image? then Holding(app, Edited(id, RollbackEdit(env, found.image)), c.phase.tries, None)
        else Done(NoSuchVersion)
    case StatusPass => Holding(app, Passed(inherited, now), c.phase.tries, None)
  }

  /** A deploy is tried five times, a rollback once; the operator comes back to a pass for as
      long as it takes. */
  function OnConflict(c: Client): Phase
    requires c.phase.Holding?
  {
    match c.request
    case DeployTag(_, _) => if c.phase.tries + 1 < 5 then Reading(c.phase.tries + 1, c.phase.first) else Done(Failed)
    case RollbackTo(_, _) => Done(Failed)
    case StatusPass => Reading(c.phase.tries + 1, None)
  }

  function Next(s: System, step: Step): System
  {
    match step
    case Read(id, inherited, now) =>
      if id !in s.clients || !s.clients[id].phase.Reading? then s
      else
        var c := s.clients[id];
        s.(clients := s.clients[id := c.(phase := OnRead(id, c, s.app, inherited, now))])
    case Write(id) =>
      if id !in s.clients || !s.clients[id].phase.Holding? then s
      else
        var c := s.clients[id];
        if c.phase.seen.resourceVersion == s.app.resourceVersion
        then System(Store(s.app, c.phase.seen, c.phase.ev), s.clients[id := c.(phase := Done(Accepted))], s.log + [c.phase.ev])
        else s.(clients := s.clients[id := c.(phase := OnConflict(c))])
    case Other => System(Occur(s.app, Touched), s.clients, s.log + [Touched])
  }

  function Run(s: System, steps: seq<Step>): System
  {
    if steps == [] then s else Next(Run(s, steps[..|steps| - 1]), steps[|steps| - 1])
  }

  predicate Fresh(c: Client) { c.phase == Reading(0, None) }

  predicate Starting(s: System) { s.log == [] && forall id | id in s.clients :: Fresh(s.clients[id]) }

  // ---------- Every run is a serial run of its commits ----------

  /** A copy is no newer than what is stored, and is what is stored while its version stands. */
  predicate NotAhead(seen: App, app: App)
  {
    seen.resourceVersion <= app.resourceVersion && (seen.resourceVersion == app.resourceVersion ==> seen == app)
  }

  ghost predicate Serial(start: App, s: System)
  {
    s.app == After(start, s.log) &&
    forall id | id in s.clients && s.clients[id].phase.Holding? :: NotAhead(s.clients[id].phase.seen, s.app)
  }

  lemma OccurMovesOn(seen: App, app: App, ev: Event)
    requires NotAhead(seen, app)
    ensures NotAhead(seen, Occur(app, ev))
  {
    hide Apply, Recorded;
  }

  lemma NextIsSerial(start: App, s: System, step: Step)
    requires Serial(start, s)
    ensures Serial(start, Next(s, step))
  {
    hide Occur, OnRead, OnConflict;
    var t := Next(s, step);
    if t.log != s.log {
      var ev := t.log[|s.log|];
      assert t.log[..|s.log|] == s.log;
      assert t.app == Occur(s.app, ev) by { CommitIsOccurrence(start, s, step); }
      forall id | id in t.clients && t.clients[id].phase.Holding? ensures NotAhead(t.clients[id].phase.seen, t.app) {
        OccurMovesOn(s.clients[id].phase.seen, s.app, ev);
      }
    } else {
      ReadIsSerial(start, s, step);
    }
  }

  lemma CommitIsOccurrence(start: App, s: System, step: Step)
    requires Serial(start, s) && Next(s, step).log != s.log
    ensures |Next(s, step).log| == |s.log| + 1
    ensures Next(s, step).app == Occur(s.app, Next(s, step).log[|s.log|])
  {
    hide Store;
  }

  lemma ReadIsSerial(start: App, s: System, step: Step)
    requires Serial(start, s) && Next(s, step).log == s.log
    ensures Serial(start, Next(s, step))
  {
    hide Store, Apply, Checked, Find, DeployEdit, RollbackEdit;
    assert |Next(s, step).log| == |s.log|;
  }

  /** Serial equivalence: in every interleaving, what is stored is what the committed writes
      make when they occur one after another, in commit order, each on what the last left. */
  lemma {:induction false} EveryRunIsSerial(s: System, steps: seq<Step>)
    requires Starting(s)
    ensures Serial(s.app, Run(s, steps))
  {
    if steps != [] {
      EveryRunIsSerial(s, steps[..|steps| - 1]);
      NextIsSerial(s.app, Run(s, steps[..|steps| - 1]), steps[|steps| - 1]);
    }
  }

  // ---------- Each accepted request is committed once ----------

  function CommitsOf(log: seq<Event>, id: nat): nat
  {
    if log == [] then 0
    else CommitsOf(log[..|log| - 1], id) + if log[|log| - 1].Edited? && log[|log| - 1].author == id then 1 else 0
  }

  /** The write a client holds is the one it was asked for. */
  predicate AsAsked(id: nat, r: Request, ev: Event)
  {
    match r
    case DeployTag(env, tag) => ev.Edited? && ev.author == id && ev.edit.env == env && ev.edit.tag == tag
    case RollbackTo(env, _) => ev.Edited? && ev.author == id && ev.edit.env == env
    case StatusPass => ev.Passed?
  }

  ghost predicate Accounted(s: System)
  {
    (forall id | id in s.clients && s.clients[id].phase.Holding? ::
      AsAsked(id, s.clients[id].request, s.clients[id].phase.ev)) &&
    (forall id | id in s.clients && s.clients[id].request != StatusPass ::
      CommitsOf(s.log, id) == if s.clients[id].phase == Done(Accepted) then 1 else 0) &&
    (forall ev | ev in s.log && ev.Edited? ::
      ev.author in s.clients && AsAsked(ev.author, s.clients[ev.author].request, ev))
  }

  lemma OnReadAsAsked(id: nat, c: Client, app: App, inherited: seq<string>, now: string)
    requires c.phase.Reading?
    ensures OnRead(id, c, app, inherited, now).Holding? ==> AsAsked(id, c.request, OnRead(id, c, app, inherited, now).ev)
    ensures OnRead(id, c, app, inherited, now) != Done(Accepted)
  {
    hide Find, RollbackTag, HasEnvironment;
  }

  lemma CommitsGrow(log: seq<Event>, ev: Event, id: nat)
    ensures CommitsOf(log + [ev], id) == CommitsOf(log, id) + if ev.Edited? && ev.author == id then 1 else 0
  {
    assert (log + [ev])[..|log|] == log;
  }

  lemma NextAccounts(s: System, step: Step)
    requires Accounted(s)
    ensures Accounted(Next(s, step))
  {
    hide Store, Occur, CommitsOf, OnRead;
    var t := Next(s, step);
    match step
    case Read(id, inherited, now) =>
      if id in s.clients && s.clients[id].phase.Reading? {
        OnReadAsAsked(id, s.clients[id], s.app, inherited, now);
      }
    case Write(id) =>
      if id in s.clients && s.clients[id].phase.Holding? {
        var ev := s.clients[id].phase.ev;
        forall j ensures CommitsOf(s.log + [ev], j) == CommitsOf(s.log, j) + if ev.Edited? && ev.author == j then 1 else 0 {
          CommitsGrow(s.log, ev, j);
        }
      }
    case Other =>
      forall j ensures CommitsOf(s.log + [Touched], j) == CommitsOf(s.log, j) {
        CommitsGrow(s.log, Touched, j);
      }
  }

  /** In every interleaving a deploy or rollback is accepted exactly when one edit of its was
      committed, never two, and every committed edit is one somebody asked for. */
  lemma {:induction false} AcceptedIsCommittedOnce(s: System, steps: seq<Step>)
    requires Starting(s)
    ensures Accounted(Run(s, steps))
  {
    if steps != [] {
      AcceptedIsCommittedOnce(s, steps[..|steps| - 1]);
      NextAccounts(Run(s, steps[..|steps| - 1]), steps[|steps| - 1]);
    }
  }

  // ---------- The last committed tag wins ----------

  function EditsOf(log: seq<Event>): seq<Edit>
  {
    if log == [] then []
    else
      var ev := log[|log| - 1];
      if ev.Edited? then EditsOf(log[..|log| - 1]) + [ev.edit] else EditsOf(log[..|log| - 1])
  }

  lemma OccurSpec(app: App, ev: Event)
    ensures Occur(app, ev).spec == if ev.Edited? then Apply(app.spec, ev.edit) else app.spec
    ensures Occur(app, ev).history ==
      if ev.Passed? then Recorded(app.history, app.spec, ev.inherited, ev.now) else app.history
  {
    hide Apply, Recorded;
  }

  lemma {:induction false} SpecIsReplayed(app: App, log: seq<Event>)
    ensures After(app, log).spec == Replay(app.spec, EditsOf(log))
  {
    if log != [] {
      SpecIsReplayed(app, log[..|log| - 1]);
      OccurSpec(After(app, log[..|log| - 1]), log[|log| - 1]);
      var edits := EditsOf(log[..|log| - 1]);
      assert forall e: Edit :: (edits + [e])[..|edits|] == edits;
    }
  }

  /** The app lists its environments, each an object with a name of its own. */
  ghost predicate Listed(spec: Fields)
  {
    "environments" in spec && spec["environments"].List? && DistinctEnvironments(Environments(spec))
  }

  /** Every edit committed, held or to be retried is of an environment the app lists. */
  ghost predicate EditsKnown(start: Fields, s: System)
  {
    Targets(Environments(start), EditsOf(s.log)) &&
    (forall id | id in s.clients && s.clients[id].phase.Holding? && s.clients[id].phase.ev.Edited? ::
      HasEntry(Environments(start), s.clients[id].phase.ev.edit.env)) &&
    (forall id | id in s.clients && Retries(s.clients[id]) :: HasEntry(Environments(start), s.clients[id].request.env))
  }

  predicate Retries(c: Client)
  {
    c.request.DeployTag? && (c.phase.Reading? || c.phase.Holding?) && c.phase.first.Some?
  }

  lemma SameEnvironments(start: App, log: seq<Event>, env: string)
    requires Listed(start.spec) && Targets(Environments(start.spec), EditsOf(log))
    ensures HasEnvironment(After(start, log).spec, env) <==> HasEntry(Environments(start.spec), env)
  {
    var envs := Environments(start.spec);
    SpecIsReplayed(start, log);
    LastTagWins(start.spec, EditsOf(log));
    RetagKeepsNames(envs, EditsOf(log));
    assert Text(env) !in Retag(envs, EditsOf(log));
  }

  lemma OnReadKnown(start: App, s: System, id: nat, inherited: seq<string>, now: string)
    requires Serial(start, s) && Listed(start.spec) && EditsKnown(start.spec, s)
    requires id in s.clients && s.clients[id].phase.Reading?
    ensures var p := OnRead(id, s.clients[id], s.app, inherited, now);
      (p.Holding? && p.ev.Edited? ==> HasEntry(Environments(start.spec), p.ev.edit.env)) &&
      (Retries(s.clients[id].(phase := p)) ==> HasEntry(Environments(start.spec), s.clients[id].request.env))
  {
    hide HasEntry, Find, RollbackTag, After, Replay, DistinctEnvironments;
    var c := s.clients[id];
    if c.request.DeployTag? {
      SameEnvironments(start, s.log, c.request.env);
    } else if c.request.RollbackTo? {
      SameEnvironments(start, s.log, c.request.env);
    }
  }

  lemma EditsGrow(log: seq<Event>, ev: Event)
    ensures EditsOf(log + [ev]) == EditsOf(log) + if ev.Edited? then [ev.edit] else []
  {
    assert (log + [ev])[..|log|] == log;
  }

  /** One client moves on and nothing is committed. */
  lemma KnownAfterMove(start: Fields, s: System, id: nat, p: Phase)
    requires EditsKnown(start, s) && id in s.clients
    requires p.Holding? && p.ev.Edited? ==> HasEntry(Environments(start), p.ev.edit.env)
    requires Retries(s.clients[id].(phase := p)) ==> HasEntry(Environments(start), s.clients[id].request.env)
    ensures EditsKnown(start, s.(clients := s.clients[id := s.clients[id].(phase := p)]))
  {
    hide HasEntry, EditsOf;
  }

  lemma KnownAfterCommit(start: Fields, s: System, t: System, ev: Event)
    requires EditsKnown(start, s) && t.log == s.log + [ev] && t.clients == s.clients
    requires ev.Edited? ==> HasEntry(Environments(start), ev.edit.env)
    ensures EditsKnown(start, t)
  {
    EditsGrow(s.log, ev);
    hide HasEntry, EditsOf;
  }

  lemma OnConflictKeeps(c: Client)
    requires c.phase.Holding?
    ensures !OnConflict(c).Holding? && (Retries(c.(phase := OnConflict(c))) ==> Retries(c))
  {}

  lemma NextEditsKnown(start: App, s: System, step: Step)
    requires Serial(start, s) && Listed(start.spec) && EditsKnown(start.spec, s)
    ensures EditsKnown(start.spec, Next(s, step))
  {
    match step
    case Read(id, inherited, now) =>
      if id in s.clients && s.clients[id].phase.Reading? {
        OnReadKnown(start, s, id, inherited, now);
        hide OnRead, HasEntry, EditsKnown, Serial;
        KnownAfterMove(start.spec, s, id, OnRead(id, s.clients[id], s.app, inherited, now));
      }
    case Write(id) =>
      if id in s.clients && s.clients[id].phase.Holding? {
        hide HasEntry, Serial, Store, OnConflict;
        var c := s.clients[id];
        if c.phase.seen.resourceVersion == s.app.resourceVersion {
          KnownAfterMove(start.spec, s, id, Done(Accepted));
          KnownAfterCommit(start.spec, s.(clients := s.clients[id := c.(phase := Done(Accepted))]), Next(s, step), c.phase.ev);
        } else {
          OnConflictKeeps(c);
          KnownAfterMove(start.spec, s, id, OnConflict(c));
        }
      }
    case Other =>
      hide HasEntry, Serial;
      KnownAfterCommit(start.spec, s, Next(s, step), Touched);
  }

  lemma {:induction false} EveryEditIsKnown(s: System, steps: seq<Step>)
    requires Starting(s) && Listed(s.app.spec)
    ensures EditsKnown(s.app.spec, Run(s, steps))
  {
    if steps != [] {
      EveryEditIsKnown(s, steps[..|steps| - 1]);
      EveryRunIsSerial(s, steps[..|steps| - 1]);
      NextEditsKnown(s.app, Run(s, steps[..|steps| - 1]), steps[|steps| - 1]);
    }
  }

  /** In every interleaving each environment ends at its last committed tag and nothing else in
      the spec moves: no edit of one environment is lost to an edit of another. */
  lemma LastCommittedTagWins(s: System, steps: seq<Step>)
    requires Starting(s) && Listed(s.app.spec)
    ensures var end := Run(s, steps);
      end.app.spec == s.app.spec["environments" := List(Retag(Environments(s.app.spec), EditsOf(end.log)))]
  {
    EveryRunIsSerial(s, steps);
    EveryEditIsKnown(s, steps);
    var log := Run(s, steps).log;
    hide Run, Retag, DistinctEnvironments, Targets, After;
    SpecIsReplayed(s.app, log);
    LastTagWins(s.app.spec, EditsOf(log));
  }

  // ---------- The history over a run ----------

  lemma OccurAppends(app: App, ev: Event)
    ensures app.history <= Occur(app, ev).history
    ensures Consecutive(app.history) ==> Consecutive(Occur(app, ev).history)
  {
    OccurSpec(app, ev);
    if ev.Passed? && ImageIn(app.spec).Some? {
      PassAppends(app.history, ImageIn(app.spec).value, TargetsFor(app.spec, ev.inherited), ev.now);
    }
    hide Occur;
  }

  lemma {:induction false} HistoryOnlyGrows(app: App, log: seq<Event>)
    ensures app.history <= After(app, log).history
    ensures Consecutive(app.history) ==> Consecutive(After(app, log).history)
  {
    if log != [] {
      var before, ev := After(app, log[..|log| - 1]), log[|log| - 1];
      HistoryOnlyGrows(app, log[..|log| - 1]);
      OccurAppends(before, ev);
    }
  }

  lemma RunGrows(s: System, steps: seq<Step>)
    requires Starting(s) && Consecutive(s.app.history)
    ensures Consecutive(Run(s, steps).app.history)
  {
    EveryRunIsSerial(s, steps);
    HistoryOnlyGrows(s.app, Run(s, steps).log);
    hide Consecutive, Run, After;
  }

  lemma LastStepAppends(s: System, steps: seq<Step>, step: Step)
    requires Starting(s)
    ensures Run(s, steps).app.history <= Next(Run(s, steps), step).app.history
  {
    EveryRunIsSerial(s, steps);
    StepAppends(s.app, Run(s, steps), step);
    hide Next, Run, Serial;
  }

  /** In every interleaving the history is append-only and its versions stay consecutive. */
  lemma {:induction false} HistoryIsAppendOnly(s: System, before: seq<Step>, after: seq<Step>)
    requires Starting(s) && Consecutive(s.app.history)
    ensures Run(s, before).app.history <= Run(s, before + after).app.history
    ensures Consecutive(Run(s, before + after).app.history)
    decreases |after|
  {
    hide Next, Starting, Consecutive;
    RunGrows(s, before + after);
    if after == [] {
      assert before + after == before;
    } else {
      var front, step := after[..|after| - 1], after[|after| - 1];
      HistoryIsAppendOnly(s, before, front);
      assert (before + after)[..|before + after| - 1] == before + front;
      LastStepAppends(s, before + front, step);
    }
  }

  lemma StepAppends(start: App, s: System, step: Step)
    requires Serial(start, s)
    ensures s.app.history <= Next(s, step).app.history
    ensures Consecutive(s.app.history) ==> Consecutive(Next(s, step).app.history)
  {
    var t := Next(s, step);
    if t.log != s.log {
      CommitIsOccurrence(start, s, step);
      OccurAppends(s.app, t.log[|s.log|]);
    } else {
      ReadKeepsApp(s, step);
    }
  }

  lemma ReadKeepsApp(s: System, step: Step)
    requires Next(s, step).log == s.log
    ensures Next(s, step).app == s.app
  {
    hide Store, OnRead, OnConflict;
    assert |Next(s, step).log| == |s.log|;
  }

  // ---------- What a pass leaves ----------

  lemma DistinctNamesAgree(app: ImageConfig, spec: Fields, inherited: seq<string>)
    requires Environments(spec) == [] || DistinctEnvironments(Environments(spec))
    ensures NamesAgree(app, TargetsFor(spec, inherited))
  {
    var targets := TargetsFor(spec, inherited);
    forall s, t | s in targets && t in targets && s.name == t.name
      ensures ResolveImage(Some(app), s.image) == ResolveImage(Some(app), t.image)
    {
      if Environments(spec) == [] {
        assert s.image == None && t.image == None;
      } else {
        var i :| 0 <= i < |targets| && targets[i] == s;
        var j :| 0 <= j < |targets| && targets[j] == t;
        assert NameOf(Environments(spec)[i]) == s.name && NameOf(Environments(spec)[j]) == t.name;
      }
    }
  }

  /** After a pass the last record of every environment is the image it runs, and a repeated
      pass records nothing. */
  lemma PassSettles(app: App, inherited: seq<string>, now: string, later: string)
    requires Environments(app.spec) == [] || DistinctEnvironments(Environments(app.spec))
    requires ImageIn(app.spec).Some?
    ensures var after := Occur(app, Passed(inherited, now));
      UpToDate(after.history, ImageIn(app.spec).value, TargetsFor(app.spec, inherited)) &&
      Occur(after, Passed(inherited, later)).history == after.history
  {
    var image, targets := ImageIn(app.spec).value, TargetsFor(app.spec, inherited);
    DistinctNamesAgree(image, app.spec, inherited);
    PassIsUpToDate(app.history, image, targets, now);
    RepeatedPass(app.history, image, targets, now, later);
    OccurSpec(app, Passed(inherited, now));
    OccurSpec(Occur(app, Passed(inherited, now)), Passed(inherited, later));
    hide Occur, RecordAll, UpToDate, NamesAgree, TargetsFor;
  }

  // ---------- What a rollback leaves ----------

  lemma WithTagDecodes(v: Value, tag: string)
    requires v.Dict?
    ensures ImageIn(WithTag(v, tag).fields) ==
      Some(ImageConfig(if ImageIn(v.fields).Some? then ImageIn(v.fields).value.repository else "", tag))
  {
    assert "repository" != "tag";
  }

  lemma EditAt(spec: Fields, e: Edit, k: nat)
    requires Listed(spec) && k < |Environments(spec)| && IsNamed(Environments(spec)[k], e.env)
    ensures Apply(spec, e) == spec["environments" := List(Environments(spec)[k := WithTag(Environments(spec)[k], e.tag)])]
  {
    assert Environments(spec)[k] in Environments(spec);
    SetTagAt(Environments(spec), e.env, e.tag, k);
  }

  /** A committed rollback makes its environment run the recorded image exactly when the
      environment's repository is the recorded one, and changes what no other runs. */
  lemma RollbackRuns(app: App, author: nat, env: string, image: string, k: nat)
    requires Listed(app.spec) && k < |Environments(app.spec)| && IsNamed(Environments(app.spec)[k], env)
    requires ImageIn(app.spec).Some? && RollbackTag(image) != ""
    ensures var after := Occur(app, Edited(author, RollbackEdit(env, image))).spec;
      |Environments(after)| == |Environments(app.spec)| &&
      (Running(after, k) == image <==>
        RecordedRepository(image) == Some(RepositoryOf(ImageIn(app.spec).value, TargetOf(Environments(app.spec)[k]).image))) &&
      forall j | 0 <= j < |Environments(after)| && j != k :: Running(after, j) == Running(app.spec, j)
  {
    var e, v := RollbackEdit(env, image), Environments(app.spec)[k];
    OccurSpec(app, Edited(author, e));
    EditAt(app.spec, e, k);
    WithTagDecodes(v, e.tag);
    assert ImageIn(Apply(app.spec, e)) == ImageIn(app.spec);
    RollbackRestores(ImageIn(app.spec).value, TargetOf(WithTag(v, e.tag)).image.value, image);
    hide Occur, Apply, WithTag, RollbackTag, RecordedRepository, ResolveImage;
  }

  // ---------- Tags without ':' over a run ----------

  predicate PlainImage(image: Option<ImageConfig>) { image.Some? ==> ':' !in image.value.tag }

  ghost predicate PlainTags(spec: Fields)
  {
    PlainImage(ImageIn(spec)) && forall v | v in Environments(spec) && v.Dict? :: PlainImage(ImageIn(v.fields))
  }

  /** A record whose tag a rollback can find again. */
  predicate Restorable(r: Record) { RollbackTag(r.image) != "" }

  ghost predicate Plain(app: App) { PlainTags(app.spec) && forall r | r in app.history :: Restorable(r) }

  predicate PlainEdit(ev: Event) { ev.Edited? ==> ':' !in ev.edit.tag }

  lemma {:induction false} SetTagStaysPlain(envs: seq<Value>, env: string, tag: string)
    requires ':' !in tag && forall v | v in envs && v.Dict? :: PlainImage(ImageIn(v.fields))
    ensures forall v | v in SetTag(envs, env, tag) && v.Dict? :: PlainImage(ImageIn(v.fields))
  {
    if envs != [] {
      assert forall v | v in envs[1..] :: v in envs;
      SetTagStaysPlain(envs[1..], env, tag);
      if IsNamed(envs[0], env) { WithTagDecodes(envs[0], tag); }
    }
  }

  lemma EditStaysPlain(spec: Fields, e: Edit)
    requires PlainTags(spec) && ':' !in e.tag
    ensures PlainTags(Apply(spec, e))
  {
    SetTagStaysPlain(Environments(spec), e.env, e.tag);
    if HasEntry(Environments(spec), e.env) {
      assert ImageIn(Apply(spec, e)) == ImageIn(spec);
    } else {
      assert Environments(Apply(spec, e)) == Environments(spec);
      assert ImageIn(Apply(spec, e)).value.tag == e.tag;
    }
  }

  lemma PlainIsRestorable(app: ImageConfig, t: Target)
    requires ':' !in app.tag && PlainImage(t.image)
    ensures RollbackTag(ResolveImage(Some(app), t.image)) == TagOf(app, t.image) != ""
    ensures RecordedRepository(ResolveImage(Some(app), t.image)) == Some(RepositoryOf(app, t.image))
  {
    ImageIsRepositoryAndTag(app, t.image);
    RecordedParts(RepositoryOf(app, t.image), TagOf(app, t.image));
  }

  lemma {:induction false} PassStaysRestorable(history: seq<Record>, app: ImageConfig, targets: seq<Target>, now: string)
    requires ':' !in app.tag && (forall t | t in targets :: PlainImage(t.image))
    requires forall r | r in history :: Restorable(r)
    ensures forall r | r in RecordAll(history, app, targets, now) :: Restorable(r)
  {
    if targets != [] {
      var t := targets[|targets| - 1];
      assert t in targets && forall s | s in targets[..|targets| - 1] :: s in targets;
      PassStaysRestorable(history, app, targets[..|targets| - 1], now);
      PlainIsRestorable(app, t);
      hide ResolveImage, RollbackTag;
    }
  }

  lemma OccurStaysPlain(app: App, ev: Event)
    requires Plain(app) && PlainEdit(ev)
    ensures Plain(Occur(app, ev))
  {
    OccurSpec(app, ev);
    if ev.Edited? {
      EditStaysPlain(app.spec, ev.edit);
    } else if ev.Passed? && ImageIn(app.spec).Some? {
      var targets := TargetsFor(app.spec, ev.inherited);
      forall t | t in targets ensures PlainImage(t.image) {
        if Environments(app.spec) != [] {
          var i :| 0 <= i < |targets| && targets[i] == t;
          assert Environments(app.spec)[i] in Environments(app.spec);
        }
      }
      PassStaysRestorable(app.history, ImageIn(app.spec).value, targets, ev.now);
    }
    hide Occur, Apply, PlainTags, TargetsFor;
  }

  predicate PlainRequest(r: Request) { r.DeployTag? ==> ':' !in r.tag }

  ghost predicate StaysPlain(s: System)
  {
    Plain(s.app) && (forall id | id in s.clients :: PlainRequest(s.clients[id].request)) &&
    forall id | id in s.clients && s.clients[id].phase.Holding? :: PlainEdit(s.clients[id].phase.ev)
  }

  lemma OnReadPlain(id: nat, c: Client, app: App, inherited: seq<string>, now: string)
    requires c.phase.Reading? && PlainRequest(c.request)
    ensures var p := OnRead(id, c, app, inherited, now); p.Holding? ==> PlainEdit(p.ev)
  {
    if c.request.RollbackTo? {
      var found := Find(app.history, c.request.version, c.request.env);
      if found.Image? { RollbackTagIsPlain(found.image); }
    }
    hide HasEnvironment, Find, RollbackTag;
  }

  lemma NextStaysPlain(start: App, s: System, step: Step)
    requires Serial(start, s) && StaysPlain(s)
    ensures StaysPlain(Next(s, step))
  {
    if Next(s, step).log != s.log {
      CommitIsOccurrence(start, s, step);
      assert PlainEdit(Next(s, step).log[|s.log|]);
      OccurStaysPlain(s.app, Next(s, step).log[|s.log|]);
    } else {
      ReadKeepsApp(s, step);
    }
    if step.Read? && step.client in s.clients && s.clients[step.client].phase.Reading? {
      OnReadPlain(step.client, s.clients[step.client], s.app, step.inherited, step.now);
    }
    hide OnRead, Store, Occur, Plain, PlainEdit, PlainRequest, Serial;
  }

  lemma {:induction false} RunStaysPlain(s: System, steps: seq<Step>)
    requires Starting(s) && StaysPlain(s)
    ensures StaysPlain(Run(s, steps))
  {
    if steps != [] {
      RunStaysPlain(s, steps[..|steps| - 1]);
      EveryRunIsSerial(s, steps[..|steps| - 1]);
      NextStaysPlain(s.app, Run(s, steps[..|steps| - 1]), steps[|steps| - 1]);
    }
  }

  lemma RunStaysListed(s: System, steps: seq<Step>)
    requires Starting(s) && Listed(s.app.spec)
    ensures Listed(Run(s, steps).app.spec) && ImageIn(Run(s, steps).app.spec) == ImageIn(s.app.spec)
    ensures forall env :: HasEntry(Environments(Run(s, steps).app.spec), env) <==> HasEntry(Environments(s.app.spec), env)
  {
    var edits := EditsOf(Run(s, steps).log);
    LastCommittedTagWins(s, steps);
    RetagKeepsNames(Environments(s.app.spec), edits);
    hide Run, Retag, DistinctEnvironments, HasEntry;
  }

  /** After any run of deploys, rollbacks and passes of an app with an image, rolling an
      environment back to one of its recorded versions makes it run that record's image, exactly
      when the repository it runs is still the recorded one; and no other environment changes. */
  lemma RollbackRestoresItsRecord(s: System, steps: seq<Step>, r: nat, author: nat, env: string, k: nat)
    requires Starting(s) && StaysPlain(s) && Listed(s.app.spec) && ImageIn(s.app.spec).Some? && Consecutive(s.app.history)
    requires var end := Run(s, steps).app;
      r < |end.history| && end.history[r].environment in {"", env} &&
      k < |Environments(end.spec)| && IsNamed(Environments(end.spec)[k], env)
    ensures var end := Run(s, steps).app;
      var record := end.history[r];
      var after := Occur(end, Edited(author, RollbackEdit(env, record.image))).spec;
      Find(end.history, record.version, env) == Image(record.image) &&
      |Environments(after)| == |Environments(end.spec)| && ImageIn(end.spec).Some? &&
      (Running(after, k) == record.image <==>
        RecordedRepository(record.image) ==
        Some(RepositoryOf(ImageIn(end.spec).value, TargetOf(Environments(end.spec)[k]).image))) &&
      forall j | 0 <= j < |Environments(after)| && j != k :: Running(after, j) == Running(end.spec, j)
  {
    var end := Run(s, steps).app;
    var record := end.history[r];
    RunStaysListed(s, steps);
    RunStaysPlain(s, steps);
    EveryRunIsSerial(s, steps);
    HistoryOnlyGrows(s.app, Run(s, steps).log);
    FindsTheRecord(end.history, r, env);
    assert record in end.history && Restorable(record);
    assert record.image != "";
    RollbackRuns(end, author, env, record.image, k);
    hide *;
  }

  // ---------- A client that nothing disturbs ----------

  /** A client that reads and writes with nothing between commits what was asked for, or is told at
      once why not. A deploy that was let through once is not looked at again, and keeps the
      repository it saw then. */
  lemma UndisturbedClientCommits(s: System, id: nat, inherited: seq<string>, now: string)
    requires id in s.clients && s.clients[id].phase.Reading?
    ensures var first, end := s.clients[id].phase.first, Next(Next(s, Read(id, inherited, now)), Write(id));
      id in end.clients &&
      match s.clients[id].request
      case DeployTag(env, tag) =>
        var reply := if first.None? then Checked(s.app.spec, env, tag) else Accepted;
        end.clients[id].phase == Done(reply) &&
        end.app ==
          if reply != Accepted then s.app
          else Occur(s.app, Edited(id, DeployEdit(if first.None? then s.app.spec else first.value, env, tag)))
      case RollbackTo(env, version) =>
        var found := Find(s.app.history, version, env);
        if !HasEnvironment(s.app.spec, env) then end.clients[id].phase == Done(BadEnvironment) && end.app == s.app
        else if found.Image? then
          end.clients[id].phase == Done(Accepted) && end.app == Occur(s.app, Edited(id, RollbackEdit(env, found.image)))
        else end.clients[id].phase == Done(NoSuchVersion) && end.app == s.app
      case StatusPass => end.clients[id].phase == Done(Accepted) && end.app == Occur(s.app, Passed(inherited, now))
  {
    hide Checked, HasEnvironment, Find, DeployEdit, RollbackEdit, Store;
    var c := s.clients[id];
    var t := Next(s, Read(id, inherited, now));
    assert t.clients[id].phase == OnRead(id, c, s.app, inherited, now) && t.app == s.app;
  }

  /** No write undoes another: a client whose copy anything has changed since commits nothing. */
  lemma WritesAreNotLost(s: System, id: nat, ev: Event)
    requires id in s.clients && s.clients[id].phase.Holding? && NotAhead(s.clients[id].phase.seen, s.app)
    ensures var t := s.(app := Occur(s.app, ev));
      t.app != s.app ==> Next(t, Write(id)).app == t.app && Next(t, Write(id)).clients[id].phase != Done(Accepted)
  {
    WritesAreSeen(s.app, ev);
    hide Store, OnConflict;
    ConflictIsNoReply(s.clients[id]);
  }

  lemma ConflictIsNoReply(c: Client)
    requires c.phase.Holding?
    ensures OnConflict(c) != Done(Accepted)
  {}

  /** A deploy that meets a conflict reads again, for the repository it saw first, up to its fifth
      attempt; a rollback has one. */
  lemma ConflictsAreRetried(s: System, id: nat)
    requires id in s.clients && s.clients[id].phase.Holding?
    requires s.clients[id].phase.seen.resourceVersion != s.app.resourceVersion
    ensures var was, end := s.clients[id].phase, Next(s, Write(id));
      end.app == s.app && end.log == s.log &&
      end.clients[id].phase ==
        match s.clients[id].request
        case DeployTag(_, _) => if was.tries < 4 then Reading(was.tries + 1, was.first) else Done(Failed)
        case RollbackTo(_, _) => Done(Failed)
        case StatusPass => Reading(was.tries + 1, None)
  {
    hide Store;
  }
}
