/** Calls on second factors that overlap in any way: each advances one database statement at a
    time, and the statements of all of them interleave. */
module Overlap {
  import opened Json
  import opened Text
  import opened Factors

  /** Where a call stands between its statements. */
  datatype Phase =
    | Start
    | SawApp(app: bool)
    | MustSpend
    | Act(proof: Proof)
    | Inserting(origin: Origin)
    | Confirming
    | Counting
    | Issuing
    | Challenging
    | Granting
    | Clearing
    | ClearSaw(app: bool)
    | DropCodes
    | Done(ok: bool)

  datatype Thread = Thread(request: Request, phase: Phase)

  datatype Spend = Spend(call: nat, grant: nat, user: nat, at: int)

  /** The tables and what has happened: the grants handed out, the ones spent, the calls that
      changed what only a grant or an account without a factor opens, the recovery codes accepted. */
  datatype System = System(
    t: Tables,
    threads: map<nat, Thread>,
    issued: map<nat, Grant>,
    spends: seq<Spend>,
    changes: set<nat>,
    accepted: seq<nat>)

  /** What one statement of a call does. */
  datatype Effect = Effect(t: Tables, phase: Phase, spent: bool, accepted: bool, issued: bool)

  function Quiet(t: Tables, phase: Phase): Effect { Effect(t, phase, false, false, false) }

  predicate AddsFactor(op: Op) { op.EnrollTotp? || op.BeginRegistration? }

  predicate Removes(op: Op) { op.DisableTotp? || op.RemovePasskey? }

  /** What only a grant opens, or for a new factor an account without any. */
  predicate Protected(op: Op) { AddsFactor(op) || Removes(op) || op.RegenerateCodes? || op.ResetOther? }

  /** The guard of a removal, from the two statements that read the factors. */
  predicate GuardSeen(app: bool, passkeys: set<nat>, op: Op, required: bool)
  {
    required ==>
      if op.RemovePasskey? then app || passkeys - {op.id} != {} else passkeys != {}
  }

  /** The second statement of a listing, and what the call decides on it. */
  function Decide(t: Tables, r: Request, app: bool): Effect
  {
    var passkeys := Passkeys(t, r.user);
    Quiet(t,
      if Removes(r.op) then if GuardSeen(app, passkeys, r.op, r.Required()) then MustSpend else Done(false)
      else if app || passkeys != {} then MustSpend
      else if AddsFactor(r.op) then Act(NoFactor)
      else Done(false))
  }

  function Change(t: Tables, call: nat, r: Request, proof: Proof): Effect
  {
    match r.op
    case DisableTotp => Quiet(DeleteTotp(t, r.user), Clearing)
    case RemovePasskey(id) =>
      var (u, ok) := DeleteCredential(t, r.user, id);
      Quiet(u, if ok then Clearing else Done(false))
    case RegenerateCodes => Quiet(ReplaceCodes(t, r.user), Done(true))
    case ResetOther(target) => Quiet(ResetUser(t, target), Done(true))
    case EnrollTotp =>
      var (u, ok) := UpsertPendingTotp(t, r.user);
      Quiet(u, Done(ok))
    case BeginRegistration =>
      var (u, id) := CreateSession(t, r.user, "register", Origin(call, proof));
      Quiet(u, Done(id.Some?))
    case _ => Quiet(t, Done(false))
  }

  function Begin(t: Tables, r: Request): Effect
  {
    match r.op
    case ReauthPassword(valid) =>
      if valid then Effect(CreateGrant(t, r.user, "password"), Done(true), false, false, true) else Quiet(t, Done(false))
    case BeginReauth => Quiet(t, if Passkeys(t, r.user) == {} then Done(false) else Challenging)
    case FinishReauth(session, valid) =>
      var (u, taken) := TakeSession(t, session, r.user, "reauth");
      Quiet(u, if taken.Some? && valid then Granting else Done(false))
    case ResetOther(target) => Quiet(t, if target == r.user || target !in t.users then Done(false) else MustSpend)
    case FinishRegistration(session, valid) =>
      var (u, taken) := TakeSession(t, session, r.user, "register");
      Quiet(u, if taken.Some? && valid then Inserting(taken.value.origin) else Done(false))
    case ConfirmEnrollment(valid, _) => Quiet(t, if Pending(t, r.user) && valid then Confirming else Done(false))
    case UseCode(row) =>
      var (u, ok) := ConsumeCode(t, r.user, row);
      Effect(u, Done(ok), false, ok, false)
    case _ => Quiet(t, SawApp(HasAuthenticator(t, r.user)))
  }

  /** The next statement of a call. */
  function Advance(t: Tables, call: nat, th: Thread): Effect
  {
    var r := th.request;
    match th.phase
    case Start => Begin(t, r)
    case SawApp(app) => Decide(t, r, app)
    case MustSpend =>
      if r.grant.None? then Quiet(t, Done(false))
      else
        var (u, ok) := TakeGrant(t, r.grant.value, r.user);
        if ok then Effect(u, Act(Spent(r.grant.value)), true, false, false) else Quiet(u, Done(false))
    case Act(proof) => Change(t, call, r, proof)
    case Inserting(origin) => Quiet(InsertCredential(t, r.user, origin), Counting)
    case Confirming => Quiet(ConfirmTotp(t, r.user, if r.op.ConfirmEnrollment? then r.op.counter else 0), Issuing)
    case Counting => Quiet(t, if UnusedCodes(t, r.user) == {} then Issuing else Done(true))
    case Issuing => Quiet(ReplaceCodes(t, r.user), Done(true))
    case Challenging =>
      var (u, id) := CreateSession(t, r.user, "reauth", Origin(call, NoFactor));
      Quiet(u, Done(id.Some?))
    case Granting => Effect(CreateGrant(t, r.user, "webauthn"), Done(true), false, false, true)
    case Clearing => Quiet(t, ClearSaw(HasAuthenticator(t, r.user)))
    case ClearSaw(app) => Quiet(t, if app || Passkeys(t, r.user) != {} then Done(true) else DropCodes)
    case DropCodes => Quiet(DeleteCodes(t, r.user), Done(true))
    case Done(ok) => Quiet(t, Done(ok))
  }

  datatype Step = Run(call: nat) | Wait(seconds: nat) | Purge

  function Purged(t: Tables): Tables
  {
    t.(grants := map k | k in t.grants && t.grants[k].expires > t.now :: t.grants[k],
       sessions := map k | k in t.sessions && t.sessions[k].expires > t.now :: t.sessions[k])
  }

  predicate SameButGrants(t: Tables, u: Tables) { u == t.(grants := u.grants, next := u.next) }

  /** A protected call is among the changes once a statement of it altered any table but the
      grants. */
  function Record(s: System, call: nat, e: Effect): System
    requires call in s.threads
  {
    var th := s.threads[call];
    var r := th.request;
    System(e.t, s.threads[call := th.(phase := e.phase)],
           if e.issued && s.t.next in e.t.grants then s.issued[s.t.next := e.t.grants[s.t.next]] else s.issued,
           if e.spent && r.grant.Some? then s.spends + [Spend(call, r.grant.value, r.user, s.t.now)] else s.spends,
           if Protected(r.op) && !SameButGrants(s.t, e.t) then s.changes + {call} else s.changes,
           if e.accepted && r.op.UseCode? then s.accepted + [r.op.row] else s.accepted)
  }

  function Next(s: System, step: Step): System
  {
    match step
    case Run(call) => if call in s.threads then Record(s, call, Advance(s.t, call, s.threads[call])) else s
    case Wait(seconds) => s.(t := s.t.(now := s.t.now + seconds))
    case Purge => s.(t := Purged(s.t))
  }

  function RunAll(s: System, steps: seq<Step>): System
  {
    if steps == [] then s else Next(RunAll(s, steps[..|steps| - 1]), steps[|steps| - 1])
  }

  /** A purge takes every grant and session that has expired, and none that could still be used. */
  lemma PurgeTakesTheExpired(t: Tables, id: nat, user: nat, purpose: string)
    ensures var u := Purged(t);
      u == t.(grants := u.grants, sessions := u.sessions) &&
      (id in u.grants <==> id in t.grants && t.grants[id].expires > t.now) &&
      (id in u.sessions <==> id in t.sessions && t.sessions[id].expires > t.now) &&
      (Takeable(u, id, user) <==> Takeable(t, id, user)) &&
      TakeSession(u, id, user, purpose).1 == TakeSession(t, id, user, purpose).1
  {}

  // ---------- Grants ----------

  /** Nothing has happened yet; what the tables hold of grants is what was issued. */
  ghost predicate Starting(s: System)
  {
    (forall c | c in s.threads :: s.threads[c].phase == Start) &&
    s.issued == s.t.grants && s.spends == [] && s.changes == {} && s.accepted == [] &&
    (forall k | k in s.t.grants :: k < s.t.next) && Fresh(s.t)
  }

  /** Every grant in the table was issued as it is there, and was not spent. */
  ghost predicate GrantsKept(s: System)
  {
    (forall g | g in s.issued :: g < s.t.next) &&
    (forall g | g in s.t.grants :: g in s.issued && s.issued[g] == s.t.grants[g]) &&
    (forall p | p in s.spends :: p.grant !in s.t.grants)
  }

  /** Every spend was of a grant issued to the spender, before it expired, and no grant was spent
      twice. */
  ghost predicate SpendsFair(s: System)
  {
    (forall p | p in s.spends :: p.grant in s.issued && s.issued[p.grant].owner == p.user && p.at < s.issued[p.grant].expires) &&
    forall i, j | 0 <= i < j < |s.spends| :: s.spends[i].grant != s.spends[j].grant
  }

  /** What a statement may do to the grants: drop some, add one it issues, spend the one that
      came with the call. */
  ghost predicate GrantEffect(t: Tables, th: Thread, e: Effect)
  {
    e.t.next >= t.next && e.t.now == t.now &&
    (forall g | g in e.t.grants && g in t.grants :: e.t.grants[g] == t.grants[g]) &&
    (if e.issued then e.t.grants.Keys == t.grants.Keys + {t.next} && e.t.next > t.next && !e.spent
     else e.t.grants.Keys <= t.grants.Keys) &&
    (e.spent ==> SpendsOwn(t, th, e))
  }

  ghost predicate SpendsOwn(t: Tables, th: Thread, e: Effect)
  {
    th.request.grant.Some? && th.phase == MustSpend && e.phase == Act(Spent(th.request.grant.value)) &&
    Takeable(t, th.request.grant.value, th.request.user) && th.request.grant.value !in e.t.grants
  }

  /** Most statements add no grant and spend none: they leave the grants alone or drop some. */
  ghost predicate DropsGrants(t: Tables, u: Tables)
  {
    u.next >= t.next && u.now == t.now && u.grants.Keys <= t.grants.Keys && forall g | g in u.grants :: u.grants[g] == t.grants[g]
  }

  lemma PlainGrants(t: Tables, th: Thread, e: Effect)
    requires DropsGrants(t, e.t) && !e.spent && !e.issued
    ensures GrantEffect(t, th, e)
  {}

  lemma CodeGrants(t: Tables, user: nat, origin: Origin, counter: nat)
    ensures DropsGrants(t, InsertCredential(t, user, origin)) && DropsGrants(t, ConfirmTotp(t, user, counter))
    ensures DropsGrants(t, ReplaceCodes(t, user)) && DropsGrants(t, DeleteCodes(t, user))
  {}

  lemma FactorGrants(t: Tables, user: nat, id: nat, origin: Origin)
    ensures DropsGrants(t, DeleteTotp(t, user)) && DropsGrants(t, DeleteCredential(t, user, id).0)
    ensures DropsGrants(t, UpsertPendingTotp(t, user).0) && DropsGrants(t, CreateSession(t, user, "register", origin).0)
    ensures DropsGrants(t, ResetUser(t, user)) && DropsGrants(t, t)
  {}

  lemma SessionGrants(t: Tables, user: nat, origin: Origin)
    ensures DropsGrants(t, CreateSession(t, user, "reauth", origin).0)
  {}

  lemma CreatedGrants(t: Tables, th: Thread, user: nat, how: string, phase: Phase)
    requires forall g | g in t.grants :: g < t.next
    ensures GrantEffect(t, th, Effect(CreateGrant(t, user, how), phase, false, false, true))
  {
    assert CreateGrant(t, user, how).grants.Keys == t.grants.Keys + {t.next};
  }

  lemma BeginGrants(t: Tables, th: Thread)
    requires forall g | g in t.grants :: g < t.next
    ensures GrantEffect(t, th, Begin(t, th.request))
  {
    if th.request.op.ReauthPassword? && th.request.op.valid {
      CreatedGrants(t, th, th.request.user, "password", Done(true));
    } else {
      BeginDropsGrants(t, th.request);
      PlainGrants(t, th, Begin(t, th.request));
    }
  }

  lemma BeginDropsGrants(t: Tables, r: Request)
    requires r.op.ReauthPassword? ==> !r.op.valid
    ensures DropsGrants(t, Begin(t, r).t) && !Begin(t, r).spent && !Begin(t, r).issued
  {
    hide HasAuthenticator, Pending, Passkeys;
  }

  lemma ChangeDropsGrants(t: Tables, call: nat, r: Request, proof: Proof)
    ensures DropsGrants(t, Change(t, call, r, proof).t) && !Change(t, call, r, proof).spent && !Change(t, call, r, proof).issued
  {
    hide DropsGrants, ReplaceCodes, DeleteTotp, DeleteCredential, UpsertPendingTotp, CreateSession, ResetUser;
    match r.op
    case RegenerateCodes => CodeGrants(t, r.user, Origin(call, proof), 0);
    case RemovePasskey(id) => FactorGrants(t, r.user, id, Origin(call, proof));
    case ResetOther(target) => FactorGrants(t, target, 0, Origin(call, proof));
    case _ => FactorGrants(t, r.user, 0, Origin(call, proof));
  }

  lemma SpendGrants(t: Tables, call: nat, th: Thread)
    requires th.phase.MustSpend?
    ensures GrantEffect(t, th, Advance(t, call, th))
  {}

  lemma DecideDropsGrants(t: Tables, r: Request, app: bool)
    ensures DropsGrants(t, Decide(t, r, app).t) && !Decide(t, r, app).spent && !Decide(t, r, app).issued
  {
    hide Passkeys, GuardSeen;
  }

  lemma PlainDropsGrants(t: Tables, call: nat, th: Thread)
    requires !th.phase.Start? && !th.phase.MustSpend? && !th.phase.Act? && !th.phase.Granting?
    ensures var e := Advance(t, call, th); DropsGrants(t, e.t) && !e.spent && !e.issued
  {
    assert DropsGrants(t, t);
    hide Decide, DropsGrants, HasAuthenticator, Passkeys, UnusedCodes, InsertCredential, ConfirmTotp, ReplaceCodes, DeleteCodes,
         CreateSession;
    var r := th.request;
    if th.phase.SawApp? {
      DecideDropsGrants(t, r, th.phase.app);
    } else if th.phase.Challenging? {
      SessionGrants(t, r.user, Origin(call, NoFactor));
    } else {
      CodeGrants(t, r.user, if th.phase.Inserting? then th.phase.origin else Origin(0, NoFactor),
                 if r.op.ConfirmEnrollment? then r.op.counter else 0);
    }
  }

  lemma StatementGrants(t: Tables, call: nat, th: Thread)
    requires forall g | g in t.grants :: g < t.next
    ensures GrantEffect(t, th, Advance(t, call, th))
  {
    hide GrantEffect, DropsGrants, Begin, Change, Decide;
    if th.phase.Start? {
      BeginGrants(t, th);
    } else if th.phase.MustSpend? {
      SpendGrants(t, call, th);
    } else if th.phase.Granting? {
      CreatedGrants(t, th, th.request.user, "webauthn", Done(true));
    } else {
      if th.phase.Act? {
        ChangeDropsGrants(t, call, th.request, th.phase.proof);
      } else {
        PlainDropsGrants(t, call, th);
      }
      PlainGrants(t, th, Advance(t, call, th));
    }
  }

  lemma NextGrants(s: System, step: Step)
    requires GrantsKept(s) && SpendsFair(s)
    ensures GrantsKept(Next(s, step)) && SpendsFair(Next(s, step))
  {
    if step.Run? && step.call in s.threads {
      StatementGrants(s.t, step.call, s.threads[step.call]);
      RecordGrants(s, step.call, Advance(s.t, step.call, s.threads[step.call]));
    }
    hide Advance, Record;
  }

  lemma RecordGrants(s: System, call: nat, e: Effect)
    requires GrantsKept(s) && SpendsFair(s) && call in s.threads && GrantEffect(s.t, s.threads[call], e)
    ensures GrantsKept(Record(s, call, e)) && SpendsFair(Record(s, call, e))
  {
    var u := Record(s, call, e);
    forall p | p in u.spends ensures p in s.spends || (e.spent && p == u.spends[|s.spends|]) {}
    forall i, j | 0 <= i < j < |u.spends| ensures u.spends[i].grant != u.spends[j].grant {
      assert u.spends[i] in s.spends;
    }
  }

  /** In every interleaving each grant is spent at most once, by its owner, before it expires. */
  lemma {:induction false} GrantsAreSpentOnce(s: System, steps: seq<Step>)
    requires Starting(s)
    ensures GrantsKept(RunAll(s, steps)) && SpendsFair(RunAll(s, steps))
  {
    if steps != [] {
      GrantsAreSpentOnce(s, steps[..|steps| - 1]);
      NextGrants(RunAll(s, steps[..|steps| - 1]), steps[|steps| - 1]);
      hide Next;
    }
  }

  // ---------- What a call has shown before it changes anything ----------

  /** The phases before a grant can be spent. */
  predicate Early(p: Phase) { p.Start? || p.SawApp? || p.MustSpend? }

  /** Past the gate, and not turned away. */
  predicate Passed(p: Phase) { !Early(p) && p != Done(false) }

  ghost predicate HasSpend(s: System, call: nat, grant: nat)
  {
    exists p :: p in s.spends && p.call == call && p.grant == grant
  }

  /** Each spend belongs to one call, that named the grant. */
  ghost predicate SpendsByCall(s: System)
  {
    (forall p | p in s.spends ::
      p.call in s.threads && !Early(s.threads[p.call].phase) &&
      s.threads[p.call].request.grant == Some(p.grant) && s.threads[p.call].request.user == p.user) &&
    (forall i, j | 0 <= i < j < |s.spends| :: s.spends[i].call != s.spends[j].call) &&
    forall c | c in s.threads && s.threads[c].phase.Act? && s.threads[c].phase.proof.Spent? ::
      HasSpend(s, c, s.threads[c].phase.proof.grant)
  }

  /** A statement of the call, in the run, read that its user had no confirmed authenticator. */
  ghost predicate SawNoApp(s: System, steps: seq<Step>, call: nat)
    requires call in s.threads
  {
    exists i | 0 <= i < |steps| ::
      steps[i] == Run(call) && !HasAuthenticator(RunAll(s, steps[..i]).t, s.threads[call].request.user)
  }

  /** And a later one that they had no passkey. */
  ghost predicate SawNone(s: System, steps: seq<Step>, call: nat)
    requires call in s.threads
  {
    exists i, j | 0 <= i < j < |steps| ::
      steps[i] == Run(call) && !HasAuthenticator(RunAll(s, steps[..i]).t, s.threads[call].request.user) &&
      steps[j] == Run(call) && Passkeys(RunAll(s, steps[..j]).t, s.threads[call].request.user) == {}
  }

  ghost function Bare(s: System, steps: seq<Step>): set<nat>
  {
    set c | c in s.threads && SawNoApp(s, steps, c)
  }

  /** The calls for a new factor that read, in the run, an account without any. */
  ghost function Blank(s: System, steps: seq<Step>): set<nat>
  {
    set c | c in s.threads && AddsFactor(s.threads[c].request.op) && SawNone(s, steps, c)
  }

  /** What a call that listed the factors holds of them is what it read. */
  ghost predicate ReadsShown(s: System, bare: set<nat>, blank: set<nat>)
  {
    forall c | c in s.threads ::
      (s.threads[c].phase == SawApp(false) ==> c in bare) && (s.threads[c].phase == Act(NoFactor) ==> c in blank)
  }

  ghost predicate HasSpent(s: System, call: nat) { exists g :: HasSpend(s, call, g) }

  /** The call spent a grant, or it adds a factor and read an account without any. */
  ghost predicate Shown(s: System, blank: set<nat>, call: nat) { HasSpent(s, call) || call in blank }

  /** No protected call is past its gate, and none changed anything, without having shown that. */
  ghost predicate GatesShown(s: System, blank: set<nat>)
  {
    (forall c | c in s.threads && Protected(s.threads[c].request.op) && Passed(s.threads[c].phase) :: Shown(s, blank, c)) &&
    forall c | c in s.changes :: c in s.threads && Shown(s, blank, c)
  }

  /** How a call moves from phase to phase. */
  ghost predicate PhaseEffect(t: Tables, th: Thread, e: Effect)
  {
    (!Early(th.phase) ==> !Early(e.phase) && !e.phase.Act?) &&
    (e.spent ==> th.phase.MustSpend? && th.request.grant.Some? && e.phase == Act(Spent(th.request.grant.value))) &&
    (e.phase.Act? && e.phase.proof.Spent? ==> e.spent) &&
    (e.phase == SawApp(false) ==> !HasAuthenticator(t, th.request.user)) &&
    (e.phase == Act(NoFactor) ==>
      th.phase == SawApp(false) && Passkeys(t, th.request.user) == {} && AddsFactor(th.request.op)) &&
    (Protected(th.request.op) ==> GateEffect(t, th, e))
  }

  /** A protected call passes its gate by way of Act, and before that changes only grants. */
  ghost predicate GateEffect(t: Tables, th: Thread, e: Effect)
  {
    (Passed(e.phase) ==> Passed(th.phase) || e.phase.Act?) && (!SameButGrants(t, e.t) ==> Passed(th.phase))
  }

  lemma StatementPhases(t: Tables, call: nat, th: Thread)
    ensures PhaseEffect(t, th, Advance(t, call, th))
  {
    hide HasAuthenticator, Passkeys, UnusedCodes, GuardSeen, InsertCredential, ConfirmTotp, ReplaceCodes, DeleteCodes,
         DeleteTotp, DeleteCredential, UpsertPendingTotp, CreateSession, ResetUser, TakeSession, ConsumeCode,
         CreateGrant, Pending, RequiredFor;
  }

  lemma SpendKept(s: System, call: nat, e: Effect, c: nat, g: nat)
    requires call in s.threads && HasSpend(s, c, g)
    ensures HasSpend(Record(s, call, e), c, g)
  {
    var p :| p in s.spends && p.call == c && p.grant == g;
    assert p in Record(s, call, e).spends;
  }

  lemma RecordSpends(s: System, call: nat, e: Effect)
    requires SpendsByCall(s) && call in s.threads && PhaseEffect(s.t, s.threads[call], e)
    ensures SpendsByCall(Record(s, call, e))
  {
    hide GateEffect, HasAuthenticator, Passkeys, SameButGrants;
    var u := Record(s, call, e);
    forall p | p in u.spends ensures p in s.spends || (e.spent && p == u.spends[|s.spends|]) {}
    if e.spent {
      assert u.spends[|s.spends|] in u.spends;
      assert HasSpend(u, call, s.threads[call].request.grant.value);
      assert forall p | p in s.spends :: p.call != call;
    }
    forall i, j | 0 <= i < j < |u.spends| ensures u.spends[i].call != u.spends[j].call {
      assert u.spends[i] in s.spends;
    }
    forall c | c in u.threads && u.threads[c].phase.Act? && u.threads[c].phase.proof.Spent?
      ensures HasSpend(u, c, u.threads[c].phase.proof.grant)
    {
      if c != call { SpendKept(s, call, e, c, u.threads[c].phase.proof.grant); }
    }
  }

  lemma ShownStays(s: System, call: nat, e: Effect, blank: set<nat>, later: set<nat>, c: nat)
    requires call in s.threads && Shown(s, blank, c) && blank <= later
    ensures Shown(Record(s, call, e), later, c)
  {
    if g :| HasSpend(s, c, g) { SpendKept(s, call, e, c, g); }
  }

  lemma RecordGates(s: System, call: nat, e: Effect, blank: set<nat>, later: set<nat>)
    requires GatesShown(s, blank) && blank <= later && call in s.threads && SpendsByCall(Record(s, call, e))
    requires PhaseEffect(s.t, s.threads[call], e) && (e.phase == Act(NoFactor) ==> call in later)
    ensures GatesShown(Record(s, call, e), later)
  {
    hide HasSpend, Shown, SameButGrants, HasAuthenticator, Passkeys, SpendsByCall;
    var u := Record(s, call, e);
    forall c | c in s.threads && Shown(s, blank, c) ensures Shown(u, later, c) {
      ShownStays(s, call, e, blank, later, c);
    }
    if e.phase.Act? { ActIsShown(u, later, call); }
  }

  lemma ActIsShown(s: System, blank: set<nat>, call: nat)
    requires SpendsByCall(s) && call in s.threads && s.threads[call].phase.Act?
    requires s.threads[call].phase == Act(NoFactor) ==> call in blank
    ensures Shown(s, blank, call)
  {
    var proof := s.threads[call].phase.proof;
    if proof.Spent? { assert HasSpend(s, call, proof.grant); }
    hide HasSpend;
  }

  lemma SameSpends(s: System, u: System, blank: set<nat>, later: set<nat>)
    requires SpendsByCall(s) && GatesShown(s, blank) && blank <= later
    requires u.spends == s.spends && u.threads == s.threads && u.changes == s.changes
    ensures SpendsByCall(u) && GatesShown(u, later)
  {
    forall c, g | HasSpend(s, c, g) ensures HasSpend(u, c, g) {}
    hide HasSpend;
  }

  lemma NextCalls(s: System, step: Step, blank: set<nat>, later: set<nat>)
    requires SpendsByCall(s) && GatesShown(s, blank) && blank <= later
    requires step.Run? && step.call in s.threads && Next(s, step).threads[step.call].phase == Act(NoFactor) ==> step.call in later
    ensures SpendsByCall(Next(s, step)) && GatesShown(Next(s, step), later)
  {
    if step.Run? && step.call in s.threads {
      var e := Advance(s.t, step.call, s.threads[step.call]);
      assert Next(s, step).threads[step.call].phase == e.phase;
      hide Record, Advance, PhaseEffect, SpendsByCall, GatesShown;
      StatementPhases(s.t, step.call, s.threads[step.call]);
      RecordSpends(s, step.call, e);
      RecordGates(s, step.call, e, blank, later);
    } else {
      SameSpends(s, Next(s, step), blank, later);
    }
  }

  /** What a run read, a longer one read. */
  lemma ReadsStay(s: System, steps: seq<Step>)
    requires steps != []
    ensures Bare(s, steps[..|steps| - 1]) <= Bare(s, steps) && Blank(s, steps[..|steps| - 1]) <= Blank(s, steps)
  {
    var front := steps[..|steps| - 1];
    assert forall i | 0 <= i < |front| :: front[i] == steps[i] && front[..i] == steps[..i];
    hide RunAll, HasAuthenticator, Passkeys;
  }

  lemma {:induction false} SameCalls(s: System, steps: seq<Step>, call: nat)
    ensures call in RunAll(s, steps).threads <==> call in s.threads
    ensures call in s.threads ==> RunAll(s, steps).threads[call].request == s.threads[call].request
  {
    if steps != [] {
      SameCalls(s, steps[..|steps| - 1], call);
      hide Advance;
    }
  }

  /** The reads of the last step. */
  lemma LastReads(s: System, steps: seq<Step>, call: nat)
    requires steps != [] && steps[|steps| - 1] == Run(call) && call in s.threads
    ensures var t, user := RunAll(s, steps[..|steps| - 1]).t, s.threads[call].request.user;
      (!HasAuthenticator(t, user) ==> call in Bare(s, steps)) &&
      (Passkeys(t, user) == {} && call in Bare(s, steps[..|steps| - 1]) && AddsFactor(s.threads[call].request.op) ==>
        call in Blank(s, steps))
  {
    hide RunAll, HasAuthenticator, Passkeys;
    var front := steps[..|steps| - 1];
    if call in Bare(s, front) {
      var i :| 0 <= i < |front| && front[i] == Run(call) && !HasAuthenticator(RunAll(s, front[..i]).t, s.threads[call].request.user);
      assert front[..i] == steps[..i] && steps[i] == Run(call);
    }
  }

  lemma NextReads(s: System, steps: seq<Step>)
    requires steps != []
    requires ReadsShown(RunAll(s, steps[..|steps| - 1]), Bare(s, steps[..|steps| - 1]), Blank(s, steps[..|steps| - 1]))
    ensures ReadsShown(RunAll(s, steps), Bare(s, steps), Blank(s, steps))
  {
    var before, step := RunAll(s, steps[..|steps| - 1]), steps[|steps| - 1];
    ReadsStay(s, steps);
    if step.Run? && step.call in before.threads {
      SameCalls(s, steps[..|steps| - 1], step.call);
      StatementPhases(before.t, step.call, before.threads[step.call]);
      LastReads(s, steps, step.call);
    }
    hide Advance, HasAuthenticator, Passkeys, Bare, Blank, GateEffect, SameButGrants;
  }

  /** In every interleaving each spend belongs to one call that named the grant, and every
      protected call past its gate, and every one that changed anything, spent a grant or, for a
      new factor, read an account without any. */
  lemma {:induction false} CallsAreAccounted(s: System, steps: seq<Step>)
    requires Starting(s)
    ensures SpendsByCall(RunAll(s, steps)) && GatesShown(RunAll(s, steps), Blank(s, steps))
    ensures ReadsShown(RunAll(s, steps), Bare(s, steps), Blank(s, steps))
  {
    if steps != [] {
      var front := steps[..|steps| - 1];
      CallsAreAccounted(s, front);
      ReadsStay(s, steps);
      NextReads(s, steps);
      NextCalls(RunAll(s, front), steps[|steps| - 1], Blank(s, front), Blank(s, steps));
      hide Next, Bare, Blank, SpendsByCall, GatesShown;
    }
  }

  function GrantOf(spends: seq<Spend>): seq<nat> { seq(|spends|, i requires 0 <= i < |spends| => spends[i].grant) }

  function CallOf(spends: seq<Spend>): seq<nat> { seq(|spends|, i requires 0 <= i < |spends| => spends[i].call) }

  /** The protected calls past their gate. */
  function PastGate(s: System): set<nat>
  {
    set c | c in s.threads && Protected(s.threads[c].request.op) && Passed(s.threads[c].phase)
  }

  /** The protected calls that got past their gate or changed a table, without having read an
      account that holds no factor. */
  function MustPay(s: System, blank: set<nat>): set<nat> { PastGate(s) + s.changes - blank }

  lemma FewerThan<T>(some: set<T>, all: set<T>)
    requires some <= all
    ensures |some| <= |all|
  {
    assert all == some + (all - some);
  }

  lemma CallsAreNoMore(s: System, blank: set<nat>)
    requires GatesShown(s, blank)
    ensures |MustPay(s, blank)| <= |s.spends|
  {
    forall c | c in MustPay(s, blank) ensures c in CallOf(s.spends) {
      assert HasSpent(s, c);
      var g :| HasSpend(s, c, g);
      var p :| p in s.spends && p.call == c;
      var i :| 0 <= i < |s.spends| && s.spends[i] == p;
      assert CallOf(s.spends)[i] == c;
    }
    FewerThan(MustPay(s, blank), set c | c in CallOf(s.spends));
    ElementsAreNoMore(CallOf(s.spends));
  }

  lemma SpendsAreNoMore(s: System)
    requires SpendsFair(s)
    ensures |s.spends| <= |s.issued|
  {
    forall g | g in GrantOf(s.spends) ensures g in s.issued.Keys {
      var i :| 0 <= i < |s.spends| && GrantOf(s.spends)[i] == g;
      assert s.spends[i] in s.spends;
    }
    NoMoreThan(GrantOf(s.spends), s.issued.Keys);
    assert |s.issued.Keys| == |s.issued|;
  }

  /** In every interleaving the grants spent are no more than those issued. */
  lemma SpendsNeedGrants(s: System, steps: seq<Step>)
    requires Starting(s)
    ensures |RunAll(s, steps).spends| <= |RunAll(s, steps).issued|
  {
    hide *;
    GrantsAreSpentOnce(s, steps);
    SpendsAreNoMore(RunAll(s, steps));
  }

  /** And the removals, regenerations, resets and additions of a factor that got past their gate or
      changed a table, but for those that read an account without a factor, are no more than the
      grants spent. */
  lemma ChangesNeedGrants(s: System, steps: seq<Step>, end: System)
    requires Starting(s) && end == RunAll(s, steps)
    ensures |MustPay(end, Blank(s, steps))| <= |end.spends|
  {
    hide *;
    CallsAreAccounted(s, steps);
    CallsAreNoMore(end, Blank(s, steps));
  }

  // ---------- Recovery codes ----------

  ghost predicate CodesFresh(t: Tables) { forall k | k in t.codes :: k < t.next }

  /** Every accepted code is used or gone, its id will not be handed out again, and it was
      accepted once. */
  ghost predicate CodesSpent(s: System)
  {
    CodesFresh(s.t) && NoRepeats(s.accepted) &&
    forall k | k in s.accepted :: k < s.t.next && (k in s.t.codes ==> s.t.codes[k].used)
  }

  /** What a statement may do to the codes: drop some, add some under new ids, mark some used. */
  ghost predicate KeepsCodes(t: Tables, u: Tables)
  {
    u.next >= t.next && CodesFresh(u) &&
    forall k | k in u.codes && k < t.next :: k in t.codes && (t.codes[k].used ==> u.codes[k].used)
  }

  lemma CodeStatements(t: Tables, user: nat)
    requires CodesFresh(t)
    ensures KeepsCodes(t, ReplaceCodes(t, user)) && KeepsCodes(t, DeleteCodes(t, user)) && KeepsCodes(t, ResetUser(t, user))
  {}

  lemma FactorStatements(t: Tables, user: nat, id: nat, origin: Origin, counter: nat)
    requires CodesFresh(t)
    ensures KeepsCodes(t, InsertCredential(t, user, origin)) && KeepsCodes(t, ConfirmTotp(t, user, counter))
    ensures KeepsCodes(t, DeleteTotp(t, user)) && KeepsCodes(t, DeleteCredential(t, user, id).0) && KeepsCodes(t, t)
    ensures KeepsCodes(t, UpsertPendingTotp(t, user).0) && KeepsCodes(t, CreateSession(t, user, "register", origin).0)
  {}

  lemma ReauthCodes(t: Tables, user: nat, origin: Origin)
    requires CodesFresh(t)
    ensures KeepsCodes(t, CreateSession(t, user, "reauth", origin).0) && KeepsCodes(t, CreateGrant(t, user, "webauthn"))
  {}

  lemma BeginCodes(t: Tables, call: nat, th: Thread)
    requires CodesFresh(t) && (th.phase.Start? || th.phase.MustSpend?)
    ensures KeepsCodes(t, Advance(t, call, th).t)
  {
    hide HasAuthenticator, Pending, Passkeys;
  }

  lemma ChangeCodes(t: Tables, call: nat, r: Request, proof: Proof)
    requires CodesFresh(t)
    ensures KeepsCodes(t, Change(t, call, r, proof).t)
  {
    hide KeepsCodes, ReplaceCodes, DeleteTotp, DeleteCredential, UpsertPendingTotp, CreateSession, ResetUser;
    match r.op
    case RegenerateCodes => CodeStatements(t, r.user);
    case ResetOther(target) => CodeStatements(t, target);
    case RemovePasskey(id) => FactorStatements(t, r.user, id, Origin(call, proof), 0);
    case _ => FactorStatements(t, r.user, 0, Origin(call, proof), 0);
  }

  lemma DecideCodes(t: Tables, r: Request, app: bool)
    ensures Decide(t, r, app).t == t && !Decide(t, r, app).accepted
  {}

  lemma LaterCodes(t: Tables, call: nat, th: Thread)
    requires CodesFresh(t) && !th.phase.Start? && !th.phase.MustSpend? && !th.phase.Act?
    ensures KeepsCodes(t, Advance(t, call, th).t) && !Advance(t, call, th).accepted
  {
    hide KeepsCodes, InsertCredential, ConfirmTotp, ReplaceCodes, DeleteCodes, HasAuthenticator, Passkeys, UnusedCodes, Decide,
         CreateSession, CreateGrant;
    var r := th.request;
    ReauthCodes(t, r.user, Origin(call, NoFactor));
    CodeStatements(t, r.user);
    FactorStatements(t, r.user, 0, if th.phase.Inserting? then th.phase.origin else Origin(0, NoFactor),
                     if r.op.ConfirmEnrollment? then r.op.counter else 0);
    if th.phase.SawApp? { DecideCodes(t, r, th.phase.app); }
  }

  /** A code is accepted only while it is unused, and is used from then on. */
  ghost predicate AcceptsUnused(t: Tables, th: Thread, e: Effect)
  {
    e.accepted && th.request.op.UseCode? ==>
      var row := th.request.op.row;
      row in t.codes && !t.codes[row].used && (row in e.t.codes ==> e.t.codes[row].used)
  }

  lemma StatementAccepts(t: Tables, call: nat, th: Thread)
    ensures AcceptsUnused(t, th, Advance(t, call, th))
  {
    hide HasAuthenticator, Passkeys, UnusedCodes, GuardSeen, InsertCredential, ConfirmTotp, ReplaceCodes, DeleteCodes,
         DeleteTotp, DeleteCredential, UpsertPendingTotp, CreateSession, ResetUser, TakeSession, TakeGrant,
         CreateGrant, Pending;
  }

  lemma StatementKeepsCodes(t: Tables, call: nat, th: Thread)
    requires CodesFresh(t)
    ensures KeepsCodes(t, Advance(t, call, th).t)
  {
    hide KeepsCodes, Change, Begin, Decide;
    if th.phase.Start? || th.phase.MustSpend? {
      BeginCodes(t, call, th);
    } else if th.phase.Act? {
      ChangeCodes(t, call, th.request, th.phase.proof);
    } else {
      LaterCodes(t, call, th);
    }
  }

  lemma RecordCodes(s: System, call: nat, e: Effect)
    requires CodesSpent(s) && call in s.threads && KeepsCodes(s.t, e.t) && AcceptsUnused(s.t, s.threads[call], e)
    ensures CodesSpent(Record(s, call, e))
  {
    var u := Record(s, call, e);
    if u.accepted != s.accepted {
      var row := s.threads[call].request.op.row;
      assert row !in s.accepted;
      assert u.accepted == s.accepted + [row];
    }
  }

  lemma NextCodes(s: System, step: Step)
    requires CodesSpent(s)
    ensures CodesSpent(Next(s, step))
  {
    hide Advance, Record, KeepsCodes, AcceptsUnused;
    if step.Run? && step.call in s.threads {
      StatementKeepsCodes(s.t, step.call, s.threads[step.call]);
      StatementAccepts(s.t, step.call, s.threads[step.call]);
      RecordCodes(s, step.call, Advance(s.t, step.call, s.threads[step.call]));
    }
  }

  /** In every interleaving a recovery code is accepted at most once. */
  lemma {:induction false} CodesAreAcceptedOnce(s: System, steps: seq<Step>)
    requires Starting(s)
    ensures CodesSpent(RunAll(s, steps))
  {
    if steps != [] {
      CodesAreAcceptedOnce(s, steps[..|steps| - 1]);
      NextCodes(RunAll(s, steps[..|steps| - 1]), steps[|steps| - 1]);
      hide Next;
    }
  }

  // ---------- Every passkey traces to a begin call of its own ----------

  /** Where the origin of a registration can be: in a ceremony session, in a call that took the
      session and is about to store the passkey, or in the stored passkey. */
  datatype Place = InSession(id: nat) | InCall(call: nat) | InPasskey(id: nat)

  datatype Held = Held(owner: nat, origin: Origin)

  function HeldAt(s: System, p: Place): Option<Held>
  {
    match p
    case InSession(id) => if id in s.t.sessions then Some(Held(s.t.sessions[id].owner, s.t.sessions[id].origin)) else None
    case InCall(c) =>
      if c in s.threads && s.threads[c].phase.Inserting? then Some(Held(s.threads[c].request.user, s.threads[c].phase.origin))
      else None
    case InPasskey(id) => if id in s.t.creds then Some(Held(s.t.creds[id].owner, s.t.creds[id].origin)) else None
  }

  /** The origin names a registration its owner began, that spent a grant of theirs or read an
      account without a factor. */
  ghost predicate Traced(s: System, blank: set<nat>, h: Held)
  {
    var c := h.origin.begin;
    c in s.threads && s.threads[c].request.op == BeginRegistration && s.threads[c].request.user == h.owner &&
    s.threads[c].phase.Done? &&
    match h.origin.proof
    case NoFactor => c in blank
    case Spent(g) => HasSpend(s, c, g)
  }

  ghost predicate OriginsTraced(s: System, blank: set<nat>)
  {
    forall p: Place | HeldAt(s, p).Some? :: Traced(s, blank, HeldAt(s, p).value)
  }

  /** No registration is in two places. */
  ghost predicate OriginsApart(s: System)
  {
    forall p: Place, q: Place | HeldAt(s, p).Some? && HeldAt(s, q).Some? &&
      HeldAt(s, p).value.origin.begin == HeldAt(s, q).value.origin.begin :: p == q
  }

  ghost predicate CredsFresh(t: Tables) { forall k | k in t.creds :: k < t.next }

  ghost predicate RowsFresh(t: Tables)
  {
    CredsFresh(t) && forall k | k in t.sessions :: k < t.next
  }

  /** What a statement may do to the sessions and the passkeys. */
  ghost predicate OriginEffect(t: Tables, call: nat, th: Thread, e: Effect)
  {
    e.t.next >= t.next &&
    (forall k | k in e.t.sessions :: KeepsSession(t, e.t, k) || AddsSession(t, call, th, e, k)) &&
    (forall k | k in e.t.creds :: KeepsPasskey(t, e.t, k) || AddsPasskey(t, th, e, k)) &&
    (e.phase.Inserting? ==> TakesSession(t, th, e))
  }

  predicate KeepsSession(t: Tables, u: Tables, k: nat)
  {
    k in u.sessions && k in t.sessions && t.sessions[k] == u.sessions[k]
  }

  predicate AddsSession(t: Tables, call: nat, th: Thread, e: Effect, k: nat)
  {
    k == t.next < e.t.next && k in e.t.sessions && th.phase.Act? && th.request.op == BeginRegistration && e.phase.Done? &&
    e.t.sessions[k].owner == th.request.user && e.t.sessions[k].origin == Origin(call, th.phase.proof) &&
    e.t.sessions[k].purpose == "register"
  }

  predicate KeepsPasskey(t: Tables, u: Tables, k: nat)
  {
    k in u.creds && k in t.creds && t.creds[k] == u.creds[k]
  }

  predicate AddsPasskey(t: Tables, th: Thread, e: Effect, k: nat)
  {
    k == t.next < e.t.next && k in e.t.creds && th.phase.Inserting? && !e.phase.Inserting? &&
    e.t.creds[k] == Credential(th.request.user, th.phase.origin)
  }

  predicate TakesSession(t: Tables, th: Thread, e: Effect)
  {
    th.phase.Start? && th.request.op.FinishRegistration? && e.phase.Inserting? &&
    var k := th.request.op.session;
    k in t.sessions && k !in e.t.sessions && t.sessions[k].owner == th.request.user && t.sessions[k].origin == e.phase.origin
  }

  /** A statement that adds neither a session nor a passkey. */
  ghost predicate OnlyDrops(t: Tables, u: Tables)
  {
    u.next >= t.next && (forall k | k in u.sessions :: KeepsSession(t, u, k)) && forall k | k in u.creds :: KeepsPasskey(t, u, k)
  }

  lemma SameRowsDrop(t: Tables, u: Tables)
    requires u.sessions == t.sessions && u.creds == t.creds && u.next >= t.next
    ensures OnlyDrops(t, u)
  {}

  lemma StatementsDrop(t: Tables, user: nat, id: nat, counter: nat)
    ensures OnlyDrops(t, ConfirmTotp(t, user, counter)) && OnlyDrops(t, ReplaceCodes(t, user)) && OnlyDrops(t, DeleteCodes(t, user))
    ensures OnlyDrops(t, t) && OnlyDrops(t, DeleteTotp(t, user)) && OnlyDrops(t, DeleteCredential(t, user, id).0)
    ensures OnlyDrops(t, UpsertPendingTotp(t, user).0) && OnlyDrops(t, ResetUser(t, user))
  {
    assert OnlyDrops(t, ResetUser(t, user)) && OnlyDrops(t, DeleteCredential(t, user, id).0);
    hide OnlyDrops, NewIds;
    SameRowsDrop(t, ConfirmTotp(t, user, counter));
    SameRowsDrop(t, ReplaceCodes(t, user));
    SameRowsDrop(t, DeleteCodes(t, user));
    SameRowsDrop(t, t);
    SameRowsDrop(t, DeleteTotp(t, user));
    SameRowsDrop(t, UpsertPendingTotp(t, user).0);
  }

  lemma GrantDrops(t: Tables, user: nat, how: string)
    ensures OnlyDrops(t, CreateGrant(t, user, how))
  {}

  lemma DropsAreEffects(t: Tables, call: nat, th: Thread, e: Effect)
    requires OnlyDrops(t, e.t) && (e.phase.Inserting? ==> TakesSession(t, th, e))
    ensures OriginEffect(t, call, th, e)
  {}

  lemma ChangeOrigins(t: Tables, call: nat, th: Thread)
    requires th.phase.Act?
    ensures OriginEffect(t, call, th, Change(t, call, th.request, th.phase.proof))
  {
    var r, e := th.request, Change(t, call, th.request, th.phase.proof);
    if r.op.BeginRegistration? {
      forall k | k in e.t.sessions ensures KeepsSession(t, e.t, k) || AddsSession(t, call, th, e, k) {}
    } else {
      ChangeDrops(t, call, r, th.phase.proof);
      DropsAreEffects(t, call, th, e);
    }
  }

  lemma ChangeDrops(t: Tables, call: nat, r: Request, proof: Proof)
    requires !r.op.BeginRegistration?
    ensures OnlyDrops(t, Change(t, call, r, proof).t) && !Change(t, call, r, proof).phase.Inserting?
  {
    hide OnlyDrops, ReplaceCodes, DeleteTotp, DeleteCredential, UpsertPendingTotp, ResetUser;
    StatementsDrop(t, r.user, if r.op.RemovePasskey? then r.op.id else 0, 0);
    StatementsDrop(t, if r.op.ResetOther? then r.op.target else 0, 0, 0);
  }

  lemma EarlyOrigins(t: Tables, call: nat, th: Thread)
    requires Early(th.phase)
    ensures OriginEffect(t, call, th, Advance(t, call, th))
  {
    var e := Advance(t, call, th);
    assert OnlyDrops(t, e.t) && (e.phase.Inserting? ==> TakesSession(t, th, e)) by {
      hide HasAuthenticator, Pending, GuardSeen, Passkeys;
    }
    DropsAreEffects(t, call, th, e);
  }

  lemma LaterOrigins(t: Tables, call: nat, th: Thread)
    requires !Early(th.phase) && !th.phase.Act? && !th.phase.Inserting?
    ensures OriginEffect(t, call, th, Advance(t, call, th))
  {
    hide OnlyDrops, OriginEffect, ConfirmTotp, ReplaceCodes, DeleteCodes, HasAuthenticator, Passkeys, UnusedCodes, CreateSession,
         CreateGrant;
    var e := Advance(t, call, th);
    NoReauthSession(t, th.request.user, Origin(call, NoFactor));
    GrantDrops(t, th.request.user, "webauthn");
    StatementsDrop(t, th.request.user, 0, if th.request.op.ConfirmEnrollment? then th.request.op.counter else 0);
    DropsAreEffects(t, call, th, e);
  }

  lemma InsertOrigins(t: Tables, call: nat, th: Thread)
    requires th.phase.Inserting?
    ensures OriginEffect(t, call, th, Advance(t, call, th))
  {
    var e := Advance(t, call, th);
    forall k | k in e.t.creds ensures KeepsPasskey(t, e.t, k) || AddsPasskey(t, th, e, k) {}
    forall k | k in e.t.sessions ensures KeepsSession(t, e.t, k) {}
  }

  lemma StatementOrigins(t: Tables, call: nat, th: Thread)
    ensures OriginEffect(t, call, th, Advance(t, call, th))
  {
    hide OriginEffect, Begin, Change, Decide;
    if Early(th.phase) {
      EarlyOrigins(t, call, th);
    } else if th.phase.Act? {
      ChangeOrigins(t, call, th);
    } else if th.phase.Inserting? {
      InsertOrigins(t, call, th);
    } else {
      LaterOrigins(t, call, th);
    }
  }

  /** Where what stands at place p after a statement of the call stood before it. */
  function SourceOf(s: System, call: nat, p: Place): Place
  {
    if p == InPasskey(s.t.next) then InCall(call)
    else if p == InCall(call) && call in s.threads && s.threads[call].request.op.FinishRegistration?
    then InSession(s.threads[call].request.op.session)
    else p
  }

  lemma SourceHolds(s: System, call: nat, e: Effect, p: Place)
    requires call in s.threads && OriginEffect(s.t, call, s.threads[call], e) && RowsFresh(s.t)
    requires HeldAt(Record(s, call, e), p).Some? && p != InSession(s.t.next)
    ensures HeldAt(s, SourceOf(s, call, p)) == HeldAt(Record(s, call, e), p)
  {}

  lemma SourcesDiffer(s: System, call: nat, e: Effect, p: Place, q: Place)
    requires call in s.threads && OriginEffect(s.t, call, s.threads[call], e) && RowsFresh(s.t)
    requires HeldAt(Record(s, call, e), p).Some? && HeldAt(Record(s, call, e), q).Some?
    requires SourceOf(s, call, p) == SourceOf(s, call, q)
    ensures p == q
  {}

  lemma TracedStays(s: System, call: nat, e: Effect, blank: set<nat>, later: set<nat>, h: Held)
    requires call in s.threads && Traced(s, blank, h) && (s.threads[call].phase.Done? ==> e.phase.Done?) && blank <= later
    ensures Traced(Record(s, call, e), later, h)
  {
    if h.origin.proof.Spent? { SpendKept(s, call, e, h.origin.begin, h.origin.proof.grant); }
    hide HasSpend, Protected, SameButGrants;
  }

  lemma DoneStays(t: Tables, call: nat, th: Thread)
    requires th.phase.Done?
    ensures Advance(t, call, th).phase.Done?
  {}

  lemma NewSessionTraced(s: System, call: nat, e: Effect, blank: set<nat>)
    requires call in s.threads && OriginEffect(s.t, call, s.threads[call], e) && RowsFresh(s.t) && SpendsByCall(s)
    requires s.threads[call].phase == Act(NoFactor) ==> call in blank
    requires HeldAt(Record(s, call, e), InSession(s.t.next)).Some?
    ensures Traced(Record(s, call, e), blank, HeldAt(Record(s, call, e), InSession(s.t.next)).value)
    ensures HeldAt(Record(s, call, e), InSession(s.t.next)).value.origin.begin == call && s.threads[call].phase.Act?
  {
    assert AddsSession(s.t, call, s.threads[call], e, s.t.next);
    var proof := s.threads[call].phase.proof;
    if proof.Spent? { SpendKept(s, call, e, call, proof.grant); }
    hide HasSpend, Protected, SameButGrants;
  }

  lemma RecordTraced(s: System, call: nat, e: Effect, blank: set<nat>, later: set<nat>)
    requires call in s.threads && OriginEffect(s.t, call, s.threads[call], e) && RowsFresh(s.t) && SpendsByCall(s)
    requires OriginsTraced(s, blank) && (s.threads[call].phase.Done? ==> e.phase.Done?) && blank <= later
    requires s.threads[call].phase == Act(NoFactor) ==> call in later
    ensures OriginsTraced(Record(s, call, e), later)
  {
    hide HeldAt, Traced, OriginEffect, RowsFresh, SpendsByCall, SourceOf;
    var u := Record(s, call, e);
    forall p: Place | HeldAt(u, p).Some? ensures Traced(u, later, HeldAt(u, p).value) {
      if p == InSession(s.t.next) {
        NewSessionTraced(s, call, e, later);
      } else {
        SourceHolds(s, call, e, p);
        TracedStays(s, call, e, blank, later, HeldAt(u, p).value);
      }
    }
  }

  lemma BeginIsDone(s: System, blank: set<nat>, p: Place)
    requires OriginsTraced(s, blank) && HeldAt(s, p).Some?
    ensures HeldAt(s, p).value.origin.begin in s.threads && s.threads[HeldAt(s, p).value.origin.begin].phase.Done?
  {
    assert Traced(s, blank, HeldAt(s, p).value);
  }

  lemma RecordApart(s: System, call: nat, e: Effect, blank: set<nat>)
    requires call in s.threads && OriginEffect(s.t, call, s.threads[call], e) && RowsFresh(s.t) && SpendsByCall(s)
    requires OriginsTraced(s, blank) && OriginsApart(s)
    ensures OriginsApart(Record(s, call, e))
  {
    hide HeldAt, OriginEffect, RowsFresh, SpendsByCall, SourceOf, OriginsTraced;
    var u := Record(s, call, e);
    forall p: Place, q: Place | HeldAt(u, p).Some? && HeldAt(u, q).Some? &&
      HeldAt(u, p).value.origin.begin == HeldAt(u, q).value.origin.begin ensures p == q
    {
      var added := InSession(s.t.next);
      if p == added || q == added {
        NewSessionTraced(s, call, e, {call});
        if p != added { SourceHolds(s, call, e, p); BeginIsDone(s, blank, SourceOf(s, call, p)); }
        if q != added { SourceHolds(s, call, e, q); BeginIsDone(s, blank, SourceOf(s, call, q)); }
      } else {
        SourceHolds(s, call, e, p);
        SourceHolds(s, call, e, q);
        SourcesDiffer(s, call, e, p, q);
      }
    }
  }

  lemma EffectsStayFresh(t: Tables, call: nat, th: Thread, e: Effect)
    requires OriginEffect(t, call, th, e)
    ensures (CredsFresh(t) ==> CredsFresh(e.t)) && (RowsFresh(t) ==> RowsFresh(e.t))
  {}

  ghost predicate PasskeysTraced(s: System, blank: set<nat>)
  {
    OriginsTraced(s, blank) && OriginsApart(s) && RowsFresh(s.t)
  }

  lemma LaterTraced(s: System, u: System, blank: set<nat>, later: set<nat>)
    requires PasskeysTraced(s, blank) && u.threads == s.threads && u.spends == s.spends && blank <= later
    requires OnlyDrops(s.t, u.t)
    ensures PasskeysTraced(u, later)
  {
    forall p: Place | HeldAt(u, p).Some? ensures HeldAt(s, p) == HeldAt(u, p) && Traced(u, later, HeldAt(u, p).value) {
      assert Traced(s, blank, HeldAt(s, p).value);
      if HeldAt(s, p).value.origin.proof.Spent? {
        var c, g := HeldAt(s, p).value.origin.begin, HeldAt(s, p).value.origin.proof.grant;
        var q :| q in s.spends && q.call == c && q.grant == g;
        assert q in u.spends;
      }
    }
    hide Traced;
  }

  lemma NextTraced(s: System, step: Step, bare: set<nat>, blank: set<nat>, later: set<nat>)
    requires PasskeysTraced(s, blank) && SpendsByCall(s) && ReadsShown(s, bare, blank) && blank <= later
    ensures PasskeysTraced(Next(s, step), later)
  {
    if step.Run? && step.call in s.threads {
      hide Advance, Record, OriginEffect, OriginsTraced, OriginsApart, RowsFresh, SpendsByCall;
      var e := Advance(s.t, step.call, s.threads[step.call]);
      StatementOrigins(s.t, step.call, s.threads[step.call]);
      if s.threads[step.call].phase.Done? { DoneStays(s.t, step.call, s.threads[step.call]); }
      RecordTraced(s, step.call, e, blank, later);
      RecordApart(s, step.call, e, blank);
      EffectsStayFresh(s.t, step.call, s.threads[step.call], e);
      assert Record(s, step.call, e).t == e.t by { RecordTables(s, step.call, e); }
    } else {
      assert OnlyDrops(s.t, Next(s, step).t);
      hide OnlyDrops, PasskeysTraced, Purged;
      LaterTraced(s, Next(s, step), blank, later);
    }
  }

  lemma RecordTables(s: System, call: nat, e: Effect)
    requires call in s.threads
    ensures Record(s, call, e).t == e.t && Record(s, call, e).threads == s.threads[call := s.threads[call].(phase := e.phase)]
  {}

  /** In every interleaving each passkey stored since the start traces to a begin call of its
      own, by its owner, that spent a grant or read, in the run, an account without a factor. */
  lemma {:induction false} EveryPasskeyIsTraced(s: System, steps: seq<Step>)
    requires Starting(s) && s.t.sessions == map[] && s.t.creds == map[]
    ensures PasskeysTraced(RunAll(s, steps), Blank(s, steps))
  {
    if steps != [] {
      var front := steps[..|steps| - 1];
      EveryPasskeyIsTraced(s, front);
      CallsAreAccounted(s, front);
      ReadsStay(s, steps);
      NextTraced(RunAll(s, front), steps[|steps| - 1], Bare(s, front), Blank(s, front), Blank(s, steps));
      hide Next, PasskeysTraced, Bare, Blank;
    } else {
      assert forall p: Place :: HeldAt(s, p) == None;
    }
  }

  // ---------- Every authenticator traces to an enrolment call ----------

  ghost predicate Enrolled(s: System, blank: set<nat>, call: nat, user: nat)
  {
    call in s.threads && s.threads[call].request.op == EnrollTotp && s.threads[call].request.user == user && Shown(s, blank, call)
  }

  ghost predicate AuthenticatorsTraced(s: System, blank: set<nat>)
  {
    forall user | user in s.t.totp :: exists c :: Enrolled(s, blank, c, user)
  }

  /** Only an enrolment past its gate adds a row. */
  ghost predicate TotpEffect(t: Tables, th: Thread, u: Tables)
  {
    forall user | user in u.totp ::
      user in t.totp || (th.phase.Act? && th.request.op == EnrollTotp && th.request.user == user)
  }

  lemma ChangeTotp(t: Tables, call: nat, th: Thread)
    requires th.phase.Act?
    ensures TotpEffect(t, th, Change(t, call, th.request, th.phase.proof).t)
  {
    hide NewIds;
  }

  lemma BeginSame(t: Tables, r: Request)
    ensures Begin(t, r).t.totp == t.totp && Begin(t, r).t.creds == t.creds
  {
    hide HasAuthenticator, Passkeys, Pending;
  }

  lemma OthersSame(t: Tables, call: nat, th: Thread)
    requires !th.phase.Act? && !th.phase.Inserting? && !th.phase.Confirming?
    ensures Advance(t, call, th).t.totp == t.totp && Advance(t, call, th).t.creds == t.creds
  {
    if th.phase.Start? {
      BeginSame(t, th.request);
    } else if th.phase.SawApp? {
      DecideCodes(t, th.request, th.phase.app);
    }
    hide HasAuthenticator, Passkeys, UnusedCodes, Begin, Decide, NewIds;
  }

  lemma StatementTotp(t: Tables, call: nat, th: Thread)
    ensures TotpEffect(t, th, Advance(t, call, th).t)
  {
    if th.phase.Act? {
      ChangeTotp(t, call, th);
    } else if !th.phase.Inserting? && !th.phase.Confirming? {
      OthersSame(t, call, th);
    }
    hide Change, Begin, Decide;
  }

  lemma EnrolledStays(s: System, call: nat, e: Effect, blank: set<nat>, later: set<nat>, c: nat, user: nat)
    requires call in s.threads && Enrolled(s, blank, c, user) && blank <= later
    ensures Enrolled(Record(s, call, e), later, c, user)
  {
    ShownStays(s, call, e, blank, later, c);
    hide Shown, Protected, SameButGrants;
  }

  lemma RecordAuthenticators(s: System, call: nat, e: Effect, blank: set<nat>, later: set<nat>)
    requires call in s.threads && AuthenticatorsTraced(s, blank) && GatesShown(s, blank) && blank <= later
    requires TotpEffect(s.t, s.threads[call], e.t)
    ensures AuthenticatorsTraced(Record(s, call, e), later)
  {
    hide Shown, SameButGrants;
    forall user | user in Record(s, call, e).t.totp ensures exists c :: Enrolled(Record(s, call, e), later, c, user) {
      if user !in s.t.totp { assert Enrolled(s, blank, call, user); }
      var c :| Enrolled(s, blank, c, user);
      EnrolledStays(s, call, e, blank, later, c, user);
    }
  }

  lemma NextAuthenticators(s: System, step: Step, blank: set<nat>, later: set<nat>)
    requires AuthenticatorsTraced(s, blank) && GatesShown(s, blank) && blank <= later
    ensures AuthenticatorsTraced(Next(s, step), later)
  {
    var u := Next(s, step);
    if step.Run? && step.call in s.threads {
      hide Advance, Record, AuthenticatorsTraced, GatesShown, TotpEffect;
      StatementTotp(s.t, step.call, s.threads[step.call]);
      RecordAuthenticators(s, step.call, Advance(s.t, step.call, s.threads[step.call]), blank, later);
    } else {
      forall user | user in u.t.totp ensures exists c :: Enrolled(u, later, c, user) {
        var c :| Enrolled(s, blank, c, user);
        SameShown(s, u, blank, later, c);
        assert Enrolled(u, later, c, user);
      }
    }
  }

  lemma SameShown(s: System, u: System, blank: set<nat>, later: set<nat>, call: nat)
    requires u.spends == s.spends && Shown(s, blank, call) && blank <= later
    ensures Shown(u, later, call)
  {
    if g :| HasSpend(s, call, g) { assert HasSpend(u, call, g); }
  }

  /** In every interleaving an authenticator, pending or confirmed, is there because a call of its
      user stored it, that spent a grant or read, in the run, an account without a factor. */
  lemma {:induction false} EveryAuthenticatorIsTraced(s: System, steps: seq<Step>)
    requires Starting(s) && s.t.totp == map[]
    ensures AuthenticatorsTraced(RunAll(s, steps), Blank(s, steps))
  {
    if steps != [] {
      var front := steps[..|steps| - 1];
      EveryAuthenticatorIsTraced(s, front);
      CallsAreAccounted(s, front);
      ReadsStay(s, steps);
      NextAuthenticators(RunAll(s, front), steps[|steps| - 1], Blank(s, front), Blank(s, steps));
      hide Next, AuthenticatorsTraced, Bare, Blank;
    }
  }

  // ---------- A call that nothing overlaps ----------

  datatype Ended = Ended(t: Tables, phase: Phase)

  /** A call's next statements, with none of another's between them. */
  function Alone(t: Tables, r: Request, p: Phase, statements: nat): Ended
    decreases statements
  {
    if statements == 0 then Ended(t, p)
    else
      var e := Advance(t, r.call, Thread(r, p));
      Alone(e.t, r, e.phase, statements - 1)
  }

  lemma AloneStep(t: Tables, r: Request, p: Phase, n: nat)
    requires n > 0
    ensures var e := Advance(t, r.call, Thread(r, p)); Alone(t, r, p, n) == Alone(e.t, r, e.phase, n - 1)
  {}

  lemma {:induction false} AloneDone(t: Tables, r: Request, ok: bool, n: nat)
    ensures Alone(t, r, Done(ok), n) == Ended(t, Done(ok))
  {
    if n > 0 { AloneDone(t, r, ok, n - 1); }
  }

  /** The last statements of a removal: listing again, and dropping the codes if nothing is left. */
  lemma AloneClears(t: Tables, r: Request, n: nat)
    requires n >= 3
    ensures Alone(t, r, Clearing, n) == Ended(ClearIfNoFactor(t, r.user), Done(true))
  {
    hide HasAuthenticator, Passkeys, DeleteCodes;
    AloneStep(t, r, Clearing, n);
    AloneStep(t, r, ClearSaw(HasAuthenticator(t, r.user)), n - 1);
    if HasFactor(t, r.user) {
      AloneDone(t, r, true, n - 2);
    } else {
      AloneStep(t, r, DropCodes, n - 2);
      AloneDone(DeleteCodes(t, r.user), r, true, n - 3);
    }
  }

  /** Spending the grant, and then the change; or the end. */
  lemma AloneSpends(t: Tables, r: Request, n: nat)
    requires n > 0
    ensures Alone(t, r, MustSpend, n) ==
      if SpendGrant(t, r).1 then Alone(SpendGrant(t, r).0, r, Act(Spent(r.grant.value)), n - 1) else Ended(t, Done(false))
  {
    AloneStep(t, r, MustSpend, n);
    if !SpendGrant(t, r).1 { AloneDone(t, r, false, n - 1); }
    hide Alone;
  }

  lemma AloneChanges(t: Tables, r: Request, proof: Proof, n: nat)
    requires n >= 4
    requires r.op.DisableTotp? || r.op.RemovePasskey? || r.op.RegenerateCodes? || r.op.ResetOther? || r.op.EnrollTotp? ||
      r.op.BeginRegistration?
    ensures Alone(t, r, Act(proof), n) ==
      match r.op
      case DisableTotp => Ended(ClearIfNoFactor(DeleteTotp(t, r.user), r.user), Done(true))
      case RemovePasskey(id) =>
        var (u, found) := DeleteCredential(t, r.user, id);
        if found then Ended(ClearIfNoFactor(u, r.user), Done(true)) else Ended(u, Done(false))
      case RegenerateCodes => Ended(ReplaceCodes(t, r.user), Done(true))
      case ResetOther(target) => Ended(ResetUser(t, target), Done(true))
      case EnrollTotp => var (u, ok) := UpsertPendingTotp(t, r.user); Ended(u, Done(ok))
      case _ => var (u, id) := CreateSession(t, r.user, "register", Origin(r.call, proof)); Ended(u, Done(id.Some?))
  {
    hide ClearIfNoFactor, DeleteTotp, DeleteCredential, ReplaceCodes, ResetUser, UpsertPendingTotp, CreateSession;
    AloneStep(t, r, Act(proof), n);
    var e := Change(t, r.call, r, proof);
    hide Alone;
    if e.phase.Clearing? {
      AloneClears(e.t, r, n - 1);
    } else {
      AloneDone(e.t, r, e.phase.ok, n - 1);
    }
  }

  /** The two statements of a listing. */
  lemma AloneLists(t: Tables, r: Request, n: nat)
    requires n >= 2
    requires r.op.DisableTotp? || r.op.RemovePasskey? || r.op.RegenerateCodes? || r.op.EnrollTotp? || r.op.BeginRegistration?
    ensures var e := Decide(t, r, HasAuthenticator(t, r.user));
      Alone(t, r, Start, n) == Alone(t, r, e.phase, n - 2) && e.t == t
  {
    hide HasAuthenticator, Decide;
    AloneStep(t, r, Start, n);
    AloneStep(t, r, SawApp(HasAuthenticator(t, r.user)), n - 1);
    DecideCodes(t, r, HasAuthenticator(t, r.user));
  }

  lemma AloneGated(t: Tables, r: Request, n: nat)
    requires n >= 7 && (r.op.EnrollTotp? || r.op.BeginRegistration? || r.op.RegenerateCodes?)
    ensures Alone(t, r, Start, n) == Ended(Serve(t, r).0, Done(Serve(t, r).1))
  {
    AloneLists(t, r, n);
    assert SpendGrant(t, r).1 ==> r.grant.Some?;
    hide Alone, HasAuthenticator, Passkeys, SpendGrant, ReplaceCodes, UpsertPendingTotp, CreateSession;
    if HasFactor(t, r.user) {
      AloneSpends(t, r, n - 2);
      if SpendGrant(t, r).1 { AloneChanges(SpendGrant(t, r).0, r, Spent(r.grant.value), n - 3); }
    } else if r.op.RegenerateCodes? {
      AloneDone(t, r, false, n - 2);
    } else {
      AloneChanges(t, r, NoFactor, n - 2);
    }
  }

  lemma AloneRemoves(t: Tables, r: Request, n: nat)
    requires n >= 7 && (r.op.DisableTotp? || r.op.RemovePasskey?)
    ensures Alone(t, r, Start, n) == Ended(Serve(t, r).0, Done(Serve(t, r).1))
  {
    AloneLists(t, r, n);
    AloneSpends(t, r, n - 2);
    if SpendGrant(t, r).1 { AloneChanges(SpendGrant(t, r).0, r, Spent(r.grant.value), n - 3); }
    AloneDone(t, r, false, n - 2);
    GuardView(t, r.user, if r.op.RemovePasskey? then r.op.id else 0, r.Required());
    hide Alone, HasAuthenticator, Passkeys, SpendGrant, GuardPasses, ClearIfNoFactor, DeleteTotp, DeleteCredential;
  }

  lemma AloneIssues(t: Tables, r: Request, n: nat)
    requires n > 0
    ensures Alone(t, r, Issuing, n) == Ended(ReplaceCodes(t, r.user), Done(true))
  {
    hide ReplaceCodes;
    AloneStep(t, r, Issuing, n);
    AloneDone(ReplaceCodes(t, r.user), r, true, n - 1);
  }

  lemma AloneConfirms(t: Tables, r: Request, n: nat)
    requires n >= 3 && r.op.ConfirmEnrollment?
    ensures Alone(t, r, Start, n) == Ended(Serve(t, r).0, Done(Serve(t, r).1))
  {
    hide ConfirmTotp, ReplaceCodes;
    AloneStep(t, r, Start, n);
    if Pending(t, r.user) && r.op.valid {
      AloneStep(t, r, Confirming, n - 1);
      AloneIssues(ConfirmTotp(t, r.user, r.op.counter), r, n - 2);
    } else {
      AloneDone(t, r, false, n - 1);
    }
  }

  lemma AloneRegisters(t: Tables, r: Request, n: nat)
    requires n >= 4 && r.op.FinishRegistration?
    ensures Alone(t, r, Start, n) == Ended(Serve(t, r).0, Done(Serve(t, r).1))
  {
    hide TakeSession, InsertCredential, ReplaceCodes, UnusedCodes;
    var (u, taken) := TakeSession(t, r.op.session, r.user, "register");
    AloneStep(t, r, Start, n);
    if taken.Some? && r.op.valid {
      var v := InsertCredential(u, r.user, taken.value.origin);
      AloneStep(u, r, Inserting(taken.value.origin), n - 1);
      AloneStep(v, r, Counting, n - 2);
      AloneIssues(v, r, n - 3);
      AloneDone(v, r, true, n - 3);
    } else {
      AloneDone(u, r, false, n - 1);
    }
    hide Alone;
  }

  lemma AloneResets(t: Tables, r: Request, n: nat)
    requires n >= 6 && (r.op.ResetOther? || r.op.UseCode?)
    ensures Alone(t, r, Start, n) == Ended(Serve(t, r).0, Done(Serve(t, r).1))
  {
    assert SpendGrant(t, r).1 ==> r.grant.Some?;
    hide SpendGrant, ResetUser, CreateGrant, ConsumeCode;
    var e := Begin(t, r);
    AloneStep(t, r, Start, n);
    if e.phase.Done? {
      AloneDone(e.t, r, e.phase.ok, n - 1);
    } else {
      AloneSpends(t, r, n - 1);
      if SpendGrant(t, r).1 { AloneChanges(SpendGrant(t, r).0, r, Spent(r.grant.value), n - 2); }
    }
  }

  lemma AloneReauthenticates(t: Tables, r: Request, n: nat)
    requires n >= 2 && Reauthenticates(r.op)
    ensures Alone(t, r, Start, n) == Ended(Serve(t, r).0, Done(Serve(t, r).1))
  {
    hide CreateGrant, CreateSession, Passkeys;
    var e := Begin(t, r);
    AloneStep(t, r, Start, n);
    match e.phase
    case Done(ok) =>
      AloneDone(e.t, r, ok, n - 1);
    case Challenging =>
      var (u, id) := CreateSession(t, r.user, "reauth", Origin(r.call, NoFactor));
      AloneStep(t, r, Challenging, n - 1);
      AloneDone(u, r, id.Some?, n - 2);
    case Granting =>
      AloneStep(e.t, r, Granting, n - 1);
      AloneDone(CreateGrant(e.t, r.user, "webauthn"), r, true, n - 2);
  }

  /** Seven statements of a call with none of another's between them do what the call does when
      it is served alone. */
  lemma AloneIsServed(t: Tables, r: Request)
    ensures Alone(t, r, Start, 7) == Ended(Serve(t, r).0, Done(Serve(t, r).1))
  {
    hide Alone, Serve;
    if r.op.EnrollTotp? || r.op.BeginRegistration? || r.op.RegenerateCodes? {
      AloneGated(t, r, 7);
    } else if r.op.DisableTotp? || r.op.RemovePasskey? {
      AloneRemoves(t, r, 7);
    } else if r.op.FinishRegistration? {
      AloneRegisters(t, r, 7);
    } else if r.op.ConfirmEnrollment? {
      AloneConfirms(t, r, 7);
    } else if Reauthenticates(r.op) {
      AloneReauthenticates(t, r, 7);
    } else {
      AloneResets(t, r, 7);
    }
  }

  // ---------- A bound user's own removals, one at a time ----------

  /** The call is one of the user's removals, between its first read of the factors and the
      deletion. */
  predicate Removing(th: Thread, user: nat)
  {
    th.request.user == user && Removes(th.request.op) && (th.phase.SawApp? || th.phase.MustSpend? || th.phase.Act?)
  }

  ghost predicate OneAtATime(s: System, user: nat)
  {
    forall c, d | c in s.threads && d in s.threads && Removing(s.threads[c], user) && Removing(s.threads[d], user) :: c == d
  }

  /** The policy binds the user in each of their removals, and nobody resets them. */
  ghost predicate BoundCalls(s: System, user: nat)
  {
    forall c | c in s.threads ::
      (s.threads[c].request.user == user && Removes(s.threads[c].request.op) ==> s.threads[c].request.Required()) &&
      s.threads[c].request.op != ResetOther(user)
  }

  /** What the guard of a removal found is still so. */
  predicate GuardHolds(t: Tables, th: Thread)
  {
    var r := th.request;
    match th.phase
    case SawApp(app) => r.op.RemovePasskey? && app ==> HasAuthenticator(t, r.user)
    case MustSpend => GuardSeen(HasAuthenticator(t, r.user), Passkeys(t, r.user), r.op, true)
    case Act(_) => GuardSeen(HasAuthenticator(t, r.user), Passkeys(t, r.user), r.op, true)
    case _ => true
  }

  ghost predicate FactorKept(s: System, user: nat)
  {
    HasFactor(s.t, user) && CredsFresh(s.t) && BoundCalls(s, user) &&
    forall c | c in s.threads && Removing(s.threads[c], user) :: GuardHolds(s.t, s.threads[c])
  }

  predicate FactorsGrow(t: Tables, u: Tables, user: nat)
  {
    (HasAuthenticator(t, user) ==> HasAuthenticator(u, user)) && Passkeys(t, user) <= Passkeys(u, user)
  }

  lemma GrownGuards(t: Tables, u: Tables, th: Thread)
    requires FactorsGrow(t, u, th.request.user) && GuardHolds(t, th)
    ensures GuardHolds(u, th)
  {
    hide HasAuthenticator, Passkeys;
  }

  lemma SameFactorsGrow(t: Tables, u: Tables, user: nat)
    requires u.totp == t.totp && u.creds == t.creds
    ensures FactorsGrow(t, u, user)
  {}

  lemma ChangeGrows(t: Tables, call: nat, r: Request, proof: Proof, user: nat)
    requires r.op != ResetOther(user) && !(r.user == user && Removes(r.op))
    ensures FactorsGrow(t, Change(t, call, r, proof).t, user)
  {
    hide NewIds;
    var u := Change(t, call, r, proof).t;
    assert forall k | k in Passkeys(t, user) :: k in Passkeys(u, user);
  }

  lemma AddsGrow(t: Tables, call: nat, th: Thread, user: nat)
    requires CredsFresh(t) && (th.phase.Inserting? || th.phase.Confirming?)
    ensures FactorsGrow(t, Advance(t, call, th).t, user)
  {
    var u := Advance(t, call, th).t;
    assert forall k | k in Passkeys(t, user) :: k in Passkeys(u, user);
  }

  /** Any statement but the deletion of one of the user's removals, or a reset of the user. */
  lemma StatementGrows(t: Tables, call: nat, th: Thread, user: nat)
    requires CredsFresh(t) && th.request.op != ResetOther(user) && !(th.phase.Act? && Removing(th, user))
    ensures FactorsGrow(t, Advance(t, call, th).t, user)
  {
    if th.phase.Act? {
      ChangeGrows(t, call, th.request, th.phase.proof, user);
    } else if th.phase.Inserting? || th.phase.Confirming? {
      AddsGrow(t, call, th, user);
    } else {
      OthersSame(t, call, th);
      SameFactorsGrow(t, Advance(t, call, th).t, user);
    }
    hide Change, Begin, Decide, FactorsGrow;
  }

  /** The deletion leaves what the guard found. */
  lemma DeletionLeavesAFactor(t: Tables, call: nat, th: Thread)
    requires th.phase.Act? && Removes(th.request.op) && GuardHolds(t, th) && HasFactor(t, th.request.user)
    ensures HasFactor(Advance(t, call, th).t, th.request.user) && !Removing(th.(phase := Advance(t, call, th).phase), th.request.user)
  {
    var r, u := th.request, Advance(t, call, th).t;
    if r.op.RemovePasskey? {
      DeletedView(t, r.user, r.op.id, r.user);
    } else {
      StatementViews(t, r.user, r.user);
    }
    hide DeleteTotp, DeleteCredential, HasAuthenticator, Passkeys, UnusedCodes;
  }

  /** A removal that goes on towards its deletion has what its guard needs. */
  lemma OwnGuard(t: Tables, call: nat, th: Thread)
    requires Removes(th.request.op) && th.request.Required() && !th.phase.Act?
    requires Removing(th, th.request.user) ==> GuardHolds(t, th)
    ensures var e := Advance(t, call, th);
      Removing(th.(phase := e.phase), th.request.user) ==> GuardHolds(e.t, th.(phase := e.phase))
  {
    hide HasAuthenticator, Passkeys, UnusedCodes, InsertCredential, ConfirmTotp, ReplaceCodes, DeleteCodes, CreateSession,
         RequiredFor;
    if th.phase.MustSpend? && th.request.grant.Some? {
      GrantsOnly(t, th.request);
    }
  }

  lemma GrantsOnly(t: Tables, r: Request)
    ensures var u := SpendGrant(t, r).0;
      HasAuthenticator(u, r.user) == HasAuthenticator(t, r.user) && Passkeys(u, r.user) == Passkeys(t, r.user)
  {}

  lemma RecordKeepsFactor(s: System, call: nat, user: nat)
    requires FactorKept(s, user) && OneAtATime(s, user) && call in s.threads
    ensures FactorKept(Record(s, call, Advance(s.t, call, s.threads[call])), user)
  {
    var th, e := s.threads[call], Advance(s.t, call, s.threads[call]);
    StatementOrigins(s.t, call, th);
    EffectsStayFresh(s.t, call, th, e);
    if th.phase.Act? && Removing(th, user) {
      DeletionLeavesAFactor(s.t, call, th);
    } else {
      StatementGrows(s.t, call, th, user);
      if th.request.user == user && Removes(th.request.op) { OwnGuard(s.t, call, th); }
      forall c | c in s.threads && c != call && Removing(s.threads[c], user) ensures GuardHolds(e.t, s.threads[c]) {
        GrownGuards(s.t, e.t, s.threads[c]);
      }
    }
    hide Advance, GuardHolds, HasAuthenticator, Passkeys, Protected, SameButGrants, RequiredFor, CredsFresh, OriginEffect;
  }

  lemma NextKeepsFactor(s: System, step: Step, user: nat)
    requires FactorKept(s, user) && OneAtATime(s, user)
    ensures FactorKept(Next(s, step), user)
  {
    if step.Run? && step.call in s.threads {
      RecordKeepsFactor(s, step.call, user);
      hide FactorKept, Record, Advance;
    } else {
      var u := Next(s, step);
      SameFactorsGrow(s.t, u.t, user);
      forall c | c in s.threads && Removing(s.threads[c], user) ensures GuardHolds(u.t, s.threads[c]) {
        GrownGuards(s.t, u.t, s.threads[c]);
      }
      hide GuardHolds, RequiredFor;
    }
  }

  /** In every interleaving in which no two of a bound user's own removals are between their first
      read and their deletion at once, a user who holds a factor keeps one, whatever else overlaps. */
  lemma {:induction false} RemovalsApartKeepAFactor(s: System, steps: seq<Step>, user: nat)
    requires Starting(s) && HasFactor(s.t, user) && BoundCalls(s, user)
    requires forall i | 0 <= i < |steps| :: OneAtATime(RunAll(s, steps[..i]), user)
    ensures HasFactor(RunAll(s, steps).t, user) && FactorKept(RunAll(s, steps), user)
  {
    if steps != [] {
      var front := steps[..|steps| - 1];
      assert forall i | 0 <= i < |front| :: front[..i] == steps[..i];
      RemovalsApartKeepAFactor(s, front, user);
      NextKeepsFactor(RunAll(s, front), steps[|steps| - 1], user);
      hide Next, FactorKept, OneAtATime;
    }
  }

  // ---------- Two at a time ----------

  /** What is left of a user's factors when a removal has run. */
  function Without(v: View, op: Op): View
  {
    match op
    case DisableTotp => v.(authenticator := false)
    case RemovePasskey(id) => v.(passkeys := v.passkeys - {id})
    case _ => v
  }

  /** Two removals of one user, each with a grant of its own that can be spent. */
  predicate TwoRemovers(s: System, c: nat, d: nat)
  {
    c in s.threads && d in s.threads && c != d &&
    var q, r := s.threads[c].request, s.threads[d].request;
    q.user == r.user && Removes(q.op) && Removes(r.op) &&
    q.grant.Some? && r.grant.Some? && q.grant != r.grant &&
    Takeable(s.t, q.grant.value, q.user) && Takeable(s.t, r.grant.value, r.user)
  }

  predicate GuardAllows(t: Tables, r: Request)
  {
    GuardPasses(t, r.user, if r.op.RemovePasskey? then Passkey else Authenticator,
                if r.op.RemovePasskey? then Some(r.op.id) else None, r.Required())
  }

  /** A removal that has not begun reads the factors, twice, and passes its guard. */
  lemma TwoReads(s: System, c: nat)
    requires c in s.threads && s.threads[c].phase == Start && Removes(s.threads[c].request.op)
    requires GuardAllows(s.t, s.threads[c].request)
    ensures Next(Next(s, Run(c)), Run(c)) == s.(threads := s.threads[c := s.threads[c].(phase := MustSpend)])
  {
    var th, r := s.threads[c], s.threads[c].request;
    var app := HasAuthenticator(s.t, r.user);
    GuardView(s.t, r.user, if r.op.RemovePasskey? then r.op.id else 0, r.Required());
    hide HasAuthenticator, Passkeys, RequiredFor, GuardPasses;
    assert Advance(s.t, c, th) == Quiet(s.t, SawApp(app));
    assert Next(s, Run(c)) == s.(threads := s.threads[c := th.(phase := SawApp(app))]);
    assert Advance(s.t, c, th.(phase := SawApp(app))) == Quiet(s.t, MustSpend);
  }

  lemma SpendsGrant(s: System, c: nat)
    requires c in s.threads && s.threads[c].phase == MustSpend && s.threads[c].request.grant.Some?
    requires Takeable(s.t, s.threads[c].request.grant.value, s.threads[c].request.user)
    ensures var u, r := Next(s, Run(c)), s.threads[c].request;
      u.t == s.t.(grants := s.t.grants - {r.grant.value}) &&
      u.threads == s.threads[c := s.threads[c].(phase := Act(Spent(r.grant.value)))]
  {}

  lemma Deletes(s: System, c: nat)
    requires c in s.threads && s.threads[c].phase.Act? && Removes(s.threads[c].request.op)
    ensures var u, r := Next(s, Run(c)), s.threads[c].request;
      u.threads == s.threads[c := u.threads[c]] && ViewOf(u.t, r.user) == Without(ViewOf(s.t, r.user), r.op)
  {
    var th, r := s.threads[c], s.threads[c].request;
    assert Next(s, Run(c)).t == Change(s.t, c, r, th.phase.proof).t;
    StatementViews(s.t, r.user, r.user);
    if r.op.RemovePasskey? { DeletedView(s.t, r.user, r.op.id, r.user); }
    hide DeleteTotp, DeleteCredential, HasAuthenticator, Passkeys, UnusedCodes, SameButGrants;
  }

  lemma FourSteps(s: System, a: Step, b: Step, c: Step, d: Step)
    ensures RunAll(s, [a, b, c, d]) == Next(Next(Next(Next(s, a), b), c), d)
  {
    hide Next;
    assert [a, b, c, d][..3] == [a, b, c] && [a, b, c][..2] == [a, b] && [a, b][..1] == [a] && [a][..0] == [];
    assert RunAll(s, []) == s;
    assert RunAll(s, [a]) == Next(s, a);
    assert RunAll(s, [a, b]) == Next(Next(s, a), b);
    assert RunAll(s, [a, b, c]) == Next(RunAll(s, [a, b]), c);
  }

  /** In every state two removals past their guards, both run on, leave a user a factor if and only
      if the user holds one that neither removes: the guards no longer have a say. */
  lemma PastTheGuardBothRemove(s: System, c: nat, d: nat)
    requires TwoRemovers(s, c, d) && s.threads[c].phase == MustSpend && s.threads[d].phase == MustSpend
    ensures var q, r := s.threads[c].request, s.threads[d].request;
      HasFactor(RunAll(s, [Run(c), Run(d), Run(c), Run(d)]).t, q.user) <==>
      Holds(Without(Without(ViewOf(s.t, q.user), q.op), r.op))
  {
    var user := s.threads[c].request.user;
    FourSteps(s, Run(c), Run(d), Run(c), Run(d));
    SpendsGrant(s, c);
    var s1 := Next(s, Run(c));
    assert ViewOf(s1.t, user) == ViewOf(s.t, user);
    SpendsGrant(s1, d);
    var s2 := Next(s1, Run(d));
    assert ViewOf(s2.t, user) == ViewOf(s.t, user);
    hide Next, HasAuthenticator, Passkeys, UnusedCodes, Takeable;
    Deletes(s2, c);
    Deletes(Next(s2, Run(c)), d);
  }

  lemma {:induction false} RunsOn(s: System, some: seq<Step>, more: seq<Step>)
    ensures RunAll(s, some + more) == RunAll(RunAll(s, some), more)
  {
    if more == [] {
      assert some + more == some;
    } else {
      assert (some + more)[..|some + more| - 1] == some + more[..|more| - 1];
      RunsOn(s, some, more[..|more| - 1]);
      hide Next;
    }
  }

  /** The first reads of both, and then what is left of both. */
  function Overlapped(c: nat, d: nat): seq<Step>
  {
    [Run(c), Run(c), Run(d), Run(d)] + [Run(c), Run(d), Run(c), Run(d)]
  }

  /** In every state two removals that have not begun and would each pass the guard can overlap so
      that both remove: the user keeps a factor if and only if there is a third. */
  lemma OverlappedBothRemove(s: System, c: nat, d: nat)
    requires TwoRemovers(s, c, d) && s.threads[c].phase == Start && s.threads[d].phase == Start
    requires GuardAllows(s.t, s.threads[c].request) && GuardAllows(s.t, s.threads[d].request)
    ensures var q, r := s.threads[c].request, s.threads[d].request;
      HasFactor(RunAll(s, Overlapped(c, d)).t, q.user) <==> Holds(Without(Without(ViewOf(s.t, q.user), q.op), r.op))
  {
    FourSteps(s, Run(c), Run(c), Run(d), Run(d));
    TwoReads(s, c);
    var u := s.(threads := s.threads[c := s.threads[c].(phase := MustSpend)]);
    TwoReads(u, d);
    var v := u.(threads := u.threads[d := u.threads[d].(phase := MustSpend)]);
    RunsOn(s, [Run(c), Run(c), Run(d), Run(d)], [Run(c), Run(d), Run(c), Run(d)]);
    hide RunAll, Next, GuardAllows, Takeable, HasFactor, Holds, Without, ViewOf;
    PastTheGuardBothRemove(v, c, d);
  }

  /** An admin under the policy with an authenticator and one passkey, removing both at once. */
  function TwoRemovals(): System
  {
    var app := Request(0, 1, DisableTotp, Some(8), "admin", Policy(true));
    var key := Request(1, 1, RemovePasskey(7), Some(9), "admin", Policy(true));
    var grants := map[8 := Grant(1, "password", 300), 9 := Grant(1, "password", 300)];
    System(Tables({1}, {}, map[1 := Totp(true, 0, 0)], map[7 := Credential(1, Origin(2, NoFactor))], map[], map[], grants, 0, 10),
           map[0 := Thread(app, Start), 1 := Thread(key, Start)], grants, [], {}, [])
  }

  /** So an admin whom the policy binds can end with no factor: what NeverWithoutAFactor says of
      calls that do not overlap fails of calls that do. */
  lemma OverlappingRemovalsLeaveNoFactor()
    ensures Starting(TwoRemovals()) && BoundCalls(TwoRemovals(), 1)
    ensures HasFactor(TwoRemovals().t, 1) && !HasFactor(RunAll(TwoRemovals(), Overlapped(0, 1)).t, 1)
  {
    var s := TwoRemovals();
    assert 7 in Passkeys(s.t, 1);
    assert GuardAllows(s.t, s.threads[0].request) && GuardAllows(s.t, s.threads[1].request);
    OverlappedBothRemove(s, 0, 1);
    assert ViewOf(s.t, 1).passkeys == {7};
    hide RunAll, GuardAllows;
  }

  // ---------- Re-authentication by passkey ----------

  predicate ByPasskey(op: Op) { op.BeginReauth? || op.FinishReauth? }

  /** A call that has not come through, and is not about to give a grant. */
  predicate Fruitless(p: Phase) { p.Start? || p.Challenging? || p == Done(false) }

  predicate ReauthPhase(th: Thread) { th.phase != Granting && (ByPasskey(th.request.op) ==> Fruitless(th.phase)) }

  /** No passkey has earned a grant, or is about to. */
  ghost predicate NonePasskeyGranted(s: System)
  {
    PurposesAllowed(s.t) && (forall g | g in s.issued :: s.issued[g].how != "webauthn") &&
    forall c | c in s.threads :: ReauthPhase(s.threads[c])
  }

  ghost predicate ReauthEffect(t: Tables, th: Thread, e: Effect)
  {
    ReauthPhase(th.(phase := e.phase)) && (e.issued && t.next in e.t.grants ==> e.t.grants[t.next].how != "webauthn")
  }

  lemma BeginReauths(t: Tables, call: nat, th: Thread)
    requires PurposesAllowed(t) && th.phase == Start
    ensures ReauthEffect(t, th, Advance(t, call, th))
  {
    if th.request.op.FinishReauth? { RefusedPurpose(t, th.request.user, th.request.op.session, Origin(call, NoFactor)); }
    assert |"password"| == 8 && "password"[0] != "webauthn"[0];
    hide HasAuthenticator, Passkeys, TakeSession, ConsumeCode, Pending, PurposesAllowed;
  }

  lemma LaterReauths(t: Tables, call: nat, th: Thread)
    requires th.phase != Start && ReauthPhase(th)
    ensures ReauthEffect(t, th, Advance(t, call, th))
  {
    NoReauthSession(t, th.request.user, Origin(call, NoFactor));
    hide HasAuthenticator, Passkeys, UnusedCodes, GuardSeen, InsertCredential, ConfirmTotp, ReplaceCodes, DeleteCodes,
         DeleteTotp, DeleteCredential, UpsertPendingTotp, CreateSession, ResetUser, TakeGrant, RequiredFor;
  }

  lemma EffectsKeepPurposes(t: Tables, call: nat, th: Thread, e: Effect)
    requires OriginEffect(t, call, th, e) && PurposesAllowed(t)
    ensures PurposesAllowed(e.t)
  {}

  lemma NextReauth(s: System, step: Step)
    requires NonePasskeyGranted(s)
    ensures NonePasskeyGranted(Next(s, step))
  {
    if step.Run? && step.call in s.threads {
      var th, e := s.threads[step.call], Advance(s.t, step.call, s.threads[step.call]);
      if th.phase == Start { BeginReauths(s.t, step.call, th); } else { LaterReauths(s.t, step.call, th); }
      StatementOrigins(s.t, step.call, th);
      EffectsKeepPurposes(s.t, step.call, th, e);
      hide Advance, OriginEffect, PurposesAllowed, Protected, SameButGrants, ReauthPhase;
    }
  }

  /** In every interleaving, too, neither half of a re-authentication by passkey comes through,
      and every grant ever handed out was earned with a password. */
  lemma {:induction false} PasskeysEarnNoGrant(s: System, steps: seq<Step>)
    requires Starting(s) && PurposesAllowed(s.t) && NoPasskeyGrant(s.t)
    ensures NonePasskeyGranted(RunAll(s, steps))
  {
    if steps != [] {
      PasskeysEarnNoGrant(s, steps[..|steps| - 1]);
      NextReauth(RunAll(s, steps[..|steps| - 1]), steps[|steps| - 1]);
      hide Next, NonePasskeyGranted;
    }
  }
}
