/** The tables behind second factors, their atomic statements, and the handlers that change a
    user's factors, each as it acts when no other call overlaps it. */
module Factors {
  import opened Json
  import opened Text

  // ---------- Tables ----------

  datatype Method = Authenticator | Passkey

  datatype Totp = Totp(confirmed: bool, pendingUntil: int, counter: nat)

  /** What a caller showed before it could start to add a factor: a grant it spent, or an
      account without any factor. */
  datatype Proof = NoFactor | Spent(grant: nat)

  /** The call that began a registration, and what it showed. */
  datatype Origin = Origin(begin: nat, proof: Proof)

  datatype Credential = Credential(owner: nat, origin: Origin)

  datatype Code = Code(owner: nat, used: bool)

  datatype Session = Session(owner: nat, purpose: string, expires: int, origin: Origin)

  datatype Grant = Grant(owner: nat, how: string, expires: int)

  /** lockouts holds the users with a row of failures. */
  datatype Tables = Tables(
    users: set<nat>,
    lockouts: set<nat>,
    totp: map<nat, Totp>,
    creds: map<nat, Credential>,
    codes: map<nat, Code>,
    sessions: map<nat, Session>,
    grants: map<nat, Grant>,
    now: int,
    next: nat)

  const REAUTH_TTL := 300
  const CEREMONY_TTL := 300
  const ENROLL_TTL := 900
  const CODE_COUNT := 10

  /** The rows there are have ids the database no longer hands out. */
  ghost predicate Fresh(t: Tables)
  {
    (forall k | k in t.creds :: k < t.next) && (forall k | k in t.codes :: k < t.next)
  }

  // ---------- Statements, each atomic ----------

  function UpsertPendingTotp(t: Tables, user: nat): (Tables, bool)
  {
    if user in t.totp && t.totp[user].confirmed then (t, false)
    else (t.(totp := t.totp[user := Totp(false, t.now + ENROLL_TTL, 0)]), true)
  }

  function ConfirmTotp(t: Tables, user: nat, counter: nat): Tables
  {
    if user in t.totp then t.(totp := t.totp[user := Totp(true, 0, counter)]) else t
  }

  function DeleteTotp(t: Tables, user: nat): Tables { t.(totp := t.totp - {user}) }

  function InsertCredential(t: Tables, user: nat, origin: Origin): Tables
  {
    t.(creds := t.creds[t.next := Credential(user, origin)], next := t.next + 1)
  }

  function DeleteCredential(t: Tables, user: nat, id: nat): (Tables, bool)
  {
    if id in t.creds && t.creds[id].owner == user then (t.(creds := t.creds - {id}), true) else (t, false)
  }

  /** The table takes only two purposes. */
  function CreateSession(t: Tables, user: nat, purpose: string, origin: Origin): (Tables, Option<nat>)
  {
    if purpose in {"register", "authenticate"}
    then (t.(sessions := t.sessions[t.next := Session(user, purpose, t.now + CEREMONY_TTL, origin)], next := t.next + 1),
          Some(t.next))
    else (t, None)
  }

  function TakeSession(t: Tables, id: nat, user: nat, purpose: string): (Tables, Option<Session>)
  {
    if id in t.sessions && t.sessions[id].owner == user && t.sessions[id].purpose == purpose && t.sessions[id].expires > t.now
    then (t.(sessions := t.sessions - {id}), Some(t.sessions[id]))
    else (t, None)
  }

  function CreateGrant(t: Tables, user: nat, how: string): Tables
  {
    t.(grants := t.grants[t.next := Grant(user, how, t.now + REAUTH_TTL)], next := t.next + 1)
  }

  predicate Takeable(t: Tables, id: nat, user: nat)
  {
    id in t.grants && t.grants[id].owner == user && t.grants[id].expires > t.now
  }

  function TakeGrant(t: Tables, id: nat, user: nat): (Tables, bool)
  {
    if Takeable(t, id, user) then (t.(grants := t.grants - {id}), true) else (t, false)
  }

  function NewIds(from: nat, count: nat): (ids: set<nat>)
    ensures forall k: nat :: k in ids <==> from <= k < from + count
  {
    if count == 0 then {} else NewIds(from, count - 1) + {from + count - 1}
  }

  /** A user's whole set of codes makes way for ten new ones. */
  function ReplaceCodes(t: Tables, user: nat): Tables
  {
    t.(codes := (map k | k in t.codes && t.codes[k].owner != user :: t.codes[k]) +
                (map k | k in NewIds(t.next, CODE_COUNT) :: Code(user, false)),
       next := t.next + CODE_COUNT)
  }

  function ConsumeCode(t: Tables, user: nat, row: nat): (Tables, bool)
  {
    if row in t.codes && t.codes[row] == Code(user, false)
    then (t.(codes := t.codes[row := Code(user, true)]), true) else (t, false)
  }

  function UnusedCodes(t: Tables, user: nat): set<nat>
  {
    set k | k in t.codes && t.codes[k] == Code(user, false)
  }

  function DeleteCodes(t: Tables, user: nat): Tables
  {
    t.(codes := map k | k in t.codes && t.codes[k].owner != user :: t.codes[k])
  }

  /** One transaction. */
  function ResetUser(t: Tables, user: nat): Tables
  {
    DeleteCodes(t, user).(
      lockouts := t.lockouts - {user},
      totp := t.totp - {user},
      creds := map k | k in t.creds && t.creds[k].owner != user :: t.creds[k],
      sessions := map k | k in t.sessions && t.sessions[k].owner != user :: t.sessions[k],
      grants := map k | k in t.grants && t.grants[k].owner != user :: t.grants[k])
  }

  // ---------- A user's factors ----------

  predicate HasAuthenticator(t: Tables, user: nat) { user in t.totp && t.totp[user].confirmed }

  function Passkeys(t: Tables, user: nat): set<nat> { set k | k in t.creds && t.creds[k].owner == user }

  predicate HasFactor(t: Tables, user: nat) { HasAuthenticator(t, user) || Passkeys(t, user) != {} }

  datatype Enrollment = Enrollment(kind: Method, id: nat)

  ghost predicate Lists(t: Tables, user: nat, es: seq<Enrollment>)
  {
    forall e :: e in es <==>
      if e.kind == Authenticator then e.id == 0 && HasAuthenticator(t, user) else e.id in Passkeys(t, user)
  }

  lemma ListedIsHeld(t: Tables, user: nat, es: seq<Enrollment>)
    requires Lists(t, user, es)
    ensures es != [] <==> HasFactor(t, user)
  {
    if es != [] { assert es[0] in es; }
    if HasAuthenticator(t, user) { assert Enrollment(Authenticator, 0) in es; }
    if k :| k in Passkeys(t, user) { assert Enrollment(Passkey, k) in es; }
  }

  /** A factor the user would hold after the removal. */
  predicate OtherFactor(t: Tables, user: nat, removing: Method, id: Option<nat>)
  {
    (removing != Authenticator && HasAuthenticator(t, user)) ||
    exists k | k in Passkeys(t, user) :: removing != Passkey || (id.Some? && id.value != k)
  }

  predicate GuardPasses(t: Tables, user: nat, removing: Method, id: Option<nat>, required: bool)
  {
    required ==> OtherFactor(t, user, removing, id)
  }

  datatype Policy = Policy(requireAdmin: bool)

  predicate RequiredFor(role: string, p: Policy) { p.requireAdmin && role == "admin" }

  /** CanRemoveMethod on the methods that remain. */
  predicate CanRemoveMethod(role: string, remaining: seq<Method>, p: Policy)
  {
    RequiredFor(role, p) ==> exists m | m in remaining :: m == Authenticator || m == Passkey
  }

  // ---------- Calls, served one at a time ----------

  datatype Op =
    | ReauthPassword(valid: bool)
    | BeginReauth
    | FinishReauth(session: nat, valid: bool)
    | DisableTotp
    | RemovePasskey(id: nat)
    | RegenerateCodes
    | ResetOther(target: nat)
    | EnrollTotp
    | BeginRegistration
    | FinishRegistration(session: nat, valid: bool)
    | ConfirmEnrollment(valid: bool, counter: nat)
    | UseCode(row: nat)

  /** role and policy are what the call finds when it asks; call is a number of its own; valid
      says that the password, the assertion, the attestation or the code sent along is right. */
  datatype Request = Request(call: nat, user: nat, op: Op, grant: Option<nat>, role: string, policy: Policy) {
    /** The policy demands a factor of the user. */
    predicate Required() { RequiredFor(role, policy) }
  }

  function SpendGrant(t: Tables, r: Request): (Tables, bool)
  {
    if r.grant.None? then (t, false) else TakeGrant(t, r.grant.value, r.user)
  }

  function ProofFor(t: Tables, r: Request): Option<Proof>
  {
    if !HasFactor(t, r.user) then Some(NoFactor)
    else if SpendGrant(t, r).1 then Some(Spent(r.grant.value))
    else None
  }

  /** The tables after a new factor was let through, or not. */
  function Gated(t: Tables, r: Request): Tables { if HasFactor(t, r.user) then SpendGrant(t, r).0 else t }

  function ClearIfNoFactor(t: Tables, user: nat): Tables { if HasFactor(t, user) then t else DeleteCodes(t, user) }

  function Serve(t: Tables, r: Request): (Tables, bool)
  {
    match r.op
    case ReauthPassword(valid) => if valid then (CreateGrant(t, r.user, "password"), true) else (t, false)
    case BeginReauth =>
      if Passkeys(t, r.user) == {} then (t, false)
      else
        var (u, id) := CreateSession(t, r.user, "reauth", Origin(r.call, NoFactor));
        (u, id.Some?)
    case FinishReauth(session, valid) =>
      var (u, taken) := TakeSession(t, session, r.user, "reauth");
      if taken.None? || !valid then (u, false) else (CreateGrant(u, r.user, "webauthn"), true)
    case DisableTotp =>
      if !GuardPasses(t, r.user, Authenticator, None, r.Required()) then (t, false)
      else if !SpendGrant(t, r).1 then (t, false)
      else (ClearIfNoFactor(DeleteTotp(SpendGrant(t, r).0, r.user), r.user), true)
    case RemovePasskey(id) =>
      if !GuardPasses(t, r.user, Passkey, Some(id), r.Required()) then (t, false)
      else if !SpendGrant(t, r).1 then (t, false)
      else
        var (u, found) := DeleteCredential(SpendGrant(t, r).0, r.user, id);
        if found then (ClearIfNoFactor(u, r.user), true) else (u, false)
    case RegenerateCodes =>
      if !HasFactor(t, r.user) || !SpendGrant(t, r).1 then (t, false)
      else (ReplaceCodes(SpendGrant(t, r).0, r.user), true)
    case ResetOther(target) =>
      if target == r.user || target !in t.users || !SpendGrant(t, r).1 then (t, false)
      else (ResetUser(SpendGrant(t, r).0, target), true)
    case EnrollTotp =>
      if ProofFor(t, r).None? then (t, false) else UpsertPendingTotp(Gated(t, r), r.user)
    case BeginRegistration =>
      var proof := ProofFor(t, r);
      if proof.None? then (t, false)
      else
        var (u, id) := CreateSession(Gated(t, r), r.user, "register", Origin(r.call, proof.value));
        (u, id.Some?)
    case FinishRegistration(session, valid) =>
      var (u, taken) := TakeSession(t, session, r.user, "register");
      if taken.None? || !valid then (u, false)
      else
        var v := InsertCredential(u, r.user, taken.value.origin);
        (if UnusedCodes(v, r.user) == {} then ReplaceCodes(v, r.user) else v, true)
    case ConfirmEnrollment(valid, counter) =>
      if r.user !in t.totp || t.totp[r.user].confirmed || t.now > t.totp[r.user].pendingUntil || !valid then (t, false)
      else (ReplaceCodes(ConfirmTotp(t, r.user, counter), r.user), true)
    case UseCode(row) => ConsumeCode(t, r.user, row)
  }

  /** A run of calls that do not overlap; time passes between them. */
  datatype Turn = Call(request: Request) | Wait(seconds: nat)

  function TakeTurn(t: Tables, turn: Turn): Tables
  {
    match turn
    case Call(r) => Serve(t, r).0
    case Wait(seconds) => t.(now := t.now + seconds)
  }

  function RunTurns(t: Tables, turns: seq<Turn>): Tables
  {
    if turns == [] then t else TakeTurn(RunTurns(t, turns[..|turns| - 1]), turns[|turns| - 1])
  }

  // ---------- What such a run keeps ----------

  /** What the tables say of one user: the factors held and the codes left. */
  datatype View = View(authenticator: bool, passkeys: set<nat>, unused: set<nat>)

  function ViewOf(t: Tables, user: nat): View
  {
    View(HasAuthenticator(t, user), Passkeys(t, user), UnusedCodes(t, user))
  }

  predicate Holds(v: View) { v.authenticator || v.passkeys != {} }

  function Cleared(v: View): View { if Holds(v) then v else v.(unused := {}) }

  lemma ClearedView(t: Tables, user: nat, other: nat)
    ensures ViewOf(ClearIfNoFactor(t, user), other) == if other == user then Cleared(ViewOf(t, user)) else ViewOf(t, other)
  {}

  lemma SpendView(t: Tables, r: Request, user: nat)
    ensures ViewOf(SpendGrant(t, r).0, user) == ViewOf(t, user) && ViewOf(Gated(t, r), user) == ViewOf(t, user)
    ensures SpendGrant(t, r).0.next == t.next && SpendGrant(t, r).0.creds == t.creds && SpendGrant(t, r).0.codes == t.codes
  {}

  lemma ReplacedView(t: Tables, user: nat, other: nat)
    requires Fresh(t)
    ensures ViewOf(ReplaceCodes(t, user), other) ==
      if other == user then ViewOf(t, user).(unused := NewIds(t.next, CODE_COUNT)) else ViewOf(t, other)
  {
    if other != user {
      assert UnusedCodes(ReplaceCodes(t, user), other) == UnusedCodes(t, other);
    }
  }

  lemma ResetView(t: Tables, user: nat, other: nat)
    ensures ViewOf(ResetUser(t, user), other) == if other == user then View(false, {}, {}) else ViewOf(t, other)
  {
    if other != user {
      assert Passkeys(ResetUser(t, user), other) == Passkeys(t, other);
      assert UnusedCodes(ResetUser(t, user), other) == UnusedCodes(t, other);
    }
  }

  lemma StatementViews(t: Tables, user: nat, other: nat)
    ensures ViewOf(DeleteTotp(t, user), other) == if other == user then ViewOf(t, user).(authenticator := false) else ViewOf(t, other)
    ensures ViewOf(UpsertPendingTotp(t, user).0, other) == ViewOf(t, other)
  {}

  lemma DeletedView(t: Tables, user: nat, id: nat, other: nat)
    ensures ViewOf(DeleteCredential(t, user, id).0, other) ==
      if other == user then ViewOf(t, user).(passkeys := Passkeys(t, user) - {id}) else ViewOf(t, other)
    ensures DeleteCredential(t, user, id).1 <==> id in Passkeys(t, user)
  {
    assert Passkeys(DeleteCredential(t, user, id).0, user) == Passkeys(t, user) - {id};
    if other != user {
      assert Passkeys(DeleteCredential(t, user, id).0, other) == Passkeys(t, other);
    }
  }

  lemma InsertedView(t: Tables, user: nat, origin: Origin, other: nat)
    requires Fresh(t)
    ensures ViewOf(InsertCredential(t, user, origin), other) ==
      if other == user then ViewOf(t, user).(passkeys := Passkeys(t, user) + {t.next}) else ViewOf(t, other)
  {
    assert Passkeys(InsertCredential(t, user, origin), user) == Passkeys(t, user) + {t.next};
    if other != user {
      assert Passkeys(InsertCredential(t, user, origin), other) == Passkeys(t, other);
    }
  }

  lemma ConfirmedView(t: Tables, user: nat, counter: nat, other: nat)
    requires user in t.totp
    ensures ViewOf(ConfirmTotp(t, user, counter), other) ==
      if other == user then ViewOf(t, user).(authenticator := true) else ViewOf(t, other)
  {}

  lemma ConsumedView(t: Tables, user: nat, row: nat, other: nat)
    ensures ViewOf(ConsumeCode(t, user, row).0, other) ==
      if other == user then ViewOf(t, user).(unused := UnusedCodes(t, user) - {row}) else ViewOf(t, other)
    ensures ConsumeCode(t, user, row).1 <==> row in UnusedCodes(t, user)
  {
    assert UnusedCodes(ConsumeCode(t, user, row).0, user) == UnusedCodes(t, user) - {row};
    if other != user {
      assert UnusedCodes(ConsumeCode(t, user, row).0, other) == UnusedCodes(t, other);
    }
  }

  /** What a call makes of the factors and codes of the user it acts on; v is how they were, new
      the ids the database hands out next. */
  function Served(v: View, r: Request, spent: bool, pending: bool, taken: bool, next: nat): View
  {
    var codes := NewIds(next, CODE_COUNT);
    match r.op
    case DisableTotp =>
      if (r.Required() ==> v.passkeys != {}) && spent then Cleared(v.(authenticator := false)) else v
    case RemovePasskey(id) =>
      if (r.Required() ==> v.authenticator || v.passkeys - {id} != {}) && spent && id in v.passkeys
      then Cleared(v.(passkeys := v.passkeys - {id})) else v
    case RegenerateCodes => if Holds(v) && spent then v.(unused := codes) else v
    case FinishRegistration(_, valid) =>
      if !taken || !valid then v
      else if v.unused == {} then View(v.authenticator, v.passkeys + {next}, NewIds(next + 1, CODE_COUNT))
      else v.(passkeys := v.passkeys + {next})
    case ConfirmEnrollment(valid, _) => if pending && valid then View(true, v.passkeys, codes) else v
    case UseCode(row) => v.(unused := v.unused - {row})
    case _ => v
  }

  predicate Pending(t: Tables, user: nat)
  {
    user in t.totp && !t.totp[user].confirmed && t.now <= t.totp[user].pendingUntil
  }

  lemma GuardView(t: Tables, user: nat, id: nat, required: bool)
    ensures GuardPasses(t, user, Authenticator, None, required) <==> (required ==> Passkeys(t, user) != {})
    ensures GuardPasses(t, user, Passkey, Some(id), required) <==>
      (required ==> HasAuthenticator(t, user) || Passkeys(t, user) - {id} != {})
  {
    if OtherFactor(t, user, Authenticator, None) {
      var k :| k in Passkeys(t, user);
    }
    if Passkeys(t, user) != {} {
      var k :| k in Passkeys(t, user);
      assert OtherFactor(t, user, Authenticator, None);
    }
    if Passkeys(t, user) - {id} != {} {
      var k :| k in Passkeys(t, user) - {id};
      assert OtherFactor(t, user, Passkey, Some(id));
    }
    if k :| k in Passkeys(t, user) && id != k { assert k in Passkeys(t, user) - {id}; }
  }

  lemma RemovalView(t: Tables, r: Request, user: nat)
    requires r.op.DisableTotp? || r.op.RemovePasskey?
    ensures ViewOf(Serve(t, r).0, user) ==
      if user == r.user then Served(ViewOf(t, user), r, SpendGrant(t, r).1, false, false, t.next) else ViewOf(t, user)
  {
    var u := SpendGrant(t, r).0;
    SpendView(t, r, user);
    GuardView(t, r.user, if r.op.RemovePasskey? then r.op.id else 0, r.Required());
    StatementViews(u, r.user, user);
    ClearedView(DeleteTotp(u, r.user), r.user, user);
    if r.op.RemovePasskey? {
      DeletedView(u, r.user, r.op.id, user);
      ClearedView(DeleteCredential(u, r.user, r.op.id).0, r.user, user);
    }
    hide GuardPasses, SpendGrant, ClearIfNoFactor, DeleteTotp, DeleteCredential, HasAuthenticator, Passkeys, UnusedCodes;
  }

  lemma IssueView(t: Tables, r: Request, user: nat)
    requires Fresh(t) && (r.op.RegenerateCodes? || r.op.ConfirmEnrollment? || r.op.UseCode?)
    ensures ViewOf(Serve(t, r).0, user) ==
      if user == r.user then Served(ViewOf(t, user), r, SpendGrant(t, r).1, Pending(t, r.user), false, t.next)
      else ViewOf(t, user)
  {
    var u := SpendGrant(t, r).0;
    SpendView(t, r, user);
    SpendKeeps(t, r);
    match r.op
    case RegenerateCodes =>
      ReplacedView(u, r.user, user);
    case ConfirmEnrollment(_, counter) =>
      if Pending(t, r.user) {
        ConfirmedView(t, r.user, counter, user);
        ReplacedView(ConfirmTotp(t, r.user, counter), r.user, user);
      }
    case UseCode(row) =>
      ConsumedView(t, r.user, row, user);
  }

  lemma FinishView(t: Tables, r: Request, user: nat)
    requires Fresh(t) && r.op.FinishRegistration?
    ensures ViewOf(Serve(t, r).0, user) ==
      if user == r.user then Served(ViewOf(t, user), r, false, false, TakeSession(t, r.op.session, user, "register").1.Some?, t.next)
      else ViewOf(t, user)
  {
    var (u, taken) := TakeSession(t, r.op.session, r.user, "register");
    assert Fresh(u) && ViewOf(u, user) == ViewOf(t, user) && u.next == t.next;
    if taken.Some? && r.op.valid {
      var v := InsertCredential(u, r.user, taken.value.origin);
      assert Fresh(v);
      InsertedView(u, r.user, taken.value.origin, user);
      InsertedView(u, r.user, taken.value.origin, r.user);
      ReplacedView(v, r.user, user);
      hide InsertCredential, ReplaceCodes, HasAuthenticator, Passkeys, UnusedCodes, Fresh, TakeSession;
    }
  }

  lemma GateView(t: Tables, r: Request, user: nat)
    requires r.op.EnrollTotp? || r.op.BeginRegistration?
    ensures ViewOf(Serve(t, r).0, user) == ViewOf(t, user)
  {
    SpendView(t, r, user);
    StatementViews(Gated(t, r), r.user, user);
    hide HasFactor, SpendGrant, UpsertPendingTotp;
  }

  predicate Reauthenticates(op: Op) { op.ReauthPassword? || op.BeginReauth? || op.FinishReauth? }

  /** Proving an identity touches only sessions and grants. */
  lemma ReauthKeeps(t: Tables, r: Request)
    requires Reauthenticates(r.op)
    ensures var u := Serve(t, r).0;
      u == t.(sessions := u.sessions, grants := u.grants, next := u.next) && u.next >= t.next
  {
    hide Passkeys;
  }

  lemma ReauthView(t: Tables, r: Request, user: nat)
    requires Reauthenticates(r.op)
    ensures ViewOf(Serve(t, r).0, user) == ViewOf(t, user)
  {
    ReauthKeeps(t, r);
    hide Serve;
  }

  /** The whole effect of a call on the factors and codes of any user. */
  lemma ServeView(t: Tables, r: Request, user: nat)
    requires Fresh(t)
    ensures ViewOf(Serve(t, r).0, user) ==
      if r.op == ResetOther(user) && user != r.user && user in t.users && SpendGrant(t, r).1 then View(false, {}, {})
      else if user == r.user
      then Served(ViewOf(t, user), r, SpendGrant(t, r).1, Pending(t, user),
                  r.op.FinishRegistration? && TakeSession(t, r.op.session, user, "register").1.Some?, t.next)
      else ViewOf(t, user)
  {
    if r.op.DisableTotp? || r.op.RemovePasskey? {
      RemovalView(t, r, user);
    } else if r.op.RegenerateCodes? || r.op.ConfirmEnrollment? || r.op.UseCode? {
      IssueView(t, r, user);
    } else if r.op.FinishRegistration? {
      FinishView(t, r, user);
    } else if r.op.ResetOther? {
      SpendView(t, r, user);
      ResetView(SpendGrant(t, r).0, r.op.target, user);
    } else if Reauthenticates(r.op) {
      ReauthView(t, r, user);
    } else {
      GateView(t, r, user);
    }
    hide HasAuthenticator, Passkeys, UnusedCodes, SpendGrant, ResetUser, TakeSession, Pending, Cleared, Holds, NewIds;
  }

  /** Unused recovery codes exist only beside a confirmed factor. */
  predicate CodesNeedAFactor(v: View) { v.unused != {} ==> Holds(v) }

  /** A call keeps that; under a mandatory policy a user who holds a factor never gives up the
      last; a passkey leaves codes that are still unused alone; a confirmed authenticator always
      brings new ones; and a code works once. */
  lemma WhatACallKeeps(v: View, r: Request, spent: bool, pending: bool, taken: bool, next: nat)
    ensures var w := Served(v, r, spent, pending, taken, next);
      (CodesNeedAFactor(v) ==> CodesNeedAFactor(w)) &&
      (r.Required() && Holds(v) ==> Holds(w)) &&
      (r.op.FinishRegistration? && v.unused != {} ==> w.unused == v.unused) &&
      (r.op.ConfirmEnrollment? && w.authenticator && !v.authenticator ==> w.unused == NewIds(next, CODE_COUNT)) &&
      (r.op.UseCode? ==> r.op.row !in w.unused)
  {
    hide NewIds;
  }

  lemma SpendKeeps(t: Tables, r: Request)
    ensures SpendGrant(t, r).0 == t.(grants := SpendGrant(t, r).0.grants) && Gated(t, r) == t.(grants := Gated(t, r).grants)
  {}

  lemma RemovalsStayFresh(t: Tables, r: Request)
    requires Fresh(t) && (r.op.DisableTotp? || r.op.RemovePasskey? || r.op.UseCode?)
    ensures Fresh(Serve(t, r).0)
  {
    SpendKeeps(t, r);
    hide SpendGrant, GuardPasses, HasFactor;
  }

  lemma IssuesStayFresh(t: Tables, r: Request)
    requires Fresh(t) && (r.op.RegenerateCodes? || r.op.ConfirmEnrollment? || r.op.ResetOther?)
    ensures Fresh(Serve(t, r).0)
  {
    SpendKeeps(t, r);
    hide SpendGrant, HasFactor;
  }

  lemma FinishStaysFresh(t: Tables, r: Request)
    requires Fresh(t) && r.op.FinishRegistration?
    ensures Fresh(Serve(t, r).0)
  {
    hide UnusedCodes;
  }

  lemma GatesStayFresh(t: Tables, r: Request)
    requires Fresh(t) && (r.op.EnrollTotp? || r.op.BeginRegistration?)
    ensures Fresh(Serve(t, r).0)
  {
    SpendKeeps(t, r);
    hide SpendGrant, HasFactor, Gated;
  }

  lemma ReauthStaysFresh(t: Tables, r: Request)
    requires Fresh(t) && Reauthenticates(r.op)
    ensures Fresh(Serve(t, r).0)
  {
    ReauthKeeps(t, r);
    hide Serve;
  }

  lemma ServeStaysFresh(t: Tables, r: Request)
    requires Fresh(t)
    ensures Fresh(Serve(t, r).0)
  {
    if r.op.DisableTotp? || r.op.RemovePasskey? || r.op.UseCode? {
      RemovalsStayFresh(t, r);
    } else if r.op.FinishRegistration? {
      FinishStaysFresh(t, r);
    } else if r.op.RegenerateCodes? || r.op.ConfirmEnrollment? || r.op.ResetOther? {
      IssuesStayFresh(t, r);
    } else if Reauthenticates(r.op) {
      ReauthStaysFresh(t, r);
    } else {
      GatesStayFresh(t, r);
    }
    hide Fresh, Serve;
  }

  lemma {:induction false} RunStaysFresh(t: Tables, turns: seq<Turn>)
    requires Fresh(t)
    ensures Fresh(RunTurns(t, turns))
  {
    if turns != [] {
      RunStaysFresh(t, turns[..|turns| - 1]);
      var turn := turns[|turns| - 1];
      if turn.Call? { ServeStaysFresh(RunTurns(t, turns[..|turns| - 1]), turn.request); }
      hide Serve;
    }
  }

  /** In every run of calls that do not overlap, a user's unused recovery codes exist only while
      the user holds a confirmed factor. */
  lemma {:induction false} CodesNeedAFactorThroughout(t: Tables, turns: seq<Turn>, user: nat)
    requires Fresh(t) && CodesNeedAFactor(ViewOf(t, user))
    ensures CodesNeedAFactor(ViewOf(RunTurns(t, turns), user))
  {
    if turns != [] {
      var before, turn := RunTurns(t, turns[..|turns| - 1]), turns[|turns| - 1];
      CodesNeedAFactorThroughout(t, turns[..|turns| - 1], user);
      RunStaysFresh(t, turns[..|turns| - 1]);
      if turn.Call? {
        var r := turn.request;
        ServeView(before, r, user);
        WhatACallKeeps(ViewOf(before, user), r, SpendGrant(before, r).1, Pending(before, user),
          r.op.FinishRegistration? && TakeSession(before, r.op.session, user, "register").1.Some?, before.next);
      }
      hide Serve, Served, SpendGrant, Pending, TakeSession, HasAuthenticator, Passkeys, UnusedCodes;
    }
  }

  /** The policy binds the user throughout, and nobody else resets them. */
  predicate Bound(turn: Turn, user: nat)
  {
    turn.Call? ==> (turn.request.user == user ==> turn.request.Required()) && turn.request.op != ResetOther(user)
  }

  /** In every run of calls that do not overlap, under an unchanged mandatory policy, a user who
      holds a factor never reaches none by calls of their own. */
  lemma {:induction false} NeverWithoutAFactor(t: Tables, turns: seq<Turn>, user: nat)
    requires Fresh(t) && Holds(ViewOf(t, user)) && forall turn | turn in turns :: Bound(turn, user)
    ensures Holds(ViewOf(RunTurns(t, turns), user))
  {
    if turns != [] {
      var before, turn := RunTurns(t, turns[..|turns| - 1]), turns[|turns| - 1];
      assert turn in turns && forall u | u in turns[..|turns| - 1] :: u in turns;
      NeverWithoutAFactor(t, turns[..|turns| - 1], user);
      RunStaysFresh(t, turns[..|turns| - 1]);
      if turn.Call? {
        var r := turn.request;
        ServeView(before, r, user);
        WhatACallKeeps(ViewOf(before, user), r, SpendGrant(before, r).1, Pending(before, user),
          r.op.FinishRegistration? && TakeSession(before, r.op.session, user, "register").1.Some?, before.next);
      }
      hide Serve, Served, SpendGrant, Pending, TakeSession, HasAuthenticator, Passkeys, UnusedCodes;
    }
  }

  // ---------- Re-authentication by passkey ----------

  /** The sessions there are have the purposes the table takes. */
  predicate PurposesAllowed(t: Tables)
  {
    forall k | k in t.sessions :: t.sessions[k].purpose in {"register", "authenticate"}
  }

  /** No grant there is was earned with a passkey. */
  predicate NoPasskeyGrant(t: Tables)
  {
    forall g | g in t.grants :: t.grants[g].how != "webauthn"
  }

  lemma NoReauthSession(t: Tables, user: nat, origin: Origin)
    ensures CreateSession(t, user, "reauth", origin) == (t, None)
  {
    assert |"reauth"| == 6 && |"register"| == 8 && |"authenticate"| == 12;
  }

  lemma RefusedPurpose(t: Tables, user: nat, id: nat, origin: Origin)
    requires PurposesAllowed(t)
    ensures CreateSession(t, user, "reauth", origin) == (t, None)
    ensures TakeSession(t, id, user, "reauth") == (t, None)
  {
    NoReauthSession(t, user, origin);
    assert |"reauth"| == 6 && |"register"| == 8 && |"authenticate"| == 12;
  }

  /** A statement that leaves the grants alone or drops some, and the sessions, or adds one of a
      purpose the table takes. */
  ghost predicate NoNewGrants(t: Tables, u: Tables)
  {
    (forall g | g in u.grants :: g in t.grants && u.grants[g] == t.grants[g]) &&
    forall k | k in u.sessions :: (k in t.sessions && u.sessions[k] == t.sessions[k]) || u.sessions[k].purpose == "register"
  }

  lemma NoNewGrantsKeep(t: Tables, u: Tables)
    requires NoNewGrants(t, u) && PurposesAllowed(t) && NoPasskeyGrant(t)
    ensures PurposesAllowed(u) && NoPasskeyGrant(u)
  {}

  lemma SpendAddsNoGrants(t: Tables, r: Request)
    ensures NoNewGrants(t, SpendGrant(t, r).0) && NoNewGrants(t, Gated(t, r))
  {}

  lemma RemovalsKeepGrants(t: Tables, r: Request)
    requires r.op.DisableTotp? || r.op.RemovePasskey?
    ensures var u := Serve(t, r).0;
      u.sessions == t.sessions && (u.grants == t.grants || u.grants == SpendGrant(t, r).0.grants)
  {
    SpendKeeps(t, r);
    hide HasFactor, GuardPasses, SpendGrant;
  }

  lemma RemovalsAddNoGrants(t: Tables, r: Request)
    requires r.op.DisableTotp? || r.op.RemovePasskey?
    ensures NoNewGrants(t, Serve(t, r).0)
  {
    RemovalsKeepGrants(t, r);
    SpendAddsNoGrants(t, r);
    hide Serve, SpendGrant;
  }

  lemma ProtectedAddNoGrants(t: Tables, r: Request)
    requires r.op.RegenerateCodes? || r.op.ResetOther? || r.op.EnrollTotp?
    ensures NoNewGrants(t, Serve(t, r).0)
  {
    SpendAddsNoGrants(t, r);
    SpendKeeps(t, r);
    hide HasFactor, SpendGrant, NewIds, Gated;
  }

  lemma BeginAddsNoGrants(t: Tables, r: Request)
    requires r.op.BeginRegistration?
    ensures NoNewGrants(t, Serve(t, r).0)
  {
    SpendAddsNoGrants(t, r);
    SpendKeeps(t, r);
    hide HasFactor, SpendGrant, Gated;
  }

  lemma FinishKeepsGrants(t: Tables, r: Request)
    requires r.op.FinishRegistration?
    ensures Serve(t, r).0.grants == t.grants && Serve(t, r).0.sessions == TakeSession(t, r.op.session, r.user, "register").0.sessions
  {
    hide UnusedCodes, NewIds;
  }

  lemma FinishAddsNoGrants(t: Tables, r: Request)
    requires r.op.FinishRegistration?
    ensures NoNewGrants(t, Serve(t, r).0)
  {
    FinishKeepsGrants(t, r);
    hide Serve;
  }

  lemma OthersAddNoGrants(t: Tables, r: Request)
    requires r.op.ConfirmEnrollment? || r.op.UseCode?
    ensures NoNewGrants(t, Serve(t, r).0)
  {
    hide UnusedCodes, NewIds;
  }

  lemma ServeGrants(t: Tables, r: Request)
    requires PurposesAllowed(t) && NoPasskeyGrant(t)
    ensures PurposesAllowed(Serve(t, r).0) && NoPasskeyGrant(Serve(t, r).0)
    ensures r.op.BeginReauth? || r.op.FinishReauth? ==> Serve(t, r) == (t, false)
  {
    if Reauthenticates(r.op) {
      RefusedPurpose(t, r.user, if r.op.FinishReauth? then r.op.session else 0, Origin(r.call, NoFactor));
      assert |"password"| == 8 && "password"[0] != "webauthn"[0];
      hide CreateSession, TakeSession, Passkeys;
    } else {
      if r.op.BeginRegistration? {
        BeginAddsNoGrants(t, r);
      } else if r.op.FinishRegistration? {
        FinishAddsNoGrants(t, r);
      } else if r.op.ConfirmEnrollment? || r.op.UseCode? {
        OthersAddNoGrants(t, r);
      } else if r.op.DisableTotp? || r.op.RemovePasskey? {
        RemovalsAddNoGrants(t, r);
      } else {
        ProtectedAddNoGrants(t, r);
      }
      hide Serve;
      NoNewGrantsKeep(t, Serve(t, r).0);
    }
  }

  /** The table refuses the purpose that a re-authentication by passkey asks for: after any run
      neither half of that ceremony gets anywhere, and no grant was earned with a passkey. */
  lemma {:induction false} NoPasskeyReauthentication(t: Tables, turns: seq<Turn>, r: Request)
    requires PurposesAllowed(t) && NoPasskeyGrant(t)
    ensures var u := RunTurns(t, turns);
      PurposesAllowed(u) && NoPasskeyGrant(u) && (r.op.BeginReauth? || r.op.FinishReauth? ==> Serve(u, r) == (u, false))
  {
    if turns != [] {
      var before, turn := RunTurns(t, turns[..|turns| - 1]), turns[|turns| - 1];
      NoPasskeyReauthentication(t, turns[..|turns| - 1], r);
      if turn.Call? { ServeGrants(before, turn.request); }
    }
    ServeGrants(RunTurns(t, turns), r);
    hide Serve;
  }
}
