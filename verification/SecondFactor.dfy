/** The database and the handlers that change a user's second factors, statement by statement. */
module SecondFactor {
  import opened Json
  import opened Text
  import opened Factors

  class Database {
    var t: Tables

    constructor (t: Tables)
      ensures this.t == t
    {
      this.t := t;
    }

    /** GetTOTP, as the handlers use it: whether a confirmed enrolment is there. */
    method Confirmed(user: nat) returns (confirmed: bool)
      ensures confirmed == HasAuthenticator(t, user)
    {
      confirmed := user in t.totp && t.totp[user].confirmed;
    }

    method ListCredentials(user: nat) returns (ids: seq<nat>)
      ensures forall k :: k in ids <==> k in Passkeys(t, user)
    {
      ids := [];
      var rest := t.creds.Keys;
      while rest != {}
        invariant rest <= t.creds.Keys
        invariant forall k :: k in ids <==> k in Passkeys(t, user) && k !in rest
        decreases rest
      {
        var k :| k in rest;
        if t.creds[k].owner == user {
          ids := ids + [k];
        }
        rest := rest - {k};
      }
    }

    method ListEnrollments(user: nat) returns (es: seq<Enrollment>)
      ensures Lists(t, user, es)
    {
      es := [];
      var confirmed := Confirmed(user);
      if confirmed {
        es := es + [Enrollment(Authenticator, 0)];
      }
      var ids := ListCredentials(user);
      for i := 0 to |ids|
        invariant forall e :: e in es <==>
          if e.kind == Authenticator then e.id == 0 && confirmed else e.id in ids[..i]
      {
        assert ids[..i + 1] == ids[..i] + [ids[i]];
        es := es + [Enrollment(Passkey, ids[i])];
      }
      assert ids[..|ids|] == ids;
    }
  }

  // An assignment to db.t is one statement.

  /** requireReauth: spends the grant that came with the request. */
  method RequireReauth(db: Database, r: Request) returns (ok: bool)
    modifies db
    ensures (db.t, ok) == SpendGrant(old(db.t), r)
  {
    if r.grant.None? {
      return false;
    }
    var (u, taken) := TakeGrant(db.t, r.grant.value, r.user);
    db.t := u;
    ok := taken;
  }

  /** requireReauthForNewFactor: a first factor needs no proof. */
  method RequireReauthForNewFactor(db: Database, r: Request) returns (proof: Option<Proof>)
    modifies db
    ensures proof == ProofFor(old(db.t), r)
    ensures db.t == if proof.Some? then Gated(old(db.t), r) else old(db.t)
  {
    var es := db.ListEnrollments(r.user);
    ListedIsHeld(db.t, r.user, es);
    if |es| == 0 {
      return Some(NoFactor);
    }
    var ok := RequireReauth(db, r);
    proof := if ok then Some(Spent(r.grant.value)) else None;
  }

  /** guardLastFactor: the factors that would remain must satisfy the policy. */
  method GuardLastFactor(db: Database, user: nat, role: string, policy: Policy, removing: Method, id: Option<nat>)
    returns (ok: bool)
    requires removing == Authenticator ==> id.None?
    ensures ok == GuardPasses(db.t, user, removing, id, RequiredFor(role, policy))
  {
    var es := db.ListEnrollments(user);
    var remaining: seq<Method> := [];
    for i := 0 to |es|
      invariant remaining != [] <==> exists e :: e in es[..i] && Stays(e, removing, id)
    {
      assert es[..i + 1] == es[..i] + [es[i]];
      if !(es[i].kind == removing && (id.None? || es[i].id == id.value)) {
        remaining := remaining + [es[i].kind];
        assert Stays(es[i], removing, id);
      }
    }
    assert es[..|es|] == es;
    RemainingIsOther(db.t, user, es, removing, id);
    assert remaining != [] ==> remaining[0] in remaining;
    ok := CanRemoveMethod(role, remaining, policy);
  }

  predicate Stays(e: Enrollment, removing: Method, id: Option<nat>)
  {
    !(e.kind == removing && (id.None? || e.id == id.value))
  }

  lemma RemainingIsOther(t: Tables, user: nat, es: seq<Enrollment>, removing: Method, id: Option<nat>)
    requires Lists(t, user, es) && (removing == Authenticator ==> id.None?)
    ensures (exists e :: e in es && Stays(e, removing, id)) <==> OtherFactor(t, user, removing, id)
  {
    if e :| e in es && Stays(e, removing, id) {
      if e.kind == Passkey { assert e.id in Passkeys(t, user); }
    }
    if removing != Authenticator && HasAuthenticator(t, user) {
      assert Enrollment(Authenticator, 0) in es && Stays(Enrollment(Authenticator, 0), removing, id);
    }
    if k :| k in Passkeys(t, user) && (removing != Passkey || (id.Some? && id.value != k)) {
      assert Enrollment(Passkey, k) in es && Stays(Enrollment(Passkey, k), removing, id);
    }
  }

  /** clearBackupCodesIfNoFactors. */
  method ClearBackupCodesIfNoFactors(db: Database, user: nat)
    modifies db
    ensures db.t == ClearIfNoFactor(old(db.t), user)
  {
    var es := db.ListEnrollments(user);
    ListedIsHeld(db.t, user, es);
    if |es| == 0 {
      db.t := DeleteCodes(db.t, user);
    }
  }

  // ---------- The handlers ----------

  method ReauthWithPassword(db: Database, r: Request) returns (ok: bool)
    requires r.op.ReauthPassword?
    modifies db
    ensures (db.t, ok) == Serve(old(db.t), r)
  {
    if !r.op.valid {
      return false;
    }
    db.t := CreateGrant(db.t, r.user, "password");
    ok := true;
  }

  method BeginReauthWebAuthn(db: Database, r: Request) returns (ok: bool)
    requires r.op == BeginReauth
    modifies db
    ensures (db.t, ok) == Serve(old(db.t), r)
  {
    hide CreateSession;
    var ids := db.ListCredentials(r.user);
    if |ids| == 0 {
      assert Passkeys(db.t, r.user) == {};
      return false;
    }
    assert ids[0] in ids;
    var (u, id) := CreateSession(db.t, r.user, "reauth", Origin(r.call, NoFactor));
    db.t := u;
    ok := id.Some?;
  }

  method FinishReauthWebAuthn(db: Database, r: Request) returns (ok: bool)
    requires r.op.FinishReauth?
    modifies db
    ensures (db.t, ok) == Serve(old(db.t), r)
  {
    hide TakeSession, CreateGrant;
    var (u, taken) := TakeSession(db.t, r.op.session, r.user, "reauth");
    db.t := u;
    if taken.None? || !r.op.valid {
      return false;
    }
    db.t := CreateGrant(db.t, r.user, "webauthn");
    ok := true;
  }

  method DisableTOTP(db: Database, r: Request) returns (ok: bool)
    requires r.op == DisableTotp
    modifies db
    ensures (db.t, ok) == Serve(old(db.t), r)
  {
    hide GuardPasses, SpendGrant, ClearIfNoFactor, DeleteTotp;
    ok := GuardLastFactor(db, r.user, r.role, r.policy, Authenticator, None);
    if !ok {
      return;
    }
    ok := RequireReauth(db, r);
    if !ok {
      RefusedGrantChangesNothing(db.t, r);
      return;
    }
    db.t := DeleteTotp(db.t, r.user);
    ClearBackupCodesIfNoFactors(db, r.user);
  }

  lemma RefusedGrantChangesNothing(t: Tables, r: Request)
    ensures forall u: Tables :: SpendGrant(u, r) == (t, false) ==> u == t
  {}

  method DeleteWebAuthnCredential(db: Database, r: Request) returns (ok: bool)
    requires r.op.RemovePasskey?
    modifies db
    ensures (db.t, ok) == Serve(old(db.t), r)
  {
    hide GuardPasses, SpendGrant, ClearIfNoFactor, DeleteCredential;
    ok := GuardLastFactor(db, r.user, r.role, r.policy, Passkey, Some(r.op.id));
    if !ok {
      return;
    }
    ok := RequireReauth(db, r);
    if !ok {
      RefusedGrantChangesNothing(db.t, r);
      return;
    }
    var (u, found) := DeleteCredential(db.t, r.user, r.op.id);
    db.t := u;
    ok := found;
    if found {
      ClearBackupCodesIfNoFactors(db, r.user);
    }
  }

  method RegenerateBackupCodes(db: Database, r: Request) returns (ok: bool)
    requires r.op == RegenerateCodes
    modifies db
    ensures (db.t, ok) == Serve(old(db.t), r)
  {
    hide HasFactor, SpendGrant, ReplaceCodes;
    var es := db.ListEnrollments(r.user);
    ListedIsHeld(db.t, r.user, es);
    if |es| == 0 {
      return false;
    }
    ok := RequireReauth(db, r);
    if ok {
      db.t := ReplaceCodes(db.t, r.user);
    } else {
      RefusedGrantChangesNothing(db.t, r);
    }
  }

  method ResetUserMFA(db: Database, r: Request) returns (ok: bool)
    requires r.op.ResetOther?
    modifies db
    ensures (db.t, ok) == Serve(old(db.t), r)
  {
    hide SpendGrant, ResetUser;
    if r.op.target == r.user {
      return false;
    }
    if r.op.target !in db.t.users {
      return false;
    }
    ok := RequireReauth(db, r);
    if ok {
      db.t := ResetUser(db.t, r.op.target);
    } else {
      RefusedGrantChangesNothing(db.t, r);
    }
  }

  method EnrollTOTP(db: Database, r: Request) returns (ok: bool)
    requires r.op == EnrollTotp
    modifies db
    ensures (db.t, ok) == Serve(old(db.t), r)
  {
    hide Gated, ProofFor, UpsertPendingTotp;
    var proof := RequireReauthForNewFactor(db, r);
    if proof.None? {
      return false;
    }
    var (u, stored) := UpsertPendingTotp(db.t, r.user);
    db.t := u;
    ok := stored;
  }

  method BeginWebAuthnRegistration(db: Database, r: Request) returns (ok: bool, session: Option<nat>)
    requires r.op == BeginRegistration
    modifies db
    ensures (db.t, ok) == Serve(old(db.t), r) && ok == session.Some?
  {
    hide Gated, ProofFor, CreateSession;
    var proof := RequireReauthForNewFactor(db, r);
    if proof.None? {
      return false, None;
    }
    var (u, id) := CreateSession(db.t, r.user, "register", Origin(r.call, proof.value));
    db.t := u;
    ok, session := id.Some?, id;
  }

  method FinishWebAuthnRegistration(db: Database, r: Request) returns (ok: bool)
    requires r.op.FinishRegistration?
    modifies db
    ensures (db.t, ok) == Serve(old(db.t), r)
  {
    hide TakeSession, InsertCredential, ReplaceCodes, UnusedCodes;
    var (u, taken) := TakeSession(db.t, r.op.session, r.user, "register");
    db.t := u;
    if taken.None? || !r.op.valid {
      return false;
    }
    db.t := InsertCredential(db.t, r.user, taken.value.origin);
    var existing := UnusedCodes(db.t, r.user);
    if |existing| == 0 {
      db.t := ReplaceCodes(db.t, r.user);
    }
    ok := true;
  }

  method ConfirmTOTP(db: Database, r: Request) returns (ok: bool)
    requires r.op.ConfirmEnrollment?
    modifies db
    ensures (db.t, ok) == Serve(old(db.t), r)
  {
    hide ReplaceCodes;
    if r.user !in db.t.totp {
      return false;
    }
    var enrollment := db.t.totp[r.user];
    if enrollment.confirmed || db.t.now > enrollment.pendingUntil || !r.op.valid {
      return false;
    }
    db.t := Factors.ConfirmTotp(db.t, r.user, r.op.counter);
    db.t := ReplaceCodes(db.t, r.user);
    ok := true;
  }
}
