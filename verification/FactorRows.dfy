/** What a call on second factors leaves in each table, row by row. */
module FactorRows {
  import opened Json
  import opened Text
  import opened Factors

  // ---------- Rows ----------

  ghost predicate NoRowsOf(u: Tables, user: nat)
  {
    user !in u.totp && user !in u.lockouts &&
    (forall k | k in u.creds :: u.creds[k].owner != user) && (forall k | k in u.codes :: u.codes[k].owner != user) &&
    (forall k | k in u.sessions :: u.sessions[k].owner != user) && forall k | k in u.grants :: u.grants[k].owner != user
  }

  /** Every row of anybody else is as it was, but for one grant. */
  ghost predicate OthersStay(t: Tables, u: Tables, user: nat, spent: Option<nat>)
  {
    u.users == t.users && u.now == t.now && u.next == t.next &&
    (forall v | v != user :: (v in u.totp <==> v in t.totp) && (v in t.totp ==> u.totp[v] == t.totp[v]) &&
      (v in u.lockouts <==> v in t.lockouts)) &&
    (forall k | k in t.creds && t.creds[k].owner != user :: k in u.creds && u.creds[k] == t.creds[k]) &&
    (forall k | k in t.codes && t.codes[k].owner != user :: k in u.codes && u.codes[k] == t.codes[k]) &&
    (forall k | k in t.sessions && t.sessions[k].owner != user :: k in u.sessions && u.sessions[k] == t.sessions[k]) &&
    forall k | k in t.grants && t.grants[k].owner != user && Some(k) != spent :: k in u.grants && u.grants[k] == t.grants[k]
  }

  /** No row appears. */
  ghost predicate NothingNew(t: Tables, u: Tables)
  {
    u.totp.Keys <= t.totp.Keys && u.lockouts <= t.lockouts && u.creds.Keys <= t.creds.Keys && u.codes.Keys <= t.codes.Keys &&
    u.sessions.Keys <= t.sessions.Keys && u.grants.Keys <= t.grants.Keys
  }

  /** A reset takes every row of the target, in all six tables, and nothing of anybody else but the
      grant its caller spent on it. */
  lemma ResetTakesEverything(t: Tables, r: Request)
    requires r.op.ResetOther? && Serve(t, r).1
    ensures var u := Serve(t, r).0;
      r.op.target != r.user && r.op.target in t.users && GrantGone(t, u, r) &&
      NoRowsOf(u, r.op.target) && OthersStay(t, u, r.op.target, r.grant) && NothingNew(t, u)
  {}

  /** The grant that came with the call was its user's own, had not expired, and is gone. */
  ghost predicate GrantGone(t: Tables, u: Tables, r: Request)
  {
    r.grant.Some? && r.grant.value in t.grants && t.grants[r.grant.value].owner == r.user &&
    t.grants[r.grant.value].expires > t.now && r.grant.value !in u.grants
  }

  // ---------- Calls on one's own factors ----------

  /** That grant is gone, and no other moved. */
  ghost predicate TookGrant(t: Tables, u: Tables, r: Request)
  {
    GrantGone(t, u, r) && u.grants == t.grants - {r.grant.value}
  }

  /** A new factor costs a grant only beside another. */
  ghost predicate PassedGate(t: Tables, u: Tables, r: Request)
  {
    if (r.user in t.totp && t.totp[r.user].confirmed) || HoldsPasskey(t, r.user)
    then TookGrant(t, u, r) else u.grants == t.grants
  }

  ghost predicate CodesGone(t: Tables, u: Tables, user: nat)
  {
    (forall k :: k in u.codes <==> k in t.codes && t.codes[k].owner != user) && forall k | k in u.codes :: u.codes[k] == t.codes[k]
  }

  /** The user's codes, used or not, made way for ten unused ones. */
  ghost predicate CodesRenewed(t: Tables, u: Tables, user: nat, from: nat)
  {
    (forall k :: k in u.codes <==> (k in t.codes && t.codes[k].owner != user) || from <= k < from + 10) &&
    (forall k | k in u.codes :: u.codes[k] == if from <= k < from + 10 then Code(user, false) else t.codes[k]) &&
    u.next == from + 10
  }

  ghost predicate HoldsPasskey(t: Tables, user: nat) { exists k | k in t.creds :: t.creds[k].owner == user }

  /** Disabling the authenticator takes its row and a grant, and all codes when no passkey is left. */
  lemma DisableRows(t: Tables, r: Request)
    requires r.op.DisableTotp? && Serve(t, r).1
    ensures var u := Serve(t, r).0;
      TookGrant(t, u, r) && u == t.(totp := t.totp - {r.user}, codes := u.codes, grants := u.grants) &&
      if HoldsPasskey(t, r.user) then u.codes == t.codes else CodesGone(t, u, r.user)
  {
    HeldIsListed(t, r.user);
  }

  lemma HeldIsListed(t: Tables, user: nat)
    ensures HoldsPasskey(t, user) <==> Passkeys(t, user) != {}
  {
    if k :| k in t.creds && t.creds[k].owner == user { assert k in Passkeys(t, user); }
  }

  /** Removing a passkey takes its row and a grant, and all codes when no factor is left. */
  lemma RemoveRows(t: Tables, r: Request)
    requires r.op.RemovePasskey? && Serve(t, r).1
    ensures var u := Serve(t, r).0;
      TookGrant(t, u, r) && u == t.(creds := t.creds - {r.op.id}, codes := u.codes, grants := u.grants) &&
      r.op.id in t.creds && t.creds[r.op.id].owner == r.user &&
      if (r.user in t.totp && t.totp[r.user].confirmed) || HoldsPasskey(u, r.user) then u.codes == t.codes
      else CodesGone(t, u, r.user)
  {
    var v := Serve(t, r).0;
    HeldIsListed(v, r.user);
    var w := DeleteCredential(SpendGrant(t, r).0, r.user, r.op.id).0;
    assert Passkeys(v, r.user) == Passkeys(w, r.user);
  }

  lemma RegenerateRows(t: Tables, r: Request)
    requires r.op.RegenerateCodes? && Serve(t, r).1
    ensures var u := Serve(t, r).0;
      TookGrant(t, u, r) && u == t.(codes := u.codes, grants := u.grants, next := u.next) && CodesRenewed(t, u, r.user, t.next)
  {}

  /** An enrolment waits a quarter of an hour for its confirmation. */
  lemma EnrollRows(t: Tables, r: Request)
    requires r.op.EnrollTotp? && Serve(t, r).1
    ensures var u := Serve(t, r).0;
      PassedGate(t, u, r) && !(r.user in t.totp && t.totp[r.user].confirmed) &&
      u == t.(totp := t.totp[r.user := Totp(false, t.now + 15 * 60, 0)], grants := u.grants)
  {
    HeldIsListed(t, r.user);
  }

  /** A confirmed authenticator keeps the step of the code that confirmed it. */
  lemma ConfirmRows(t: Tables, r: Request)
    requires r.op.ConfirmEnrollment? && Serve(t, r).1
    ensures var u := Serve(t, r).0;
      r.op.valid && r.user in t.totp && !t.totp[r.user].confirmed && t.now <= t.totp[r.user].pendingUntil &&
      u == t.(totp := t.totp[r.user := Totp(true, 0, r.op.counter)], codes := u.codes, next := u.next) &&
      CodesRenewed(t, u, r.user, t.next)
  {}

  /** A ceremony has five minutes. */
  lemma BeginRows(t: Tables, r: Request)
    requires r.op.BeginRegistration? && Serve(t, r).1
    ensures var u := Serve(t, r).0;
      PassedGate(t, u, r) && t.next in u.sessions && u.next == t.next + 1 &&
      u == t.(sessions := t.sessions[t.next := u.sessions[t.next]], grants := u.grants, next := u.next) &&
      var s := u.sessions[t.next];
      s.owner == r.user && s.purpose == "register" && s.expires == t.now + 5 * 60 && s.origin.begin == r.call
  {
    HeldIsListed(t, r.user);
  }

  /** A registration takes its session and stores one passkey; new codes come only when none are unused. */
  lemma FinishRows(t: Tables, r: Request)
    requires r.op.FinishRegistration? && Serve(t, r).1
    ensures var u, id := Serve(t, r).0, r.op.session;
      r.op.valid && id in t.sessions && t.sessions[id].owner == r.user && t.sessions[id].purpose == "register" &&
      t.sessions[id].expires > t.now &&
      u == t.(sessions := t.sessions - {id}, creds := t.creds[t.next := Credential(r.user, t.sessions[id].origin)],
              codes := u.codes, next := u.next) &&
      if exists k | k in t.codes :: t.codes[k] == Code(r.user, false) then u.codes == t.codes && u.next == t.next + 1
      else CodesRenewed(t, u, r.user, t.next + 1)
  {
    if k :| k in t.codes && t.codes[k] == Code(r.user, false) { assert k in UnusedCodes(t, r.user); }
  }

  lemma UseCodeRows(t: Tables, r: Request)
    requires r.op.UseCode?
    ensures Serve(t, r).1 <==> r.op.row in t.codes && t.codes[r.op.row] == Code(r.user, false)
    ensures Serve(t, r).0 == if Serve(t, r).1 then t.(codes := t.codes[r.op.row := Code(r.user, true)]) else t
  {}

  /** A grant lasts five minutes and says how it was earned. */
  lemma ReauthRows(t: Tables, r: Request)
    requires (r.op.ReauthPassword? || r.op.FinishReauth?) && Serve(t, r).1
    ensures var u := Serve(t, r).0;
      r.op.valid && u.next == t.next + 1 && t.next in u.grants &&
      u.grants == t.grants[t.next := Grant(r.user, if r.op.ReauthPassword? then "password" else "webauthn", t.now + 5 * 60)] &&
      u == t.(sessions := u.sessions, grants := u.grants, next := u.next) &&
      u.sessions == if r.op.FinishReauth? then t.sessions - {r.op.session} else t.sessions
  {}

  // ---------- Refusals ----------

  /** A refused call changes nothing, but that a ceremony that fails has used up its session, and that
      a grant was spent before an unknown passkey or a confirmed authenticator was found. */
  lemma RefusedRemoval(t: Tables, r: Request)
    requires !Serve(t, r).1 && (r.op.DisableTotp? || r.op.RemovePasskey? || r.op.RegenerateCodes? || r.op.ResetOther?)
    ensures var u := Serve(t, r).0;
      u == t.(grants := u.grants) && (u.grants != t.grants ==> TookGrant(t, u, r) && NotFound(t, r))
  {
    hide HasFactor, GuardPasses, NewIds;
  }

  lemma RefusalRows(t: Tables, r: Request)
    requires !Serve(t, r).1
    ensures var u := Serve(t, r).0;
      u == t.(grants := u.grants, sessions := u.sessions) &&
      (u.grants != t.grants ==> TookGrant(t, u, r) && NotFound(t, r)) &&
      (u.sessions != t.sessions ==> SessionLost(t, u, r))
  {
    hide HasFactor, GuardPasses, NewIds, Passkeys;
    if r.op.DisableTotp? || r.op.RemovePasskey? || r.op.RegenerateCodes? || r.op.ResetOther? { RefusedRemoval(t, r); }
    if r.op.BeginReauth? { NoReauthSession(t, r.user, Origin(r.call, NoFactor)); }
  }

  predicate NotFound(t: Tables, r: Request)
  {
    match r.op
    case RemovePasskey(id) => !(id in t.creds && t.creds[id].owner == r.user)
    case EnrollTotp => r.user in t.totp && t.totp[r.user].confirmed
    case _ => false
  }

  ghost predicate SessionLost(t: Tables, u: Tables, r: Request)
  {
    match r.op
    case FinishRegistration(id, valid) => !valid && u.sessions == t.sessions - {id}
    case FinishReauth(id, valid) => !valid && u.sessions == t.sessions - {id}
    case _ => false
  }

  // ---------- When a call succeeds ----------

  predicate OwnGrant(t: Tables, r: Request)
  {
    r.grant.Some? && r.grant.value in t.grants && t.grants[r.grant.value].owner == r.user && t.grants[r.grant.value].expires > t.now
  }

  predicate OwnSession(t: Tables, id: nat, user: nat, purpose: string)
  {
    id in t.sessions && t.sessions[id].owner == user && t.sessions[id].purpose == purpose && t.sessions[id].expires > t.now
  }

  predicate HoldsApp(t: Tables, user: nat) { user in t.totp && t.totp[user].confirmed }

  ghost predicate HoldsOther(t: Tables, user: nat, id: nat)
  {
    HoldsApp(t, user) || exists k | k in t.creds :: t.creds[k].owner == user && k != id
  }

  /** An admin under the policy needs a factor that stays; whatever is taken away costs a grant; a
      first factor costs none. */
  lemma SucceedsExactly(t: Tables, r: Request)
    ensures Serve(t, r).1 <==>
      var bound, holds := r.policy.requireAdmin && r.role == "admin", HoldsApp(t, r.user) || HoldsPasskey(t, r.user);
      match r.op
      case ReauthPassword(valid) => valid
      case BeginReauth => false
      case FinishReauth(id, valid) => valid && OwnSession(t, id, r.user, "reauth")
      case DisableTotp => (bound ==> HoldsPasskey(t, r.user)) && OwnGrant(t, r)
      case RemovePasskey(id) =>
        (bound ==> HoldsOther(t, r.user, id)) && OwnGrant(t, r) && id in t.creds && t.creds[id].owner == r.user
      case RegenerateCodes => holds && OwnGrant(t, r)
      case ResetOther(target) => target != r.user && target in t.users && OwnGrant(t, r)
      case EnrollTotp => (holds ==> OwnGrant(t, r)) && !HoldsApp(t, r.user)
      case BeginRegistration => holds ==> OwnGrant(t, r)
      case FinishRegistration(id, valid) => valid && OwnSession(t, id, r.user, "register")
      case ConfirmEnrollment(valid, _) =>
        valid && r.user in t.totp && !t.totp[r.user].confirmed && t.now <= t.totp[r.user].pendingUntil
      case UseCode(row) => row in t.codes && t.codes[row] == Code(r.user, false)
  {
    HeldIsListed(t, r.user);
    NoReauthSession(t, r.user, Origin(r.call, NoFactor));
    if r.op.DisableTotp? || r.op.RemovePasskey? {
      GuardView(t, r.user, if r.op.RemovePasskey? then r.op.id else 0, r.Required());
      OthersAre(t, r.user, if r.op.RemovePasskey? then r.op.id else 0);
    }
    hide GuardPasses, ClearIfNoFactor, NewIds, Passkeys, HoldsPasskey, HoldsOther;
  }

  lemma OthersAre(t: Tables, user: nat, id: nat)
    ensures HoldsOther(t, user, id) <==> HasAuthenticator(t, user) || Passkeys(t, user) - {id} != {}
  {
    if k :| k in t.creds && t.creds[k].owner == user && k != id { assert k in Passkeys(t, user) - {id}; }
  }
}
