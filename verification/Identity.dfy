/** How replicas that start together agree on the instance's key. */
module Identity {
  import opened Json

  // ---------- One call, among others ----------

  /** The stored secret: its key bytes, empty when the secret lacks them. */
  class SecretStore {
    var stored: Option<string>
    var requests: nat
    /** What another replica stores just before each request, if it can. */
    const others: nat -> Option<string>
    const down: nat -> bool

    constructor (stored: Option<string>, others: nat -> Option<string>, down: nat -> bool)
      ensures this.stored == stored && this.others == others && this.down == down && requests == 0
    {
      this.stored, this.others, this.down, requests := stored, others, down, 0;
    }

    /** Nobody deletes the secret or writes it anew. */
    twostate predicate Kept()
      reads this
    {
      old(stored).Some? ==> stored == old(stored)
    }

    method Arrive()
      modifies this
      ensures Kept() && requests == old(requests) + 1
      ensures stored == if old(stored).Some? then old(stored) else others(old(requests))
    {
      if stored.None? {
        stored := others(requests);
      }
      requests := requests + 1;
    }

    method Get() returns (secret: Option<string>, failed: bool)
      modifies this
      ensures Kept() && requests == old(requests) + 1 && failed == down(old(requests)) && secret == stored
    {
      Arrive();
      secret, failed := stored, down(requests - 1);
    }

    /** Refused when there is a secret already. */
    method Create(key: string) returns (created: bool, failed: bool)
      modifies this
      ensures Kept() && requests == old(requests) + 1 && failed == down(old(requests))
      ensures (!failed && created ==> stored == Some(key)) && (!failed && !created ==> stored.Some?)
    {
      Arrive();
      created, failed := false, down(requests - 1);
      if !failed && stored.None? {
        stored, created := Some(key), true;
      }
    }
  }

  /** parseIdentitySecret, up to the encoding of the key itself. */
  function Parsed(secret: string, valid: string -> bool): Option<string>
  {
    if secret != "" && valid(secret) then Some(secret) else None
  }

  /** A call that returns a key returns the stored one, which was there before or is its own. One that
      returns none met a request that was not served, or a stored secret without a key. */
  method InstanceIdentity(store: SecretStore, generated: string, valid: string -> bool) returns (key: Option<string>)
    modifies store
    ensures key.Some? ==> store.stored == key && key.value != "" && valid(key.value)
    ensures old(store.stored).Some? ==> store.stored == old(store.stored)
    ensures key.None? ==>
      (exists n :: old(store.requests) <= n < store.requests <= old(store.requests) + 3 && store.down(n)) ||
      (store.stored.Some? && (store.stored.value == "" || !valid(store.stored.value)))
  {
    var existing, failed := store.Get();
    if failed {
      return None;
    }
    if existing.Some? {
      return Parsed(existing.value, valid);
    }
    var created, refused := store.Create(generated);
    if refused {
      return None;
    }
    if created {
      return Parsed(generated, valid);
    }
    var winner, lost := store.Get();
    if lost || winner.None? {
      return None;
    }
    key := Parsed(winner.value, valid);
  }

  // ---------- Any number of replicas ----------

  datatype Phase = Start | Missing | Lost | Done(key: Option<string>)

  datatype Replica = Replica(generated: string, phase: Phase)

  datatype System = System(stored: Option<string>, replicas: map<nat, Replica>)

  function Answer(stored: Option<string>, valid: string -> bool): Option<string>
  {
    if stored.None? then None else Parsed(stored.value, valid)
  }

  /** One request of a replica; fails when the server does not serve it. */
  function Next(s: System, id: nat, fails: bool, valid: string -> bool): System
  {
    if id !in s.replicas || s.replicas[id].phase.Done? then s
    else
      var r := s.replicas[id];
      if fails then s.(replicas := s.replicas[id := r.(phase := Done(None))])
      else
        match r.phase
        case Start =>
          s.(replicas := s.replicas[id := r.(phase := if s.stored.Some? then Done(Answer(s.stored, valid)) else Missing)])
        case Missing =>
          if s.stored.Some? then s.(replicas := s.replicas[id := r.(phase := Lost)])
          else System(Some(r.generated), s.replicas[id := r.(phase := Done(Parsed(r.generated, valid)))])
        case _ => s.(replicas := s.replicas[id := r.(phase := Done(Answer(s.stored, valid)))])
  }

  datatype Step = Step(id: nat, fails: bool)

  function Run(s: System, steps: seq<Step>, valid: string -> bool): System
  {
    if steps == [] then s
    else
      var last := steps[|steps| - 1];
      Next(Run(s, steps[..|steps| - 1], valid), last.id, last.fails, valid)
  }

  ghost predicate Agreed(s: System)
  {
    forall i | i in s.replicas && s.replicas[i].phase.Done? && s.replicas[i].phase.key.Some? :: s.replicas[i].phase.key == s.stored
  }

  ghost predicate Fresh(s: System) { forall i | i in s.replicas :: s.replicas[i].phase == Start }

  /** In every interleaving of any number of replicas, a key once stored never changes and every
      call that succeeds returns the stored key: no two replicas disagree. */
  lemma {:induction false} ReplicasAgree(s: System, before: seq<Step>, after: seq<Step>, valid: string -> bool)
    requires Fresh(s)
    ensures Agreed(Run(s, before + after, valid))
    ensures Run(s, before, valid).stored.Some? ==> Run(s, before + after, valid).stored == Run(s, before, valid).stored
    decreases |before| + |after|
  {
    if after == [] {
      assert before + after == before;
      if before != [] {
        ReplicasAgree(s, [], before[..|before| - 1], valid);
        assert [] + before[..|before| - 1] == before[..|before| - 1];
      }
    } else {
      ReplicasAgree(s, before, after[..|after| - 1], valid);
      assert (before + after)[..|before + after| - 1] == before + after[..|after| - 1];
    }
  }

  lemma TwoReplicasAgree(s: System, steps: seq<Step>, valid: string -> bool, i: nat, j: nat, k: string, l: string)
    requires Fresh(s)
    requires var end := Run(s, steps, valid).replicas;
      i in end && j in end && end[i].phase == Done(Some(k)) && end[j].phase == Done(Some(l))
    ensures k == l
  {
    ReplicasAgree(s, [], steps, valid);
    assert [] + steps == steps;
  }

  // ---------- And every replica gets the key ----------

  predicate Usable(key: string, valid: string -> bool) { key != "" && valid(key) }

  /** What is stored, if anything, is a usable key, every replica would make one, and none gave up. */
  ghost predicate GoingWell(s: System, valid: string -> bool)
  {
    (s.stored.Some? ==> Usable(s.stored.value, valid)) &&
    forall i | i in s.replicas ::
      Usable(s.replicas[i].generated, valid) && s.replicas[i].phase != Done(None) &&
      (s.replicas[i].phase == Lost ==> s.stored.Some?)
  }

  /** The requests a replica has still to make, at most. */
  function ToGo(p: Phase): nat
  {
    match p
    case Start => 3
    case Missing => 2
    case Lost => 1
    case Done(_) => 0
  }

  function Own(steps: seq<Step>, id: nat): nat
  {
    if steps == [] then 0 else Own(steps[..|steps| - 1], id) + if steps[|steps| - 1].id == id then 1 else 0
  }

  lemma NextGoesWell(s: System, id: nat, valid: string -> bool)
    requires GoingWell(s, valid)
    ensures GoingWell(Next(s, id, false, valid), valid)
    ensures Next(s, id, false, valid).replicas.Keys == s.replicas.Keys
    ensures forall i | i in s.replicas ::
      ToGo(Next(s, id, false, valid).replicas[i].phase) <= ToGo(s.replicas[i].phase) &&
      (i == id && ToGo(s.replicas[i].phase) > 0 ==> ToGo(Next(s, id, false, valid).replicas[i].phase) < ToGo(s.replicas[i].phase))
  {}

  lemma {:induction false} RunGoesWell(s: System, steps: seq<Step>, valid: string -> bool, i: nat)
    requires Fresh(s) && GoingWell(s, valid) && i in s.replicas && forall step | step in steps :: !step.fails
    ensures var end := Run(s, steps, valid);
      GoingWell(end, valid) && i in end.replicas &&
      (ToGo(end.replicas[i].phase) == 0 || ToGo(end.replicas[i].phase) + Own(steps, i) <= 3)
  {
    if steps != [] {
      var front, last := steps[..|steps| - 1], steps[|steps| - 1];
      assert steps == front + [last] && last in steps && forall step | step in front :: step in steps;
      RunGoesWell(s, front, valid, i);
      NextGoesWell(Run(s, front, valid), last.id, valid);
      hide GoingWell, Next;
    }
  }

  /** In every interleaving in which every request is served, a replica that made three has the stored
      key. */
  lemma EveryReplicaGetsTheKey(s: System, steps: seq<Step>, valid: string -> bool, i: nat)
    requires Fresh(s) && GoingWell(s, valid) && i in s.replicas && forall step | step in steps :: !step.fails
    requires Own(steps, i) >= 3
    ensures var end := Run(s, steps, valid);
      i in end.replicas && end.stored.Some? && end.replicas[i].phase == Done(end.stored)
  {
    RunGoesWell(s, steps, valid, i);
    ReplicasAgree(s, [], steps, valid);
    assert [] + steps == steps;
    hide Run;
    assert Run(s, steps, valid).replicas[i].phase.Done?;
  }
}
