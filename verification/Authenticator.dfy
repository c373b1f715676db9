/** Codes of an authenticator app: which step a code matches, and how the counter keeps a step
    from being used again. */
module Authenticator {
  import opened Text

  const PERIOD := 30
  const DIGITS := 6

  /** The step a time in seconds falls in; integer division truncates, but times before the
      epoch are not used. */
  function Counter(now: nat): nat { now / PERIOD }

  datatype Verdict = Accepted(step: nat) | InvalidCode | Replayed

  /** The steps tried at a distance from the current one, in order. */
  function CandidateSteps(current: nat, offset: nat): seq<nat>
  {
    if offset == 0 then [current]
    else [current + offset] + if current >= offset then [current - offset] else []
  }

  function Candidates(current: nat): seq<nat> { CandidateSteps(current, 0) + CandidateSteps(current, 1) }

  /** White space in the sense of Unicode. */
  predicate IsSpace(c: char)
  {
    var n := c as int;
    9 <= n <= 13 || 0x2000 <= n <= 0x200A || n in {0x20, 0x85, 0xA0, 0x1680, 0x2028, 0x2029, 0x202F, 0x205F, 0x3000}
  }

  function TrimSpace(s: string): (r: string)
    ensures r != "" ==> !IsSpace(r[0]) && !IsSpace(r[|r| - 1])
    decreases |s|
  {
    if s == "" then s
    else if IsSpace(s[0]) then TrimSpace(s[1..])
    else if IsSpace(s[|s| - 1]) then TrimSpace(s[..|s| - 1])
    else s
  }

  predicate WellFormed(code: string) { |code| == DIGITS && AllDigits(code) }

  /** The first of the steps that shows the code. */
  function FirstMatch(codeAt: nat -> string, code: string, steps: seq<nat>): (found: int)
    ensures found >= -1
    ensures found >= 0 ==> found in steps && codeAt(found) == code
    ensures found < 0 <==> forall step | step in steps :: codeAt(step) != code
  {
    if steps == [] then -1
    else if codeAt(steps[0]) == code then steps[0]
    else FirstMatch(codeAt, code, steps[1..])
  }

  /** codeAt is what the app shows at each step. A counter of zero stands for no code yet. */
  function Verify(codeAt: nat -> string, submitted: string, now: nat, last: nat): Verdict
  {
    var code := TrimSpace(submitted);
    if !WellFormed(code) then InvalidCode
    else
      var step := FirstMatch(codeAt, code, Candidates(Counter(now)));
      if step < 0 then InvalidCode
      else if last != 0 && step <= last then Replayed
      else Accepted(step)
  }

  lemma {:induction false} FirstMatchAppends(codeAt: nat -> string, code: string, a: seq<nat>, b: seq<nat>)
    ensures FirstMatch(codeAt, code, a + b) ==
      if FirstMatch(codeAt, code, a) >= 0 then FirstMatch(codeAt, code, a) else FirstMatch(codeAt, code, b)
  {
    if a == [] {
      assert a + b == b;
    } else {
      FirstMatchAppends(codeAt, code, a[1..], b);
      assert (a + b)[1..] == a[1..] + b;
    }
  }

  /** The loop over the steps at one distance; -1 when none shows the code. */
  method MatchAmong(codeAt: nat -> string, code: string, steps: seq<nat>) returns (found: int)
    ensures found == FirstMatch(codeAt, code, steps)
  {
    for i := 0 to |steps|
      invariant FirstMatch(codeAt, code, steps) == FirstMatch(codeAt, code, steps[i..])
    {
      assert steps[i..][1..] == steps[i + 1..];
      if codeAt(steps[i]) == code {
        return steps[i];
      }
    }
    return -1;
  }

  method VerifyTOTP(codeAt: nat -> string, submitted: string, now: nat, last: nat) returns (v: Verdict)
    ensures v == Verify(codeAt, submitted, now, last)
  {
    var code := TrimSpace(submitted);
    if !AllDigits(code) || |code| != DIGITS {
      return InvalidCode;
    }
    var current := Counter(now);
    FirstMatchAppends(codeAt, code, CandidateSteps(current, 0), CandidateSteps(current, 1));
    hide FirstMatch, CandidateSteps, Counter;
    for offset := 0 to 2
      invariant offset > 0 ==> FirstMatch(codeAt, code, CandidateSteps(current, 0)) < 0
      invariant offset > 1 ==> FirstMatch(codeAt, code, CandidateSteps(current, 1)) < 0
    {
      var step := MatchAmong(codeAt, code, CandidateSteps(current, offset));
      if step >= 0 {
        return if last != 0 && step <= last then Replayed else Accepted(step);
      }
    }
    return InvalidCode;
  }

  /** An accepted step shows the code, is the current one or a neighbour, and lies past the
      counter unless the counter is zero. */
  lemma AcceptedIsNear(codeAt: nat -> string, code: string, now: nat, last: nat)
    requires Verify(codeAt, code, now, last).Accepted?
    ensures var step := Verify(codeAt, code, now, last).step;
      codeAt(step) == TrimSpace(code) && Counter(now) - 1 <= step <= Counter(now) + 1 && (last == 0 || step > last)
  {}

  lemma TrimKeepsCodes(code: string)
    requires WellFormed(code)
    ensures TrimSpace(code) == code
  {
    assert code[0] in code && code[|code| - 1] in code;
  }

  /** A code that no other nearby step shows is accepted, with or without space around it, exactly
      when its step lies past the counter. */
  lemma OwnCodeIsAccepted(codeAt: nat -> string, code: string, step: nat, now: nat, last: nat)
    requires TrimSpace(code) == codeAt(step) && WellFormed(codeAt(step)) && Counter(now) - 1 <= step <= Counter(now) + 1
    requires forall other | other in Candidates(Counter(now)) && other != step :: codeAt(other) != codeAt(step)
    ensures Verify(codeAt, code, now, last) == Accepted(step) <==> last == 0 || step > last
  {
    var all := Candidates(Counter(now));
    assert step in all by {
      if step == Counter(now) { assert all[0] == step; }
      else if step == Counter(now) + 1 { assert all[1] == step; }
      else { assert all[2] == step; }
    }
  }

  /** What is cut off is white space on either side. */
  lemma {:induction false} TrimIsExact(s: string) returns (i: nat, j: nat)
    ensures i <= j <= |s| && TrimSpace(s) == s[i..j]
    ensures forall k | 0 <= k < i || j <= k < |s| :: IsSpace(s[k])
    decreases |s|
  {
    i, j := 0, |s|;
    if s != "" && IsSpace(s[0]) {
      i, j := TrimIsExact(s[1..]);
      i, j := i + 1, j + 1;
      assert s[1..][i - 1..j - 1] == s[i..j];
      forall k | 0 <= k < i || j <= k < |s| ensures IsSpace(s[k]) {
        if k > 0 { assert s[1..][k - 1] == s[k]; }
      }
    } else if s != "" && IsSpace(s[|s| - 1]) {
      var front := s[..|s| - 1];
      i, j := TrimIsExact(front);
      assert front[i..j] == s[i..j];
      forall k | 0 <= k < i || j <= k < |s| ensures IsSpace(s[k]) {
        if k < |front| { assert front[k] == s[k]; }
      }
    } else {
      assert s[0..|s|] == s;
    }
  }

  /** A code that no other step near it shows is accepted from half a minute before its own half
      minute to half a minute after it, if its step lies past the counter; a step the counter has
      passed is called a replay. */
  lemma CodeIsGoodForNinetySeconds(codeAt: nat -> string, code: string, step: nat, now: nat, last: nat)
    requires TrimSpace(code) == codeAt(step) && |codeAt(step)| == 6 && forall c | c in codeAt(step) :: '0' <= c <= '9'
    requires forall other: nat | step <= other + 2 && other <= step + 2 && other != step :: codeAt(other) != codeAt(step)
    ensures Verify(codeAt, code, now, last) == Accepted(step) <==>
      30 * step <= now + 30 && now < 30 * step + 60 && (last == 0 || step > last)
    ensures 30 * step <= now + 30 && now < 30 * step + 60 && last != 0 && step <= last ==>
      Verify(codeAt, code, now, last) == Replayed
  {
    var current := Counter(now);
    assert 30 * current <= now < 30 * current + 30;
    if current <= step + 1 && step <= current + 1 {
      forall other | other in Candidates(current) && other != step ensures codeAt(other) != codeAt(step) {}
      OwnCodeIsAccepted(codeAt, code, step, now, last);
      assert step in Candidates(current) by {
        var all := Candidates(current);
        if step == current { assert all[0] == step; } else if step == current + 1 { assert all[1] == step; } else { assert all[2] == step; }
      }
    } else if Verify(codeAt, code, now, last).Accepted? {
      AcceptedIsNear(codeAt, code, now, last);
    }
    hide TrimSpace, FirstMatch;
  }

  /** Nothing but six digits is ever accepted, or called a replay. */
  lemma OnlySixDigits(codeAt: nat -> string, code: string, now: nat, last: nat)
    requires |TrimSpace(code)| != 6 || exists c | c in TrimSpace(code) :: c < '0' || c > '9'
    ensures Verify(codeAt, code, now, last) == InvalidCode
  {}

  // ---------- Verifications that do not overlap ----------

  datatype Attempt = Attempt(code: string, now: nat)

  /** AdvanceTOTPCounter: the counter only moves forward. */
  function Advance(counter: nat, step: nat): nat { if counter < step then step else counter }

  function After(codeAt: nat -> string, counter: nat, a: Attempt): nat
  {
    var v := Verify(codeAt, a.code, a.now, counter);
    if v.Accepted? then Advance(counter, v.step) else counter
  }

  /** The steps a run accepts, from a counter. */
  function AcceptedSteps(codeAt: nat -> string, counter: nat, tries: seq<Attempt>): seq<nat>
    decreases |tries|
  {
    if tries == [] then []
    else
      var v := Verify(codeAt, tries[0].code, tries[0].now, counter);
      (if v.Accepted? then [v.step] else []) + AcceptedSteps(codeAt, After(codeAt, counter, tries[0]), tries[1..])
  }

  /** Two periods past the epoch, step zero is out of reach. */
  ghost predicate PastEpoch(tries: seq<Attempt>) { forall a | a in tries :: a.now >= 2 * PERIOD }

  ghost predicate Increasing(steps: seq<nat>) { forall i, j | 0 <= i < j < |steps| :: steps[i] < steps[j] }

  /** Verifications one after another accept strictly increasing steps, all past the counter:
      a step is never used twice. */
  lemma {:induction false} StepsIncrease(codeAt: nat -> string, counter: nat, tries: seq<Attempt>)
    requires PastEpoch(tries)
    ensures Increasing(AcceptedSteps(codeAt, counter, tries))
    ensures forall step | step in AcceptedSteps(codeAt, counter, tries) :: step > counter
    decreases |tries|
  {
    if tries != [] {
      var a := tries[0];
      assert a in tries && forall b | b in tries[1..] :: b in tries;
      var next := After(codeAt, counter, a);
      StepsIncrease(codeAt, next, tries[1..]);
      if Verify(codeAt, a.code, a.now, counter).Accepted? {
        AcceptedIsNear(codeAt, a.code, a.now, counter);
        assert Counter(a.now) >= 2;
      }
      var rest := AcceptedSteps(codeAt, next, tries[1..]);
      forall i | 0 <= i < |rest| ensures rest[i] > next { assert rest[i] in rest; }
      hide Verify, Counter;
    }
  }

  /** Before that, step zero is accepted again and again: a counter of zero means no code yet. */
  lemma StepZeroIsReused(codeAt: nat -> string)
    requires WellFormed(codeAt(0)) && codeAt(1) != codeAt(0)
    ensures AcceptedSteps(codeAt, 0, [Attempt(codeAt(0), 0), Attempt(codeAt(0), 1)]) == [0, 0]
  {
    var tries := [Attempt(codeAt(0), 0), Attempt(codeAt(0), 1)];
    TrimKeepsCodes(codeAt(0));
    assert Candidates(0)[0] == 0 && Counter(0) == 0 && Counter(1) == 0;
    assert Verify(codeAt, codeAt(0), 0, 0) == Accepted(0) && Verify(codeAt, codeAt(0), 1, 0) == Accepted(0);
    hide Verify;
    assert tries[1..] == [Attempt(codeAt(0), 1)];
    assert tries[1..][1..] == [];
    assert AcceptedSteps(codeAt, 0, []) == [];
    assert AcceptedSteps(codeAt, 0, tries[1..]) == [0] + AcceptedSteps(codeAt, 0, []);
  }

  // ---------- Verifications that overlap ----------

  /** A verification reads the counter, and later judges its code and writes the step. read and
      wrote count the statements made before it. */
  datatype Phase =
    | Waiting
    | Holding(last: nat, read: nat)
    | Passed(step: nat, read: nat, wrote: nat)
    | Failed

  datatype Call = Call(attempt: Attempt, phase: Phase)

  datatype System = System(counter: nat, calls: map<nat, Call>, clock: nat)

  function Next(codeAt: nat -> string, s: System, id: nat): System
  {
    if id !in s.calls then s
    else
      var c := s.calls[id];
      match c.phase
      case Waiting => System(s.counter, s.calls[id := c.(phase := Holding(s.counter, s.clock))], s.clock + 1)
      case Holding(last, read) =>
        var v := Verify(codeAt, c.attempt.code, c.attempt.now, last);
        if v.Accepted?
        then System(Advance(s.counter, v.step), s.calls[id := c.(phase := Passed(v.step, read, s.clock))], s.clock + 1)
        else System(s.counter, s.calls[id := c.(phase := Failed)], s.clock + 1)
      case _ => s
  }

  function Run(codeAt: nat -> string, s: System, ids: seq<nat>): System
  {
    if ids == [] then s else Next(codeAt, Run(codeAt, s, ids[..|ids| - 1]), ids[|ids| - 1])
  }

  /** In every overlap the stored counter never decreases, whatever statements follow. */
  lemma {:induction false} CounterNeverDecreases(codeAt: nat -> string, s: System, ids: seq<nat>, more: seq<nat>)
    ensures Run(codeAt, s, ids + more).counter >= Run(codeAt, s, ids).counter
  {
    if more == [] {
      assert ids + more == ids;
    } else {
      var front := more[..|more| - 1];
      assert (ids + more)[..|ids + more| - 1] == ids + front;
      CounterNeverDecreases(codeAt, s, ids, front);
      hide Verify;
    }
  }

  predicate PassedBy(c: Call, clock: nat) { c.phase.Passed? && c.phase.wrote < clock }

  predicate StepStored(c: Call, s: System)
  {
    (c.phase.Passed? ==> c.phase.read < c.phase.wrote < s.clock && 0 < c.phase.step <= s.counter) &&
    (c.phase.Holding? ==> c.phase.read < s.clock)
  }

  ghost predicate StepsStored(s: System) { forall i | i in s.calls :: StepStored(s.calls[i], s) }

  /** A call that read the counter after another wrote its step has seen that step, and has
      itself passed with a later one. */
  predicate Sees(late: Call, early: Call)
  {
    (late.phase.Holding? && PassedBy(early, late.phase.read) ==> early.phase.step <= late.phase.last) &&
    (late.phase.Passed? && PassedBy(early, late.phase.read) ==> early.phase.step < late.phase.step)
  }

  ghost predicate InStepOrder(s: System)
  {
    forall i, j | i in s.calls && j in s.calls :: Sees(s.calls[j], s.calls[i])
  }

  ghost predicate LateCalls(s: System) { forall i | i in s.calls :: s.calls[i].attempt.now >= 2 * PERIOD }

  /** A call that reads takes the counter as it is; one that passes does so with a later step
      than the copy it held. */
  predicate MovesOn(s: System, t: System, id: nat)
    requires id in s.calls && id in t.calls
  {
    var was, now := s.calls[id].phase, t.calls[id].phase;
    t.clock > s.clock && t.calls == s.calls[id := t.calls[id]] &&
    match now
    case Waiting => false
    case Holding(last, read) => was.Waiting? && last == s.counter && read == s.clock
    case Passed(step, read, wrote) =>
      was.Holding? && read == was.read && wrote == s.clock && step > was.last && step <= t.counter
    case Failed => true
  }

  lemma OwnStep(codeAt: nat -> string, s: System, id: nat)
    requires id in s.calls && s.calls[id].attempt.now >= 2 * PERIOD
    ensures var t := Next(codeAt, s, id);
      t.counter >= s.counter && id in t.calls && t.calls[id].attempt == s.calls[id].attempt && (t == s || MovesOn(s, t, id))
  {
    var c := s.calls[id];
    if c.phase.Holding? && Verify(codeAt, c.attempt.code, c.attempt.now, c.phase.last).Accepted? {
      AcceptedIsNear(codeAt, c.attempt.code, c.attempt.now, c.phase.last);
      assert Counter(c.attempt.now) >= 2;
    }
    hide Verify, Counter;
  }

  lemma MovesKeepOrder(s: System, t: System, id: nat)
    requires StepsStored(s) && InStepOrder(s) && id in s.calls && id in t.calls && MovesOn(s, t, id) && t.counter >= s.counter
    ensures StepsStored(t) && InStepOrder(t)
  {
    assert StepStored(s.calls[id], s);
    forall i | i in t.calls ensures StepStored(t.calls[i], t) {
      if i != id { assert StepStored(s.calls[i], s); }
    }
    forall i, j | i in t.calls && j in t.calls ensures Sees(t.calls[j], t.calls[i]) {
      assert i != id ==> StepStored(s.calls[i], s);
      assert j != id ==> StepStored(s.calls[j], s);
      assert Sees(s.calls[j], s.calls[i]);
    }
  }

  lemma NextKeepsOrder(codeAt: nat -> string, s: System, id: nat)
    requires StepsStored(s) && InStepOrder(s) && LateCalls(s)
    ensures StepsStored(Next(codeAt, s, id)) && InStepOrder(Next(codeAt, s, id)) && LateCalls(Next(codeAt, s, id))
  {
    if id in s.calls {
      OwnStep(codeAt, s, id);
      if Next(codeAt, s, id) != s { MovesKeepOrder(s, Next(codeAt, s, id), id); }
      hide Next, StepsStored, InStepOrder;
    }
  }

  /** In every overlap, of two accepted verifications the one that read the counter after the
      other wrote its step has the later step. So a step is accepted twice only by calls each of
      which read the counter before the other wrote. */
  lemma {:induction false} LaterReadsAcceptLaterSteps(codeAt: nat -> string, s: System, ids: seq<nat>)
    requires LateCalls(s) && forall i | i in s.calls :: s.calls[i].phase == Waiting
    ensures StepsStored(Run(codeAt, s, ids)) && InStepOrder(Run(codeAt, s, ids)) && LateCalls(Run(codeAt, s, ids))
  {
    if ids != [] {
      LaterReadsAcceptLaterSteps(codeAt, s, ids[..|ids| - 1]);
      NextKeepsOrder(codeAt, Run(codeAt, s, ids[..|ids| - 1]), ids[|ids| - 1]);
      hide Next, StepsStored, InStepOrder;
    }
  }

  /** And then it is: the write that finds the counter already there is not noticed, so two calls
      that read before either writes both pass with the same code. */
  lemma OverlapAcceptsAStepTwice(codeAt: nat -> string, now: nat, counter: nat)
    requires WellFormed(codeAt(Counter(now))) && 0 < counter < Counter(now)
    ensures var c := Call(Attempt(codeAt(Counter(now)), now), Waiting);
      Run(codeAt, System(counter, map[0 := c, 1 := c], 0), [0, 1, 0, 1]).calls ==
      map[0 := c.(phase := Passed(Counter(now), 0, 2)), 1 := c.(phase := Passed(Counter(now), 1, 3))]
  {
    var code := codeAt(Counter(now));
    var c := Call(Attempt(code, now), Waiting);
    var s := System(counter, map[0 := c, 1 := c], 0);
    TrimKeepsCodes(code);
    assert Candidates(Counter(now))[0] == Counter(now);
    assert Verify(codeAt, code, now, counter) == Accepted(Counter(now));
    hide Verify, Counter;
    assert [0, 1, 0, 1][..3] == [0, 1, 0] && [0, 1, 0][..2] == [0, 1] && [0, 1][..1] == [0] && [0][..0] == [];
    assert Run(codeAt, s, []) == s;
    assert Run(codeAt, s, [0]) == Next(codeAt, s, 0);
    assert Run(codeAt, s, [0, 1]) == Next(codeAt, Next(codeAt, s, 0), 1);
    assert Run(codeAt, s, [0, 1, 0]) == Next(codeAt, Run(codeAt, s, [0, 1]), 0);
  }
}
