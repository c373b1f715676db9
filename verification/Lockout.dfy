/** The lockout that caps how fast codes and passwords can be guessed. */
module Lockout {
  import opened Json

  /** Times in nanoseconds. */
  const MINUTE := 60_000_000_000
  const WINDOW := 15 * MINUTE
  const THRESHOLD := 5
  const DURATION := 15 * MINUTE
  const EXTENDED_THRESHOLD := 10
  const EXTENDED_DURATION := 60 * MINUTE

  /** One user's record; no start is the zero time of a user without a row. */
  datatype State = State(count: int, start: Option<int>, until: Option<int>)

  const NEW := State(0, None, None)

  function LockedFor(s: State, now: int): int
  {
    if s.until.None? || now >= s.until.value then 0 else s.until.value - now
  }

  function NextLockout(s: State, now: int): State
  {
    var restart := s.start.None? || now - s.start.value > WINDOW;
    var count := if restart then 1 else s.count + 1;
    var start := if restart then Some(now) else s.start;
    if count >= EXTENDED_THRESHOLD then State(count, start, Some(now + EXTENDED_DURATION))
    else if count >= THRESHOLD then State(count, start, Some(now + DURATION))
    else State(count, start, None)
  }

  function ClearLockout(now: int): State { State(0, Some(now), None) }

  // ---------- Attempts that do not overlap ----------

  /** One verification: when it was made, and whether it was right. Reset is an administrator
      clearing the user's record. */
  datatype Attempt = Attempt(at: int, right: bool) | Reset(at: int)

  datatype Verdict = Refused | Success | Failure | Cleared

  function Judge(s: State, a: Attempt): Verdict
  {
    if a.Reset? then Cleared
    else if LockedFor(s, a.at) > 0 then Refused
    else if a.right then Success
    else Failure
  }

  function Step(s: State, a: Attempt): State
  {
    match Judge(s, a)
    case Refused => s
    case Success => ClearLockout(a.at)
    case Failure => NextLockout(s, a.at)
    case Cleared => NEW
  }

  function Run(s: State, tries: seq<Attempt>): State
    decreases tries
  {
    if tries == [] then s else Run(Step(s, tries[0]), tries[1..])
  }

  function CountOf(s: State, tries: seq<Attempt>, v: Verdict): nat
    decreases tries
  {
    if tries == [] then 0 else (if Judge(s, tries[0]) == v then 1 else 0) + CountOf(Step(s, tries[0]), tries[1..], v)
  }

  ghost predicate InOrder(tries: seq<Attempt>) { forall i, j | 0 <= i < j < |tries| :: tries[i].at <= tries[j].at }

  ghost predicate Within(tries: seq<Attempt>, from: int)
  {
    forall a | a in tries :: from <= a.at < from + WINDOW
  }

  // ---------- At most nine failures in fifteen minutes ----------

  /** The failures still to come before from + WINDOW. A window begun inside the interval
      outlasts it, so it allows those left up to the lock; one begun before allows those that
      do not lock, and then a window of its own. */
  function Budget(s: State, from: int): nat
  {
    if s.until.Some? && s.until.value >= from + WINDOW then 0
    else if s.start.Some? && s.start.value >= from then (if s.count < THRESHOLD then THRESHOLD - s.count else 1)
    else (if s.count < THRESHOLD - 1 then THRESHOLD - 1 - s.count else 0) + THRESHOLD
  }

  lemma FailureSpendsBudget(s: State, at: int, from: int)
    requires s.count >= 0 && LockedFor(s, at) == 0 && from <= at < from + WINDOW
    ensures 1 + Budget(NextLockout(s, at), from) <= Budget(s, from)
  {}

  lemma {:induction false} FailuresAreBudgeted(s: State, tries: seq<Attempt>, from: int)
    requires s.count >= 0 && Within(tries, from)
    requires CountOf(s, tries, Success) == 0 && CountOf(s, tries, Cleared) == 0
    ensures CountOf(s, tries, Failure) <= Budget(s, from)
    decreases tries
  {
    if tries != [] {
      assert tries[0] in tries && forall a | a in tries[1..] :: a in tries;
      FailuresAreBudgeted(Step(s, tries[0]), tries[1..], from);
      if Judge(s, tries[0]) == Failure { FailureSpendsBudget(s, tries[0].at, from); }
    }
  }

  lemma {:induction false} CountsAreNotNegative(s: State, tries: seq<Attempt>)
    requires s.count >= 0
    ensures Run(s, tries).count >= 0
    decreases tries
  {
    if tries != [] { CountsAreNotNegative(Step(s, tries[0]), tries[1..]); }
  }

  /** In every run of attempts that do not overlap, no half-open quarter of an hour without a
      success (or an administrator's reset) holds more than nine recorded failures. */
  lemma NineAtMost(before: seq<Attempt>, tries: seq<Attempt>, from: int)
    requires Within(tries, from)
    requires CountOf(Run(NEW, before), tries, Success) == 0 && CountOf(Run(NEW, before), tries, Cleared) == 0
    ensures CountOf(Run(NEW, before), tries, Failure) <= 9
  {
    CountsAreNotNegative(NEW, before);
    FailuresAreBudgeted(Run(NEW, before), tries, from);
  }

  // ---------- The count never passes six ----------

  /** A lock outlasts the window that led to it; the count can pass the threshold only when the
      whole window fell on one instant. */
  predicate Bounded(s: State)
  {
    0 <= s.count <= 6 && (s.start.None? ==> s.count == 0) &&
    (s.count == 5 ==> s.until.Some? && s.until.value >= s.start.value + WINDOW) &&
    (s.count == 6 ==> s.until.Some? && s.until.value > s.start.value + WINDOW)
  }

  lemma StepStaysBounded(s: State, a: Attempt)
    requires Bounded(s) && (s.start.Some? ==> s.start.value <= a.at)
    ensures Bounded(Step(s, a)) && (Step(s, a).start.Some? ==> Step(s, a).start.value <= a.at)
    ensures Step(s, a) != s && Step(s, a).until.Some? ==> Step(s, a).until.value == a.at + DURATION
  {}

  lemma {:induction false} SixAtMost(s: State, tries: seq<Attempt>)
    requires Bounded(s) && InOrder(tries) && (s.start.Some? ==> forall a | a in tries :: s.start.value <= a.at)
    ensures Bounded(Run(s, tries))
    decreases tries
  {
    if tries != [] {
      StepStaysBounded(s, tries[0]);
      assert tries[0] in tries && forall a | a in tries[1..] :: a in tries;
      assert InOrder(tries[1..]) by {
        forall i, j | 0 <= i < j < |tries[1..]| ensures tries[1..][i].at <= tries[1..][j].at {
          assert tries[i + 1].at <= tries[j + 1].at;
        }
      }
      forall a | a in tries[1..] ensures tries[0].at <= a.at {
        var i :| 0 <= i < |tries[1..]| && tries[1..][i] == a;
        assert tries[0].at <= tries[i + 1].at;
      }
      SixAtMost(Step(s, tries[0]), tries[1..]);
    }
  }

  /** In every run of attempts in order the stored count never passes six, so the longer lock,
      meant for ten failures, is never reached. */
  lemma CountStaysAtMostSix(tries: seq<Attempt>)
    requires InOrder(tries)
    ensures 0 <= Run(NEW, tries).count <= 6 < EXTENDED_THRESHOLD
  {
    SixAtMost(NEW, tries);
  }

  function Wrong(at: int, times: nat): seq<Attempt>
  {
    if times == 0 then [] else [Attempt(at, false)] + Wrong(at, times - 1)
  }

  /** Nine is reached: a success opens a window, four failures end it without a lock, and five
      more open the next. */
  lemma NineCanHappen()
    ensures var s := ClearLockout(0);
      CountOf(s, Wrong(2, 4) + Wrong(WINDOW + 1, 5), Failure) == 9 && Within(Wrong(2, 4) + Wrong(WINDOW + 1, 5), 2)
  {
    var later := Wrong(WINDOW + 1, 5);
    WrongCounts(ClearLockout(0), 2, 4, later);
    WrongWithin(2, 4, 2);
    WrongWithin(WINDOW + 1, 5, 2);
    WrongCounts(State(4, Some(0), None), WINDOW + 1, 1, Wrong(WINDOW + 1, 4));
    assert later == Wrong(WINDOW + 1, 1) + Wrong(WINDOW + 1, 4);
    WrongCounts(State(1, Some(WINDOW + 1), None), WINDOW + 1, 3, Wrong(WINDOW + 1, 1));
    assert Wrong(WINDOW + 1, 4) == Wrong(WINDOW + 1, 3) + Wrong(WINDOW + 1, 1);
    assert Wrong(WINDOW + 1, 1) == [Attempt(WINDOW + 1, false)] + [];
    assert CountOf(State(4, Some(WINDOW + 1), None), Wrong(WINDOW + 1, 1), Failure) == 1;
  }

  lemma {:induction false} WrongWithin(at: int, times: nat, from: int)
    requires from <= at < from + WINDOW
    ensures Within(Wrong(at, times), from)
  {
    if times > 0 { WrongWithin(at, times - 1, from); }
  }

  /** Failures that stay below the threshold of the window they fall in. */
  lemma {:induction false} WrongCounts(s: State, at: int, times: nat, rest: seq<Attempt>)
    requires s.until.None? && s.start.Some? && s.count >= 0
    requires if at - s.start.value > WINDOW then times <= 1 else s.count + times < THRESHOLD
    ensures CountOf(s, Wrong(at, times) + rest, Failure) == times + CountOf(
      if times == 0 then s else if at - s.start.value > WINDOW then State(1, Some(at), None) else s.(count := s.count + times),
      rest, Failure)
    decreases times
  {
    if times == 0 {
      assert Wrong(at, 0) + rest == rest;
    } else {
      var all := Wrong(at, times) + rest;
      assert all[0] == Attempt(at, false) && all[1..] == Wrong(at, times - 1) + rest;
      WrongCounts(NextLockout(s, at), at, times - 1, rest);
    }
  }

  // ---------- How long a lock lasts ----------

  const SECOND := 1_000_000_000

  /** A failure that is the fifth in its quarter of an hour refuses every attempt of the next quarter
      of an hour, a tenth those of the next hour, and no other refuses any. */
  lemma LockLasts(s: State, at: int, later: int, right: bool)
    requires later >= at
    ensures var failures := if s.start.None? || at - s.start.value > 15 * 60 * SECOND then 1 else s.count + 1;
      NextLockout(s, at).count == failures &&
      (Judge(NextLockout(s, at), Attempt(later, right)) == Refused <==>
        (failures >= 10 && later < at + 60 * 60 * SECOND) || (5 <= failures < 10 && later < at + 15 * 60 * SECOND))
  {}

  /** A window opens with the first failure, or a success, and a success forgets what was counted. */
  lemma WindowsOpen(s: State, at: int, later: int)
    requires LockedFor(s, at) == 0
    ensures Step(s, Attempt(at, true)).count == 0 && Judge(Step(s, Attempt(at, true)), Attempt(later, false)) == Failure
    ensures Step(s, Attempt(at, true)).start == Some(at)
    ensures Step(s, Attempt(at, false)).start ==
      if s.start.None? || at - s.start.value > 15 * 60 * SECOND then Some(at) else s.start
    ensures Judge(Step(s, Reset(at)), Attempt(later, false)) == Failure && Step(s, Reset(at)).count == 0
  {}
}
