/** One-time codes: which step a code is for, the lockout counter, and replay. */
module Totp {
  import opened Options

  /** Times are microseconds, the resolution of the source's clock. */
  const SECOND := 1_000_000
  const STEP := 30 * SECOND
  const LOCKOUT := 15 * 60 * SECOND
  const MAX_FAILED := 5

  /** The 30 s step the clock is in. */
  function StepOf(now: nat): nat {
    now / STEP
  }

  /** The code valid for each step, for one secret. */
  type CodeAt = int -> string

  /** The step a code is valid for, trying this step, the one before and the one
      after; None when it is valid for none of them. */
  function MatchingStep(codeAt: CodeAt, code: string, now: nat): (step: Option<int>)
    ensures step.Some? ==> codeAt(step.value) == code && StepOf(now) - 1 <= step.value <= StepOf(now) + 1
    ensures codeAt(now / 30_000_000) == code ==> step == Some(now / 30_000_000)
    ensures step.None? ==> forall s: int :: StepOf(now) - 1 <= s <= StepOf(now) + 1 ==> codeAt(s) != code
  {
    var current := StepOf(now);
    if codeAt(current) == code then Some(current)
    else if codeAt(current - 1) == code then Some(current - 1)
    else if codeAt(current + 1) == code then Some(current + 1)
    else None
  }

  // ---------------- one attempt ----------------

  /** The columns of a user that guard the second factor. */
  datatype Guard = Guard(failed: nat, lockedUntil: Option<int>, lastStep: Option<int>)

  datatype Outcome = Locked | Wrong | Replayed | Accepted(step: int)

  function Attempt(g: Guard, now: nat, step: Option<int>): (Guard, Outcome) {
    if g.lockedUntil.Some? && g.lockedUntil.value > now then (g, Locked)
    else if step.None? then
      if g.failed + 1 >= MAX_FAILED then (g.(failed := 0, lockedUntil := Some(now + LOCKOUT)), Wrong)
      else (g.(failed := g.failed + 1), Wrong)
    else if g.lastStep.Some? && step.value <= g.lastStep.value then (g, Replayed)
    else (Guard(0, None, step), Accepted(step.value))
  }

  /** The step is the clock's own 30 s step or one next to it. */
  predicate Nearby(step: int, now: nat) {
    now / 30_000_000 - 1 <= step <= now / 30_000_000 + 1
  }

  ghost predicate ValidNearby(codeAt: CodeAt, code: string, now: nat) {
    exists s: int :: Nearby(s, now) && codeAt(s) == code
  }

  /** Every nearby step the code is valid for comes after the last one accepted. */
  ghost predicate AboveLast(codeAt: CodeAt, code: string, now: nat, last: Option<int>) {
    last.Some? ==> forall s: int :: Nearby(s, now) && codeAt(s) == code ==> s > last.value
  }

  /** The outcome of an attempt, from the lock, the code and the last step accepted. */
  lemma OutcomeExactly(g: Guard, now: nat, step: Option<int>)
    ensures var (after, outcome) := Attempt(g, now, step);
            var locked := g.lockedUntil.Some? && g.lockedUntil.value > now;
            && (outcome.Locked? <==> locked)
            && (outcome.Wrong? <==> !locked && step.None?)
            && (outcome.Replayed? <==> !locked && step.Some? && g.lastStep.Some? && step.value <= g.lastStep.value)
            && (outcome.Accepted? <==> !locked && step.Some? && (g.lastStep.Some? ==> step.value > g.lastStep.value))
            && (outcome.Accepted? ==> outcome.step == step.value && after == Guard(0, None, step))
  {
  }

  class User {
    var totpFailedAttempts: nat
    var totpLockedUntil: Option<int>
    var totpLastStep: Option<int>

    constructor ()
      ensures Value() == Guard(0, None, None)
    {
      totpFailedAttempts, totpLockedUntil, totpLastStep := 0, None, None;
    }

    function Value(): Guard
      reads this
    {
      Guard(totpFailedAttempts, totpLockedUntil, totpLastStep)
    }

    /** One call of the verifier for a user whose token and secret are in order. */
    method Verify(codeAt: CodeAt, code: string, now: nat) returns (outcome: Outcome)
      modifies this
      ensures (Value(), outcome) == Attempt(old(Value()), now, MatchingStep(codeAt, code, now))
      ensures old(Value()).failed < 5 ==> Value().failed < 5
      ensures outcome.Locked? <==> old(Value()).lockedUntil.Some? && old(Value()).lockedUntil.value > now
      ensures !outcome.Locked? ==> (outcome.Wrong? <==> !ValidNearby(codeAt, code, now))
      ensures outcome.Replayed? ==> !AboveLast(codeAt, code, now, old(Value()).lastStep)
      ensures !outcome.Locked? && ValidNearby(codeAt, code, now) ==>
                (AboveLast(codeAt, code, now, old(Value()).lastStep) ==> outcome.Accepted?)
      ensures outcome.Accepted? ==> Value() == Guard(0, None, Some(outcome.step))
      ensures outcome.Locked? || outcome.Replayed? ==> Value() == old(Value())
      ensures outcome.Wrong? ==>
                Value() == if old(Value()).failed + 1 < 5
                           then old(Value()).(failed := old(Value()).failed + 1)
                           else Guard(0, Some(now + 900_000_000), old(Value()).lastStep)
      ensures outcome.Accepted? ==>
                && codeAt(outcome.step) == code && Nearby(outcome.step, now)
                && (old(Value()).lastStep.Some? ==> outcome.step > old(Value()).lastStep.value)
      ensures Value().lastStep == if outcome.Accepted? then Some(outcome.step) else old(Value()).lastStep
    {
      if totpLockedUntil.Some? && totpLockedUntil.value > now {
        return Locked;
      }
      var step := MatchingStep(codeAt, code, now);
      if step.None? {
        totpFailedAttempts := totpFailedAttempts + 1;
        if totpFailedAttempts >= MAX_FAILED {
          totpFailedAttempts := 0;
          totpLockedUntil := Some(now + LOCKOUT);
        }
        return Wrong;
      }
      if totpLastStep.Some? && step.value <= totpLastStep.value {
        return Replayed;
      }
      totpLastStep := step;
      totpFailedAttempts := 0;
      totpLockedUntil := None;
      return Accepted(step.value);
    }
  }

  // ---------------- whole lives ----------------

  /** One presented code: when, and which step it matches. */
  datatype Try = Try(now: nat, step: Option<int>)

  predicate WithinDrift(t: Try) {
    t.step.Some? ==> StepOf(t.now) - 1 <= t.step.value <= StepOf(t.now) + 1
  }

  /** A run of tries with a clock that never goes back, from `start` on. */
  ghost predicate Timeline(tries: seq<Try>, start: nat) {
    && (forall i :: 0 <= i < |tries| ==> start <= tries[i].now && WithinDrift(tries[i]))
    && (forall i, j :: 0 <= i < j < |tries| ==> tries[i].now <= tries[j].now)
  }

  function After(g: Guard, tries: seq<Try>): Guard
    decreases |tries|
  {
    if tries == [] then g else After(Attempt(g, tries[0].now, tries[0].step).0, tries[1..])
  }

  function Outcomes(g: Guard, tries: seq<Try>): (os: seq<Outcome>)
    ensures |os| == |tries|
    decreases |tries|
  {
    if tries == [] then []
    else
      var (g', o) := Attempt(g, tries[0].now, tries[0].step);
      [o] + Outcomes(g', tries[1..])
  }

  /** How many wrong codes were actually evaluated. */
  function WrongCount(outcomes: seq<Outcome>): nat {
    if outcomes == [] then 0 else (if outcomes[0] == Wrong then 1 else 0) + WrongCount(outcomes[1..])
  }

  function AcceptedSteps(outcomes: seq<Outcome>): seq<int> {
    if outcomes == [] then []
    else (if outcomes[0].Accepted? then [outcomes[0].step] else []) + AcceptedSteps(outcomes[1..])
  }

  lemma OutcomesSnoc(g: Guard, tries: seq<Try>)
    requires tries != []
    ensures var (g', o) := Attempt(g, tries[0].now, tries[0].step);
            && Outcomes(g, tries)[0] == o && Outcomes(g, tries)[1..] == Outcomes(g', tries[1..])
  {
  }

  /** The counter of every reachable guard is below the limit. */
  lemma {:induction false} CounterStaysBelow(g: Guard, tries: seq<Try>)
    requires g.failed < MAX_FAILED
    ensures After(g, tries).failed < MAX_FAILED
    decreases |tries|
  {
    if tries != [] {
      CounterStaysBelow(Attempt(g, tries[0].now, tries[0].step).0, tries[1..]);
    }
  }

  // ---------------- guessing is bounded ----------------

  /** Wrong codes that can still be evaluated from `now` to `end`: five for the
      current window and five for each lockout that can run out in time, less
      those already counted. */
  function Budget(g: Guard, now: nat, end: nat): int
  {
    var open := if g.lockedUntil.Some? && g.lockedUntil.value > now then g.lockedUntil.value else now;
    if open > end then 0 else MAX_FAILED * ((end - open) / LOCKOUT + 1) - g.failed
  }

  lemma WindowsShrink(a: int, b: int)
    requires 0 <= a <= b
    ensures a / LOCKOUT <= b / LOCKOUT
    ensures a + LOCKOUT <= b ==> a / LOCKOUT + 1 <= b / LOCKOUT
  {
  }

  /** Waiting never adds budget. */
  lemma BudgetShrinks(g: Guard, now: nat, later: nat, end: nat)
    requires g.failed < MAX_FAILED && now <= later <= end
    ensures 0 <= Budget(g, later, end) <= Budget(g, now, end) || Budget(g, now, end) == 0 == Budget(g, later, end)
  {
    var open := if g.lockedUntil.Some? && g.lockedUntil.value > now then g.lockedUntil.value else now;
    var open' := if g.lockedUntil.Some? && g.lockedUntil.value > later then g.lockedUntil.value else later;
    if open' <= end {
      WindowsShrink(end - open', end - open);
    }
  }

  /** One attempt that is not accepted spends a unit of budget if it was evaluated
      as wrong, and none otherwise. */
  lemma AttemptSpends(g: Guard, t: Try, end: nat)
    requires g.failed < MAX_FAILED && t.now <= end
    requires !Attempt(g, t.now, t.step).1.Accepted?
    ensures var (g', o) := Attempt(g, t.now, t.step);
            && g'.failed < MAX_FAILED
            && (if o == Wrong then 1 else 0) + Budget(g', t.now, end) <= Budget(g, t.now, end)
  {
    var (g', o) := Attempt(g, t.now, t.step);
    if o == Wrong && g.failed + 1 >= MAX_FAILED && t.now + LOCKOUT <= end {
      WindowsShrink(end - (t.now + LOCKOUT), end - t.now);
    }
  }

  lemma {:induction false} WrongWithinBudget(g: Guard, tries: seq<Try>, now: nat, end: nat)
    requires g.failed < MAX_FAILED && now <= end
    requires Timeline(tries, now) && forall i :: 0 <= i < |tries| ==> tries[i].now <= end
    requires AcceptedSteps(Outcomes(g, tries)) == []
    ensures WrongCount(Outcomes(g, tries)) <= Budget(g, now, end)
    decreases |tries|
  {
    if tries == [] {
      BudgetShrinks(g, now, end, end);
    } else {
      var t := tries[0];
      var (g', o) := Attempt(g, t.now, t.step);
      OutcomesSnoc(g, tries);
      assert !o.Accepted?;
      BudgetShrinks(g, now, t.now, end);
      AttemptSpends(g, t, end);
      WrongWithinBudget(g', tries[1..], t.now, end);
    }
  }

  /** From any reachable counter and lock, while no code is accepted, at most five
      wrong codes are evaluated per lockout period, plus five. */
  lemma {:induction false} GuessesAreBounded(history: seq<Try>, tries: seq<Try>, start: nat, span: nat)
    requires Timeline(tries, start) && forall i :: 0 <= i < |tries| ==> tries[i].now <= start + span
    requires AcceptedSteps(Outcomes(After(Guard(0, None, None), history), tries)) == []
    ensures WrongCount(Outcomes(After(Guard(0, None, None), history), tries)) <= 5 * (span / 900_000_000 + 1)
  {
    var g := After(Guard(0, None, None), history);
    CounterStaysBelow(Guard(0, None, None), history);
    WrongWithinBudget(g, tries, start, start + span);
    BudgetBound(g, start, span);
  }

  lemma BudgetBound(g: Guard, start: nat, span: nat)
    ensures Budget(g, start, start + span) <= 5 * (span / LOCKOUT + 1)
  {
    var open := if g.lockedUntil.Some? && g.lockedUntil.value > start then g.lockedUntil.value else start;
    if open <= start + span {
      WindowsShrink(start + span - open, span);
    }
  }

  /** The bound is met for every span: five wrong codes at once, and five more each
      time the lockout runs out. */
  lemma {:induction false} BoundIsTight(start: nat, span: nat)
    ensures var tries := Bursts(start, span / LOCKOUT);
            && Timeline(tries, start) && (forall i :: 0 <= i < |tries| ==> tries[i].now <= start + span)
            && AcceptedSteps(Outcomes(Guard(0, None, None), tries)) == []
            && WrongCount(Outcomes(Guard(0, None, None), tries)) == 5 * (span / LOCKOUT + 1)
  {
    var k := span / LOCKOUT;
    BurstsTimeline(start, k);
    BurstsWrong(Guard(0, None, None), start, k);
    NoneAccepted(Guard(0, None, None), Bursts(start, k));
  }

  /** k + 1 bursts of five, a lockout apart. */
  function Bursts(start: nat, k: nat): seq<Try>
    decreases k
  {
    Burst(start, 5) + if k == 0 then [] else Bursts(start + LOCKOUT, k - 1)
  }

  lemma {:induction false} BurstIs(now: nat, n: nat)
    ensures |Burst(now, n)| == n && forall i :: 0 <= i < n ==> Burst(now, n)[i] == Try(now, None)
  {
    if n > 0 {
      BurstIs(now, n - 1);
    }
  }

  /** Only wrong codes, in order, between two times. */
  ghost predicate WrongBetween(tries: seq<Try>, start: nat, end: nat) {
    && (forall i :: 0 <= i < |tries| ==> tries[i].step.None? && start <= tries[i].now <= end)
    && (forall i, j :: 0 <= i < j < |tries| ==> tries[i].now <= tries[j].now)
  }

  lemma WrongConcat(a: seq<Try>, b: seq<Try>, start: nat, middle: nat, end: nat)
    requires start <= middle <= end && WrongBetween(a, start, middle) && WrongBetween(b, middle, end)
    ensures WrongBetween(a + b, start, end)
  {
  }

  lemma {:induction false} BurstsTimeline(start: nat, k: nat)
    ensures WrongBetween(Bursts(start, k), start, start + k * LOCKOUT)
    decreases k
  {
    BurstIs(start, 5);
    if k == 0 {
      assert Burst(start, 5) + [] == Burst(start, 5);
    } else {
      BurstsTimeline(start + LOCKOUT, k - 1);
      WrongConcat(Burst(start, 5), Bursts(start + LOCKOUT, k - 1), start, start + LOCKOUT, start + k * LOCKOUT);
    }
  }

  lemma {:induction false} BurstsWrong(g: Guard, start: nat, k: nat)
    requires g.failed == 0 && (g.lockedUntil.Some? ==> g.lockedUntil.value <= start)
    ensures WrongCount(Outcomes(g, Bursts(start, k))) == 5 * (k + 1)
    decreases k
  {
    var rest := if k == 0 then [] else Bursts(start + LOCKOUT, k - 1);
    WrongBurst(g, start, 5, rest);
    if k > 0 {
      BurstsWrong(Guard(0, Some(start + LOCKOUT), g.lastStep), start + LOCKOUT, k - 1);
    }
  }

  lemma {:induction false} NoneAccepted(g: Guard, tries: seq<Try>)
    requires forall i :: 0 <= i < |tries| ==> tries[i].step.None?
    ensures AcceptedSteps(Outcomes(g, tries)) == []
    decreases |tries|
  {
    if tries != [] {
      var g' := Attempt(g, tries[0].now, tries[0].step).0;
      NoneAccepted(g', tries[1..]);
      OutcomesSnoc(g, tries);
    }
  }

  /** The same wrong code, n times at once. */
  function Burst(now: nat, n: nat): seq<Try> {
    if n == 0 then [] else [Try(now, None)] + Burst(now, n - 1)
  }

  lemma {:induction false} WrongBurst(g: Guard, now: nat, n: nat, rest: seq<Try>)
    requires 0 < n && g.failed + n == MAX_FAILED && (g.lockedUntil.Some? ==> g.lockedUntil.value <= now)
    ensures WrongCount(Outcomes(g, Burst(now, n) + rest))
            == n + WrongCount(Outcomes(Guard(0, Some(now + LOCKOUT), g.lastStep), rest))
    decreases n
  {
    var t := Try(now, None);
    assert Burst(now, n) + rest == [t] + (Burst(now, n - 1) + rest);
    OneWrong(g, t, Burst(now, n - 1) + rest);
    if n == 1 {
      assert Burst(now, 0) + rest == rest;
    } else {
      WrongBurst(g.(failed := g.failed + 1), now, n - 1, rest);
    }
  }

  lemma OneWrong(g: Guard, t: Try, rest: seq<Try>)
    requires Attempt(g, t.now, t.step).1 == Wrong
    ensures WrongCount(Outcomes(g, [t] + rest)) == 1 + WrongCount(Outcomes(Attempt(g, t.now, t.step).0, rest))
  {
    assert ([t] + rest)[1..] == rest;
    OutcomesSnoc(g, [t] + rest);
  }

  // ---------------- no step twice ----------------

  ghost predicate Increasing(steps: seq<int>) {
    forall i, j :: 0 <= i < j < |steps| ==> steps[i] < steps[j]
  }

  lemma IncreasingCons(x: int, rest: seq<int>)
    requires Increasing(rest) && forall s :: s in rest ==> x < s
    ensures Increasing([x] + rest)
  {
    assert forall i :: 0 <= i < |rest| ==> rest[i] in rest;
  }

  /** Accepted steps strictly increase over a whole life, start above the last one
      recorded, and each is within one step of the clock. */
  lemma {:induction false} AcceptedIncrease(g: Guard, tries: seq<Try>, low: int, high: int)
    requires forall i :: 0 <= i < |tries| ==> WithinDrift(tries[i]) && low <= StepOf(tries[i].now) <= high
    ensures Increasing(AcceptedSteps(Outcomes(g, tries)))
    ensures forall s :: s in AcceptedSteps(Outcomes(g, tries)) ==>
              low - 1 <= s <= high + 1 && (g.lastStep.Some? ==> s > g.lastStep.value)
    decreases |tries|
  {
    if tries != [] {
      var (g', o) := Attempt(g, tries[0].now, tries[0].step);
      OutcomesSnoc(g, tries);
      AcceptedIncrease(g', tries[1..], low, high);
      var rest := AcceptedSteps(Outcomes(g', tries[1..]));
      if o.Accepted? {
        assert AcceptedSteps(Outcomes(g, tries)) == [o.step] + rest;
        IncreasingCons(o.step, rest);
      } else {
        assert AcceptedSteps(Outcomes(g, tries)) == rest;
      }
    }
  }

  lemma {:induction false} IncreasingFits(steps: seq<int>, low: int, high: int)
    requires Increasing(steps) && forall s :: s in steps ==> low <= s <= high
    ensures steps != [] ==> |steps| <= high - low + 1
    decreases |steps|
  {
    if |steps| == 1 {
      assert steps[0] in steps;
    } else if |steps| > 1 {
      var front, last := steps[..|steps| - 1], steps[|steps| - 1];
      forall s | s in front ensures low <= s <= last - 1 {
        var i :| 0 <= i < |front| && front[i] == s;
        assert steps[i] == s && s in steps;
      }
      assert last in steps;
      IncreasingFits(front, low, last - 1);
    }
  }

  /** No step is accepted twice, so the clock bounds the logins: between clock
      steps b0 and b1 at most b1 - b0 + 3 codes are accepted. */
  lemma LoginsAreBounded(g: Guard, tries: seq<Try>, b0: nat, b1: nat)
    requires b0 <= b1
    requires forall i :: 0 <= i < |tries| ==> WithinDrift(tries[i]) && b0 <= StepOf(tries[i].now) <= b1
    ensures |AcceptedSteps(Outcomes(g, tries))| <= b1 - b0 + 3
  {
    AcceptedIncrease(g, tries, b0, b1);
    IncreasingFits(AcceptedSteps(Outcomes(g, tries)), b0 - 1, b1 + 1);
  }
}
