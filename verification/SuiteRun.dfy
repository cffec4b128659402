/** Concurrent tests of a suite: each test retries attempts within its budget while the suite may be cancelled
    at any moment, by a signal, by the expiry of its context or by another test that failed. */
module SuiteRun {
  import opened Common
  import opened TestBudget

  datatype Status = RUNNING | PASSED | FAILED | CANCELED | PANICKED

  /** How the test function ends: it returns, it panics after an error was recorded in its context (which may be
      a bad-parameter error), or it panics without one. */
  datatype Exit = Returned | ErrorRecorded(badParameter: bool) | PlainPanic

  /** The outcome handed to the retry loop: None is a nil error. */
  datatype Verdict = Nil | Err(badParameter: bool)

  /** An attempt with every status it was given, oldest first; `preempted` says, once a failed attempt is charged to
      the budget, whether its node was preempted. */
  datatype TestAttempt =
    TestAttempt(statuses: seq<Status>, exit: Option<Exit>, verdict: Option<Verdict>, preempted: Option<bool>)

  datatype Result = Succeeded | SkippedByFailFast | Errored

  datatype Phase =
    | Idle               // about to start an attempt
    | Running            // the test function runs
    | Unwinding          // the test function is over; its deferred function has not run yet
    | Deciding           // runTestFunc has returned
    | Reporting          // the budget was charged; the failing-fast flag has not been read yet
    | AskingBackoff
    | Sleeping
    | GivingUp
    | Finished(result: Result)

  datatype Test = Test(phase: Phase, counters: Counters, attempts: seq<TestAttempt>, charged: nat)

  datatype Suite = Suite(limits: Limits, failFast: bool, failingFast: bool, contextDone: bool, tests: seq<Test>)

  function NewTest(): Test {
    Test(Idle, Counters(0, 0), [], 0)
  }

  datatype TestStep =
    | Begin
    | Exits(exit: Exit)
    | Recover
    | Decide(preempted: bool)
    | Report
    | AskBackoff
    | Wake
    | StopSleeping
    | GiveUp

  datatype Action =
    | AddTest                         // scheduled, or derived by a running test
    | StepTest(id: nat, step: TestStep)
    | RaiseFlag                       // Cancel sets the flag ...
    | CancelContext                   // ... and then cancels the context
    | ContextExpires

  function Current(t: Test): TestAttempt
    requires t.attempts != []
  {
    t.attempts[|t.attempts| - 1]
  }

  function WithCurrent(t: Test, a: TestAttempt): Test
    requires t.attempts != []
  {
    t.(attempts := t.attempts[..|t.attempts| - 1] + [a])
  }

  predicate TestEnabled(s: Suite, t: Test, step: TestStep) {
    match step
    case Begin => t.phase == Idle
    case Exits(_) => t.phase == Running && t.attempts != []
    case Recover => t.phase == Unwinding && t.attempts != [] && Current(t).exit.Some?
    case Decide(_) => t.phase == Deciding && t.attempts != [] && Current(t).verdict.Some?
    case Report => t.phase == Reporting && t.attempts != [] && Current(t).verdict.Some? && Current(t).verdict.value.Err?
    case AskBackoff => t.phase == AskingBackoff
    case Wake => t.phase == Sleeping
    case StopSleeping => t.phase == Sleeping && s.contextDone
    case GiveUp => t.phase == GivingUp
  }

  /** The deferred function of runTestFunc. */
  function Conclude(failingFast: bool, exit: Exit): (Status, Verdict) {
    match exit
    case Returned => (PASSED, Nil)
    case _ =>
      if failingFast then (CANCELED, Nil)
      else if exit.ErrorRecorded? then (FAILED, Err(exit.badParameter))
      else (PANICKED, Err(true))
  }

  function TestAfter(s: Suite, t: Test, step: TestStep): Test
    requires TestEnabled(s, t, step)
  {
    match step
    case Begin => t.(phase := Running, attempts := t.attempts + [TestAttempt([RUNNING], None, None, None)])
    case Exits(exit) => WithCurrent(t, Current(t).(exit := Some(exit))).(phase := Unwinding)
    case Recover =>
      var a := Current(t);
      var (status, verdict) := Conclude(s.failingFast, a.exit.value);
      WithCurrent(t, a.(statuses := a.statuses + [status], verdict := Some(verdict))).(phase := Deciding)
    case Decide(preempted) =>
      if Current(t).verdict.value.Nil? then t.(phase := Finished(Succeeded))
      else
        WithCurrent(t, Current(t).(preempted := Some(preempted)))
        .(phase := Reporting, counters := AfterFailure(s.limits, t.counters, preempted), charged := t.charged + 1)
    case Report =>
      if s.failingFast then t.(phase := Finished(SkippedByFailFast))
      else if Current(t).verdict.value.badParameter then t.(phase := GivingUp)
      else t.(phase := AskingBackoff)
    case AskBackoff =>
      if s.contextDone || Exhausted(s.limits, t.counters) then t.(phase := GivingUp) else t.(phase := Sleeping)
    case Wake => t.(phase := Idle)
    case StopSleeping => t.(phase := GivingUp)
    case GiveUp => t.(phase := Finished(Errored))
  }

  predicate Enabled(s: Suite, a: Action) {
    match a
    case AddTest => true
    case StepTest(id, step) => id < |s.tests| && TestEnabled(s, s.tests[id], step)
    case RaiseFlag => true
    case CancelContext => s.failingFast
    case ContextExpires => true
  }

  function Apply(s: Suite, a: Action): Suite
    requires Enabled(s, a)
  {
    match a
    case AddTest => s.(tests := s.tests + [NewTest()])
    case StepTest(id, step) =>
      s.(tests := s.tests[id := TestAfter(s, s.tests[id], step)],
         failingFast := s.failingFast || (step.GiveUp? && s.failFast))
    case RaiseFlag => s.(failingFast := true)
    case CancelContext => s.(contextDone := true)
    case ContextExpires => s.(contextDone := true)
  }

  // ------------------------------------------------------------------ the invariant of a test

  /** A finished attempt: RUNNING and then exactly one final status, which tells what happened. */
  predicate Complete(a: TestAttempt, failingFast: bool) {
    && |a.statuses| == 2 && a.statuses[0] == RUNNING && a.statuses[1] != RUNNING
    && a.exit.Some? && a.verdict.Some?
    && (a.statuses[1] == PASSED <==> a.exit.value == Returned)
    && (a.statuses[1] == FAILED ==> a.exit.value.ErrorRecorded? && a.verdict.value == Err(a.exit.value.badParameter))
    && (a.statuses[1] == PANICKED ==> a.exit.value == PlainPanic && a.verdict.value == Err(true))
    && (a.verdict.value == Nil <==> a.statuses[1] == PASSED || a.statuses[1] == CANCELED)
    && (a.statuses[1] == CANCELED ==> failingFast)
  }

  /** An attempt that may be followed by another one. */
  predicate Retried(a: TestAttempt, failingFast: bool) {
    Complete(a, failingFast) && a.statuses[1] == FAILED && a.verdict.value == Err(false)
  }

  predicate LastAttempt(t: Test, failingFast: bool) {
    match t.phase
    case Idle => t.attempts == [] || Retried(Current(t), failingFast)
    case Running => t.attempts != [] && Current(t).statuses == [RUNNING] && Current(t).exit == None
    case Unwinding => t.attempts != [] && Current(t).statuses == [RUNNING] && Current(t).exit.Some?
    case Deciding => t.attempts != [] && Complete(Current(t), failingFast)
    case Reporting => t.attempts != [] && Complete(Current(t), failingFast) && Current(t).verdict.value.Err?
    case AskingBackoff => t.attempts != [] && Retried(Current(t), failingFast)
    case Sleeping => t.attempts != [] && Retried(Current(t), failingFast)
    case GivingUp => t.attempts != [] && Complete(Current(t), failingFast) && Current(t).verdict.value.Err?
    case Finished(result) =>
      && t.attempts != [] && Complete(Current(t), failingFast)
      && (result == Succeeded <==> Current(t).verdict.value == Nil)
      && (result == SkippedByFailFast ==> failingFast)
  }

  /** Has the last attempt been charged to the budget? */
  predicate Charged(p: Phase) {
    !(p == Running || p == Unwinding || p == Deciding || p == Finished(Succeeded))
  }

  /** Failures so far against the budget. */
  predicate WithinBudget(l: Limits, t: Test) {
    var c := t.counters;
    && t.charged == |t.attempts| - (if Charged(t.phase) then 0 else 1)
    && 0 <= c.numTries && 0 <= c.numPreempted
    && (if Exhausted(l, c) then t.charged <= l.maxTries * l.maxPreempted
        else c.numPreempted < l.maxPreempted && t.charged <= c.numTries * l.maxPreempted + c.numPreempted)
    && (!Charged(t.phase) || t.phase == Idle || t.phase == Sleeping ==> !Exhausted(l, c))
  }

  predicate TestInv(l: Limits, failingFast: bool, t: Test) {
    && LastAttempt(t, failingFast)
    && (forall i :: 0 <= i < |t.attempts| - 1 ==> Retried(t.attempts[i], failingFast))
    && WithinBudget(l, t)
  }

  predicate Inv(s: Suite) {
    && s.limits.maxTries >= 1 && s.limits.maxPreempted >= 1
    && forall i :: 0 <= i < |s.tests| ==> TestInv(s.limits, s.failingFast, s.tests[i])
  }

  lemma StatusStep(s: Suite, t: Test, step: TestStep)
    requires TestEnabled(s, t, step) && LastAttempt(t, s.failingFast)
    requires forall i :: 0 <= i < |t.attempts| - 1 ==> Retried(t.attempts[i], s.failingFast)
    ensures LastAttempt(TestAfter(s, t, step), s.failingFast)
    ensures forall i :: 0 <= i < |TestAfter(s, t, step).attempts| - 1 ==>
      Retried(TestAfter(s, t, step).attempts[i], s.failingFast)
  {
  }

  lemma BudgetStep(s: Suite, t: Test, step: TestStep)
    requires TestEnabled(s, t, step) && WithinBudget(s.limits, t) && LastAttempt(t, s.failingFast)
    requires s.limits.maxTries >= 1 && s.limits.maxPreempted >= 1
    ensures WithinBudget(s.limits, TestAfter(s, t, step))
  {
    var l, c := s.limits, t.counters;
    if step.Decide? && Current(t).verdict.value.Err? {
      ChargeFits(l, c, t.charged, step.preempted);
    }
  }

  lemma ChargeFits(l: Limits, c: Counters, charged: nat, preempted: bool)
    requires l.maxTries >= 1 && l.maxPreempted >= 1
    requires 0 <= c.numTries < l.maxTries && 0 <= c.numPreempted < l.maxPreempted
    requires charged <= c.numTries * l.maxPreempted + c.numPreempted
    ensures var d := AfterFailure(l, c, preempted);
      && 0 <= d.numTries && 0 <= d.numPreempted
      && if Exhausted(l, d) then charged + 1 <= l.maxTries * l.maxPreempted
         else d.numPreempted < l.maxPreempted && charged + 1 <= d.numTries * l.maxPreempted + d.numPreempted
  {
    Product(c.numTries + 1, l.maxTries, l.maxPreempted);
    assert (c.numTries + 1) * l.maxPreempted == c.numTries * l.maxPreempted + l.maxPreempted;
  }

  lemma FlagOnlyHelps(l: Limits, t: Test, before: bool, after: bool)
    requires TestInv(l, before, t) && (before ==> after)
    ensures TestInv(l, after, t)
  {
  }

  lemma StepInv(s: Suite, a: Action)
    requires Inv(s) && Enabled(s, a)
    ensures Inv(Apply(s, a))
    ensures s.failingFast ==> Apply(s, a).failingFast
  {
    var t := Apply(s, a);
    forall i | 0 <= i < |t.tests| ensures TestInv(t.limits, t.failingFast, t.tests[i]) {
      if a.StepTest? && a.id == i {
        StatusStep(s, s.tests[i], a.step);
        BudgetStep(s, s.tests[i], a.step);
        FlagOnlyHelps(s.limits, t.tests[i], s.failingFast, t.failingFast);
      } else if i < |s.tests| {
        FlagOnlyHelps(s.limits, s.tests[i], s.failingFast, t.failingFast);
      } else {
        NewTestInv(s.limits, t.failingFast);
      }
    }
  }

  lemma NewTestInv(l: Limits, failingFast: bool)
    requires l.maxTries >= 1 && l.maxPreempted >= 1
    ensures TestInv(l, failingFast, NewTest())
  {
  }

  // ------------------------------------------------------------------ whole runs

  function Init(limits: Limits, failFast: bool): Suite {
    Suite(limits, failFast, false, false, [])
  }

  function Run(s: Suite, actions: seq<Action>): Option<Suite>
    decreases |actions|
  {
    if actions == [] then Some(s)
    else if Enabled(s, actions[0]) then Run(Apply(s, actions[0]), actions[1..])
    else None
  }

  lemma {:induction false} RunInv(s: Suite, actions: seq<Action>)
    requires Inv(s) && Run(s, actions).Some?
    ensures Inv(Run(s, actions).value)
    ensures s.failingFast ==> Run(s, actions).value.failingFast
    ensures Run(s, actions).value.limits == s.limits
    decreases |actions|
  {
    if actions == [] {
    } else {
      StepInv(s, actions[0]);
      RunInv(Apply(s, actions[0]), actions[1..]);
    }
  }

  /** What every interleaving keeps, for every attempt of every test. */
  lemma EveryAttemptIsAccountedFor(limits: Limits, failFast: bool, actions: seq<Action>, id: nat, k: nat)
    requires limits.maxTries >= 1 && limits.maxPreempted >= 1
    requires Run(Init(limits, failFast), actions).Some?
    requires id < |Run(Init(limits, failFast), actions).value.tests|
    requires k < |Run(Init(limits, failFast), actions).value.tests[id].attempts|
    ensures var s := Run(Init(limits, failFast), actions).value;
      var t := s.tests[id];
      var a := t.attempts[k];
      // RUNNING, then at most one final status, and exactly one once the attempt is over
      && (a.statuses == [RUNNING] || (exists last :: a.statuses == [RUNNING, last] && last != RUNNING))
      && (a.statuses == [RUNNING] ==> k == |t.attempts| - 1 && (t.phase == Running || t.phase == Unwinding))
      // the final status says how the test function ended, and what the retry loop is told
      && (a.statuses == [RUNNING, PASSED] <==> a.statuses != [RUNNING] && a.exit == Some(Returned))
      && (a.statuses == [RUNNING, PASSED] || a.statuses == [RUNNING, CANCELED] ==> a.verdict == Some(Nil))
      && (a.statuses == [RUNNING, FAILED] ==>
            a.exit.Some? && a.exit.value.ErrorRecorded? && a.verdict == Some(Err(a.exit.value.badParameter)))
      && (a.statuses == [RUNNING, PANICKED] ==> a.exit == Some(PlainPanic) && a.verdict == Some(Err(true)))
      // only a failed attempt without a bad-parameter error is retried; a panicked one never is
      && (k < |t.attempts| - 1 ==> a.statuses == [RUNNING, FAILED] && a.verdict == Some(Err(false)))
      // a test succeeds exactly when its last attempt passed or was cancelled
      && (t.phase.Finished? && k == |t.attempts| - 1 ==>
            (t.phase == Finished(Succeeded) <==> a.statuses == [RUNNING, PASSED] || a.statuses == [RUNNING, CANCELED]))
      && (a.statuses == [RUNNING, CANCELED] ==> s.failingFast)
      // the attempts stay within the budget
      && |t.attempts| <= limits.maxTries * limits.maxPreempted
  {
    var s := Run(Init(limits, failFast), actions).value;
    RunInv(Init(limits, failFast), actions);
    var t := s.tests[id];
    var a := t.attempts[k];
    assert TestInv(s.limits, s.failingFast, t);
    AttemptBound(limits, t, s.failingFast);
    if a.statuses != [RUNNING] {
      assert Complete(a, s.failingFast);
      assert a.statuses == [RUNNING, a.statuses[1]];
    }
  }

  lemma AttemptBound(l: Limits, t: Test, failingFast: bool)
    requires TestInv(l, failingFast, t) && l.maxTries >= 1 && l.maxPreempted >= 1
    ensures |t.attempts| <= l.maxTries * l.maxPreempted
  {
    var c := t.counters;
    if !Exhausted(l, c) {
      Product(c.numTries + 1, l.maxTries, l.maxPreempted);
      assert (c.numTries + 1) * l.maxPreempted == c.numTries * l.maxPreempted + l.maxPreempted;
    }
  }

  /** Once the suite is failing fast it stays so, whatever happens afterwards. */
  lemma FlagNeverResets(limits: Limits, failFast: bool, before: seq<Action>, after: seq<Action>)
    requires limits.maxTries >= 1 && limits.maxPreempted >= 1
    requires Run(Init(limits, failFast), before).Some? && Run(Init(limits, failFast), before).value.failingFast
    requires Run(Run(Init(limits, failFast), before).value, after).Some?
    ensures Run(Run(Init(limits, failFast), before).value, after).value.failingFast
  {
    RunInv(Init(limits, failFast), before);
    RunInv(Run(Init(limits, failFast), before).value, after);
  }

  // ------------------------------------------------------------------ why a test gives up, and when it does not

  predicate IsPlainFailure(a: TestAttempt) {
    a.preempted == Some(false)
  }

  /** The failures among the attempts spend the budget: maxTries plain ones, or maxPreempted preemptions in a row at
      the end. */
  predicate Spent(l: Limits, attempts: seq<TestAttempt>) {
    || |Filter(attempts, (a: TestAttempt) => IsPlainFailure(a))| >= l.maxTries
    || (|attempts| >= l.maxPreempted
        && forall i :: |attempts| - l.maxPreempted <= i < |attempts| && i >= 0 ==> attempts[i].preempted == Some(true))
  }

  /** Preemptions in a row at the end. */
  function Trailing(attempts: seq<TestAttempt>): (n: nat)
    ensures n <= |attempts|
    ensures forall i :: |attempts| - n <= i < |attempts| ==> attempts[i].preempted == Some(true)
    ensures n < |attempts| ==> attempts[|attempts| - n - 1].preempted != Some(true)
  {
    if attempts == [] || attempts[|attempts| - 1].preempted != Some(true) then 0
    else 1 + Trailing(attempts[..|attempts| - 1])
  }

  lemma TrailingMeans(attempts: seq<TestAttempt>, p: int)
    requires p >= 1
    ensures Trailing(attempts) >= p <==>
      |attempts| >= p && forall i :: |attempts| - p <= i < |attempts| && i >= 0 ==> attempts[i].preempted == Some(true)
  {
    var n := Trailing(attempts);
    if n < p && |attempts| >= p {
      assert attempts[|attempts| - n - 1].preempted != Some(true);
    }
  }

  function PlainCount(attempts: seq<TestAttempt>): nat {
    |Filter(attempts, (a: TestAttempt) => IsPlainFailure(a))|
  }

  /** The counters are those of the attempts charged so far. */
  predicate CountersMatch(l: Limits, c: Counters, charged: seq<TestAttempt>) {
    && c.numPreempted == Trailing(charged)
    && (c.numPreempted < l.maxPreempted ==> c.numTries == PlainCount(charged))
    && (c.numPreempted >= l.maxPreempted ==> Exhausted(l, c))
  }

  predicate ChargesInv(l: Limits, t: Test) {
    && t.charged <= |t.attempts|
    && CountersMatch(l, t.counters, t.attempts[..t.charged])
    && forall i :: 0 <= i < |t.attempts| ==> (t.attempts[i].preempted.Some? <==> i < t.charged)
  }

  lemma MatchedMeans(l: Limits, c: Counters, charged: seq<TestAttempt>)
    requires CountersMatch(l, c, charged) && l.maxPreempted >= 1
    ensures Exhausted(l, c) <==> Spent(l, charged)
  {
    TrailingMeans(charged, l.maxPreempted);
  }

  lemma ChargeMatches(l: Limits, c: Counters, charged: seq<TestAttempt>, a: TestAttempt)
    requires CountersMatch(l, c, charged) && c.numPreempted < l.maxPreempted && l.maxPreempted >= 1 && a.preempted.Some?
    ensures CountersMatch(l, AfterFailure(l, c, a.preempted.value), charged + [a])
  {
    FilterSnoc(charged, a, (a: TestAttempt) => IsPlainFailure(a));
    assert (charged + [a])[..|charged|] == charged;
  }

  lemma DecisionCharges(s: Suite, t: Test, preempted: bool)
    requires TestEnabled(s, t, Decide(preempted)) && Current(t).verdict.value.Err? && ChargesInv(s.limits, t)
    requires t.charged == |t.attempts| - 1 && t.counters.numPreempted < s.limits.maxPreempted
    requires s.limits.maxPreempted >= 1
    ensures ChargesInv(s.limits, TestAfter(s, t, Decide(preempted)))
  {
    var u := TestAfter(s, t, Decide(preempted));
    ChargeMatches(s.limits, t.counters, t.attempts[..t.charged], Current(u));
    assert u.attempts[..u.charged] == t.attempts[..t.charged] + [Current(u)];
  }

  lemma OthersChargeNothing(s: Suite, t: Test, step: TestStep)
    requires TestEnabled(s, t, step) && ChargesInv(s.limits, t)
    requires step.Decide? ==> Current(t).verdict.value.Nil?
    requires step.Exits? || step.Recover? ==> t.charged == |t.attempts| - 1
    ensures ChargesInv(s.limits, TestAfter(s, t, step))
  {
    var u := TestAfter(s, t, step);
    assert u.attempts[..u.charged] == t.attempts[..t.charged];
  }

  lemma ChargesStep(s: Suite, t: Test, step: TestStep)
    requires TestEnabled(s, t, step) && TestInv(s.limits, s.failingFast, t) && ChargesInv(s.limits, t)
    requires s.limits.maxPreempted >= 1
    ensures ChargesInv(s.limits, TestAfter(s, t, step))
  {
    if step.Decide? && Current(t).verdict.value.Err? {
      DecisionCharges(s, t, step.preempted);
    } else {
      OthersChargeNothing(s, t, step);
    }
  }

  /** Why a test gives up. */
  predicate HasReason(s: Suite, t: Test) {
    t.phase == GivingUp || t.phase == Finished(Errored) ==>
      && t.attempts != []
      && (Current(t).verdict == Some(Err(true)) || s.contextDone || Spent(s.limits, t.attempts))
  }

  lemma ReasonStep(s: Suite, t: Test, step: TestStep)
    requires TestEnabled(s, t, step) && TestInv(s.limits, s.failingFast, t) && ChargesInv(s.limits, t)
    requires HasReason(s, t) && s.limits.maxPreempted >= 1
    ensures HasReason(s, TestAfter(s, t, step))
  {
    if step.AskBackoff? {
      MatchedMeans(s.limits, t.counters, t.attempts[..t.charged]);
      assert t.attempts[..t.charged] == t.attempts;
    }
  }

  predicate Reasoned(s: Suite) {
    forall i :: 0 <= i < |s.tests| ==> ChargesInv(s.limits, s.tests[i]) && HasReason(s, s.tests[i])
  }

  lemma ReasonedStep(s: Suite, a: Action)
    requires Inv(s) && Reasoned(s) && Enabled(s, a)
    ensures Reasoned(Apply(s, a))
  {
    var t := Apply(s, a);
    forall i | 0 <= i < |t.tests| ensures ChargesInv(t.limits, t.tests[i]) && HasReason(t, t.tests[i]) {
      if a.StepTest? && a.id == i {
        ChargesStep(s, s.tests[i], a.step);
        ReasonStep(s, s.tests[i], a.step);
      } else if i >= |s.tests| {
        assert t.tests[i] == NewTest();
      }
    }
  }

  lemma {:induction false} RunReasoned(s: Suite, actions: seq<Action>)
    requires Inv(s) && Reasoned(s) && Run(s, actions).Some?
    ensures Reasoned(Run(s, actions).value)
    decreases |actions|
  {
    if actions == [] {
    } else {
      StepInv(s, actions[0]);
      ReasonedStep(s, actions[0]);
      RunReasoned(Apply(s, actions[0]), actions[1..]);
    }
  }

  /** In every run a test that ends with an error has one that is not retried, or its context is done, or its
      failures have spent its budget; and the counters are those of its failures. */
  lemma ErroredHasAReason(limits: Limits, failFast: bool, actions: seq<Action>, id: nat)
    requires limits.maxTries >= 1 && limits.maxPreempted >= 1
    requires Run(Init(limits, failFast), actions).Some?
    requires id < |Run(Init(limits, failFast), actions).value.tests|
    ensures var s := Run(Init(limits, failFast), actions).value;
      var t := s.tests[id];
      && (t.phase == Finished(Errored) ==>
            && t.attempts != [] && t.charged == |t.attempts|
            && (Current(t).verdict == Some(Err(true)) || s.contextDone || Spent(limits, t.attempts)))
      && (forall i :: 0 <= i < |t.attempts| ==> (t.attempts[i].preempted.Some? <==> i < t.charged))
      && t.charged <= |t.attempts| && (Exhausted(limits, t.counters) <==> Spent(limits, t.attempts[..t.charged]))
  {
    RunInv(Init(limits, failFast), actions);
    RunReasoned(Init(limits, failFast), actions);
    var t := Run(Init(limits, failFast), actions).value.tests[id];
    MatchedMeans(limits, t.counters, t.attempts[..t.charged]);
  }

  predicate IsStepOf(a: Action, id: nat) {
    a.StepTest? && a.id == id
  }

  /** How many of the actions are steps of test `id`. */
  function StepsOf(actions: seq<Action>, id: nat): nat {
    if actions == [] then 0 else (if IsStepOf(actions[0], id) then 1 else 0) + StepsOf(actions[1..], id)
  }

  /** The test failed plainly in its last attempt, and its budget allows another one. */
  predicate MayRetry(s: Suite, t: Test) {
    && t.attempts != [] && Current(t).verdict == Some(Err(false))
    && t.charged == |t.attempts| && !Spent(s.limits, t.attempts)
  }

  /** The steps until a test that may retry begins its next attempt. */
  function StepsToRetry(p: Phase): nat {
    match p
    case Reporting => 4
    case AskingBackoff => 3
    case Sleeping => 2
    case Idle => 1
    case _ => 0
  }

  lemma RetryStep(s: Suite, t: Test, step: TestStep)
    requires TestEnabled(s, t, step) && TestInv(s.limits, s.failingFast, t) && ChargesInv(s.limits, t)
    requires s.limits.maxPreempted >= 1 && MayRetry(s, t) && StepsToRetry(t.phase) > 0
    requires !s.failingFast && !s.contextDone
    ensures var u := TestAfter(s, t, step);
      if StepsToRetry(t.phase) == 1 then u.phase == Running && |u.attempts| == |t.attempts| + 1
      else MayRetry(s, u) && StepsToRetry(u.phase) == StepsToRetry(t.phase) - 1 && u.attempts == t.attempts
  {
    MatchedMeans(s.limits, t.counters, t.attempts[..t.charged]);
    assert t.attempts[..t.charged] == t.attempts;
  }

  lemma {:induction false} AttemptsGrow(s: Suite, actions: seq<Action>, id: nat)
    requires id < |s.tests| && Run(s, actions).Some?
    ensures var t := Run(s, actions).value;
      && id < |t.tests| && |s.tests[id].attempts| <= |t.tests[id].attempts|
      && (s.failingFast ==> t.failingFast) && (s.contextDone ==> t.contextDone)
    decreases |actions|
  {
    if actions == [] {
    } else {
      AttemptsGrow(Apply(s, actions[0]), actions[1..], id);
    }
  }

  lemma {:induction false} RetryWithin(s: Suite, actions: seq<Action>, id: nat)
    requires Inv(s) && Reasoned(s) && id < |s.tests| && MayRetry(s, s.tests[id])
    requires Run(s, actions).Some? && !Run(s, actions).value.failingFast && !Run(s, actions).value.contextDone
    requires 0 < StepsToRetry(s.tests[id].phase) <= StepsOf(actions, id)
    ensures id < |Run(s, actions).value.tests|
    ensures |s.tests[id].attempts| < |Run(s, actions).value.tests[id].attempts|
    decreases |actions|
  {
    var t := Apply(s, actions[0]);
    AttemptsGrow(s, actions, id);
    AttemptsGrow(t, actions[1..], id);
    StepInv(s, actions[0]);
    ReasonedStep(s, actions[0]);
    if IsStepOf(actions[0], id) {
      RetryStep(s, s.tests[id], actions[0].step);
    }
    if |t.tests[id].attempts| == |s.tests[id].attempts| {
      RetryWithin(t, actions[1..], id);
    }
  }

  /** A plain failure within the budget is retried: as long as the context lives and the suite is not failing fast,
      the test neither gives up nor ends, and whatever the others do it begins another attempt within its next four
      steps. */
  lemma FailureIsRetried(limits: Limits, failFast: bool, before: seq<Action>, after: seq<Action>, id: nat)
    requires limits.maxTries >= 1 && limits.maxPreempted >= 1
    requires Run(Init(limits, failFast), before).Some?
    requires var s := Run(Init(limits, failFast), before).value;
      && id < |s.tests| && s.tests[id].attempts != []
      && Current(s.tests[id]).verdict == Some(Err(false)) && Current(s.tests[id]).preempted.Some?
      && !Spent(limits, s.tests[id].attempts)
      && Run(s, after).Some? && !Run(s, after).value.failingFast && !Run(s, after).value.contextDone
    ensures var s := Run(Init(limits, failFast), before).value;
      var t := Run(s, after).value;
      && s.tests[id].phase != GivingUp && !s.tests[id].phase.Finished?
      && id < |t.tests|
      && (StepsOf(after, id) >= 4 ==> |t.tests[id].attempts| > |s.tests[id].attempts|)
  {
    var s := Run(Init(limits, failFast), before).value;
    RunInv(Init(limits, failFast), before);
    RunReasoned(Init(limits, failFast), before);
    AttemptsGrow(s, after, id);
    FailedIsRetrying(s, id);
    if StepsOf(after, id) >= 4 {
      RetryWithin(s, after, id);
    }
  }

  lemma FailedIsRetrying(s: Suite, id: nat)
    requires Inv(s) && Reasoned(s) && id < |s.tests| && s.tests[id].attempts != []
    requires Current(s.tests[id]).verdict == Some(Err(false)) && Current(s.tests[id]).preempted.Some?
    requires !Spent(s.limits, s.tests[id].attempts) && !s.failingFast && !s.contextDone
    ensures MayRetry(s, s.tests[id]) && 0 < StepsToRetry(s.tests[id].phase) <= 4
    ensures s.tests[id].phase != GivingUp && !s.tests[id].phase.Finished?
  {
    assert TestInv(s.limits, s.failingFast, s.tests[id]);
    assert HasReason(s, s.tests[id]);
  }

  // ------------------------------------------------------------------ failing fast

  predicate ErrorsRaiseFlag(s: Suite) {
    s.failFast ==> forall i :: 0 <= i < |s.tests| && s.tests[i].phase == Finished(Errored) ==> s.failingFast
  }

  lemma {:induction false} RunRaisesFlag(s: Suite, actions: seq<Action>)
    requires ErrorsRaiseFlag(s) && Run(s, actions).Some?
    ensures ErrorsRaiseFlag(Run(s, actions).value) && Run(s, actions).value.failFast == s.failFast
    decreases |actions|
  {
    if actions == [] {
    } else {
      RunRaisesFlag(Apply(s, actions[0]), actions[1..]);
    }
  }

  /** A test that ends with an error makes a fail-fast suite fail fast. */
  lemma ErrorStopsSuite(limits: Limits, actions: seq<Action>, id: nat)
    requires Run(Init(limits, true), actions).Some?
    requires var s := Run(Init(limits, true), actions).value;
      id < |s.tests| && s.tests[id].phase == Finished(Errored)
    ensures Run(Init(limits, true), actions).value.failingFast
  {
    RunRaisesFlag(Init(limits, true), actions);
  }

  /** The attempts a test may still begin once the suite is failing fast. */
  function Remaining(p: Phase): nat {
    if p == Idle || p == AskingBackoff || p == Sleeping then 1 else 0
  }

  /** The attempts of test `id`, those it may still begin included. */
  function Outlook(s: Suite, id: nat): nat {
    if id < |s.tests| then |s.tests[id].attempts| + Remaining(s.tests[id].phase) else 1
  }

  lemma OutlookStep(s: Suite, a: Action, id: nat)
    requires s.failingFast && Enabled(s, a)
    requires forall i :: 0 <= i < |s.tests| ==> LastAttempt(s.tests[i], true)
    ensures Outlook(Apply(s, a), id) <= Outlook(s, id)
  {
  }

  lemma {:induction false} RunKeepsOutlook(s: Suite, actions: seq<Action>, id: nat)
    requires Inv(s) && s.failingFast && Run(s, actions).Some?
    ensures Outlook(Run(s, actions).value, id) <= Outlook(s, id)
    decreases |actions|
  {
    if actions == [] {
    } else {
      forall i | 0 <= i < |s.tests| ensures LastAttempt(s.tests[i], true) {
        assert TestInv(s.limits, s.failingFast, s.tests[i]);
      }
      OutlookStep(s, actions[0], id);
      StepInv(s, actions[0]);
      RunKeepsOutlook(Apply(s, actions[0]), actions[1..], id);
    }
  }

  /** After Cancel has raised the flag, every test begins at most one more attempt, and a test that is running an
      attempt none. */
  lemma CancelStopsRetries(limits: Limits, failFast: bool, before: seq<Action>, after: seq<Action>, id: nat)
    requires limits.maxTries >= 1 && limits.maxPreempted >= 1
    requires Run(Init(limits, failFast), before).Some? && Run(Init(limits, failFast), before).value.failingFast
    requires Run(Run(Init(limits, failFast), before).value, after).Some?
    requires id < |Run(Run(Init(limits, failFast), before).value, after).value.tests|
    ensures var s := Run(Init(limits, failFast), before).value;
      var t := Run(s, after).value;
      && (id >= |s.tests| ==> |t.tests[id].attempts| <= 1)
      && (id < |s.tests| ==> |t.tests[id].attempts| <= |s.tests[id].attempts| + 1)
      && (id < |s.tests| && (s.tests[id].phase == Running || s.tests[id].phase == Unwinding) ==>
            |t.tests[id].attempts| <= |s.tests[id].attempts|)
  {
    RunInv(Init(limits, failFast), before);
    RunKeepsOutlook(Run(Init(limits, failFast), before).value, after, id);
  }

  /** Phases from which a test of a suite that is failing fast does not reach an error any more. */
  predicate CannotErr(p: Phase) {
    p == Idle || p == Running || p == Unwinding || p == Deciding || p == Reporting
    || p == Finished(Succeeded) || p == Finished(SkippedByFailFast)
  }

  /** Nothing that happens to test `id` later is an error. */
  predicate Spared(s: Suite, id: nat) {
    id < |s.tests| ==> CannotErr(s.tests[id].phase)
  }

  lemma {:induction false} RunSpares(s: Suite, actions: seq<Action>, id: nat)
    requires s.failingFast && Spared(s, id) && Run(s, actions).Some?
    ensures Run(s, actions).value.failingFast && Spared(Run(s, actions).value, id)
    decreases |actions|
  {
    if actions == [] {
    } else {
      RunSpares(Apply(s, actions[0]), actions[1..], id);
    }
  }

  /** Once the suite is failing fast a test that runs an attempt, is about to, or has not reported its failure yet,
      never ends with an error: it succeeds or is skipped. */
  lemma FailFastSkips(s: Suite, actions: seq<Action>, id: nat)
    requires s.failingFast && Spared(s, id) && Run(s, actions).Some? && id < |Run(s, actions).value.tests|
    ensures var p := Run(s, actions).value.tests[id].phase;
      && p != Finished(Errored)
      && (p.Finished? ==> p.result == Succeeded || p.result == SkippedByFailFast)
  {
    RunSpares(s, actions, id);
  }

  // ------------------------------------------------------------------ every test ends

  function PhaseRank(p: Phase): nat {
    match p
    case Idle => 8
    case Running => 7
    case Unwinding => 6
    case Deciding => 5
    case Reporting => 13
    case AskingBackoff => 12
    case Sleeping => 11
    case GivingUp => 1
    case Finished(_) => 0
  }

  /** Steps left to a test at most: ten for each failure its budget still allows. */
  function TestRank(l: Limits, t: Test): int {
    10 * (l.maxTries * l.maxPreempted - t.charged) + PhaseRank(t.phase)
  }

  /** Every step of a test brings it nearer to its end. */
  lemma TestStepDescends(s: Suite, t: Test, step: TestStep)
    requires TestInv(s.limits, s.failingFast, t) && TestEnabled(s, t, step)
    requires s.limits.maxTries >= 1 && s.limits.maxPreempted >= 1
    ensures 0 <= TestRank(s.limits, TestAfter(s, t, step)) < TestRank(s.limits, t)
  {
    StatusStep(s, t, step);
    BudgetStep(s, t, step);
    AttemptBound(s.limits, TestAfter(s, t, step), s.failingFast);
  }

  /** The rank of test `id`, which is that of a new test until the test is scheduled. */
  function RankOf(s: Suite, id: nat): int {
    TestRank(s.limits, if id < |s.tests| then s.tests[id] else NewTest())
  }

  lemma RankStep(s: Suite, a: Action, id: nat)
    requires Inv(s) && Enabled(s, a)
    ensures RankOf(Apply(s, a), id) <= RankOf(s, id) - (if IsStepOf(a, id) then 1 else 0)
  {
    if IsStepOf(a, id) {
      TestStepDescends(s, s.tests[id], a.step);
    }
  }

  lemma RankIsNonNegative(s: Suite, id: nat)
    requires Inv(s)
    ensures 0 <= RankOf(s, id)
  {
    NewTestInv(s.limits, s.failingFast);
    AttemptBound(s.limits, if id < |s.tests| then s.tests[id] else NewTest(), s.failingFast);
    assert id < |s.tests| ==> TestInv(s.limits, s.failingFast, s.tests[id]);
  }

  lemma {:induction false} StepsFitRank(s: Suite, actions: seq<Action>, id: nat)
    requires Inv(s) && Run(s, actions).Some?
    ensures StepsOf(actions, id) <= RankOf(s, id)
    decreases |actions|
  {
    if actions == [] {
      RankIsNonNegative(s, id);
    } else {
      RankStep(s, actions[0], id);
      StepInv(s, actions[0]);
      StepsFitRank(Apply(s, actions[0]), actions[1..], id);
    }
  }

  /** Whatever else happens in the suite, a test takes at most ten steps for each attempt of its budget, and eight
      more. */
  lemma TestStepsAreBounded(limits: Limits, failFast: bool, actions: seq<Action>, id: nat)
    requires limits.maxTries >= 1 && limits.maxPreempted >= 1
    requires Run(Init(limits, failFast), actions).Some?
    ensures StepsOf(actions, id) <= 10 * (limits.maxTries * limits.maxPreempted) + 8
  {
    StepsFitRank(Init(limits, failFast), actions, id);
  }

  /** A test that is not over can always take a step of its own (its function is taken to end). */
  lemma TestProgress(s: Suite, t: Test) returns (step: TestStep)
    requires TestInv(s.limits, s.failingFast, t) && !t.phase.Finished?
    ensures TestEnabled(s, t, step)
  {
    match t.phase
    case Idle => step := Begin;
    case Running => step := Exits(Returned);
    case Unwinding => step := Recover;
    case Deciding => step := Decide(false);
    case Reporting => step := Report;
    case AskingBackoff => step := AskBackoff;
    case Sleeping => step := Wake;
    case GivingUp => step := GiveUp;
  }

  lemma RunThree(s: Suite, a: Action, b: Action, c: Action)
    requires Enabled(s, a) && Enabled(Apply(s, a), b) && Enabled(Apply(Apply(s, a), b), c)
    ensures Run(s, [a, b, c]) == Some(Apply(Apply(Apply(s, a), b), c))
  {
    var t, u := Apply(s, a), Apply(Apply(s, a), b);
    assert Run(Apply(u, c), []) == Some(Apply(u, c));
    assert [c][1..] == [];
    assert Run(u, [c]) == Some(Apply(u, c));
    assert [b, c][1..] == [c];
    assert Run(t, [b, c]) == Some(Apply(u, c));
    assert [a, b, c][1..] == [b, c];
  }

  /** A panic of the test function is hidden exactly when the suite is failing fast as the deferred function runs. */
  lemma PanicIsHiddenIff(s: Suite, id: nat)
    requires id < |s.tests| && LastAttempt(s.tests[id], s.failingFast) && s.tests[id].phase == Unwinding
    requires Current(s.tests[id]).exit != Some(Returned)
    ensures Enabled(s, StepTest(id, Recover))
    ensures var a := Current(Apply(s, StepTest(id, Recover)).tests[id]);
      && (a.verdict == Some(Nil) <==> s.failingFast)
      && (a.statuses == [RUNNING, CANCELED] <==> s.failingFast)
  {
    var status := Conclude(s.failingFast, Current(s.tests[id]).exit.value).0;
    assert Current(Apply(s, StepTest(id, Recover)).tests[id]).statuses == [RUNNING, status];
    assert [RUNNING, status][1] == status;
  }

  /** A cancelled attempt hides its error: whenever the test function of a running attempt panics in a suite that
      is failing fast, with or without a recorded error, the test counts as successful. */
  lemma CancelledAttemptSucceeds(s: Suite, id: nat, exit: Exit)
    requires s.failingFast && id < |s.tests| && LastAttempt(s.tests[id], true) && s.tests[id].phase == Running
    requires exit != Returned
    ensures var end := Run(s, [StepTest(id, Exits(exit)), StepTest(id, Recover), StepTest(id, Decide(false))]);
      && end.Some? && id < |end.value.tests|
      && end.value.tests[id].phase == Finished(Succeeded)
      && |end.value.tests[id].attempts| == |s.tests[id].attempts|
      && Current(end.value.tests[id]).statuses == [RUNNING, CANCELED]
  {
    RunThree(s, StepTest(id, Exits(exit)), StepTest(id, Recover), StepTest(id, Decide(false)));
  }
}
