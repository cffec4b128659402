/** The retry budget of a test: plain failures and node preemptions are counted apart, and a plain failure
    forgives the preemptions before it. */
module TestBudget {
  import opened Common

  datatype Counters = Counters(numTries: int, numPreempted: int)

  datatype Limits = Limits(maxTries: int, maxPreempted: int)

  function AfterFailure(l: Limits, c: Counters, preempted: bool): Counters {
    if preempted then
      Counters(if c.numPreempted + 1 >= l.maxPreempted then l.maxTries else c.numTries, c.numPreempted + 1)
    else Counters(c.numTries + 1, 0)
  }

  predicate Exhausted(l: Limits, c: Counters) {
    c.numTries >= l.maxTries
  }

  /** The backoff interval; its delegate, an exponential interval without time limit, never stops. */
  class PreemptiveBackoff {
    const limits: Limits
    var numTries: int
    var numPreempted: int

    function Value(): Counters
      reads this
    {
      Counters(numTries, numPreempted)
    }

    constructor (maxTries: int, maxPreempted: int)
      ensures limits == Limits(maxTries, maxPreempted) && Value() == Counters(0, 0)
    {
      limits, numTries, numPreempted := Limits(maxTries, maxPreempted), 0, 0;
    }

    method Reset()
      modifies this
      ensures Value() == Counters(0, 0)
    {
      numTries, numPreempted := 0, 0;
    }

    method NextPreempted()
      modifies this
      ensures Value() == AfterFailure(limits, old(Value()), true)
    {
      numPreempted := numPreempted + 1;
      if numPreempted >= limits.maxPreempted {
        numTries := limits.maxTries;
      }
    }

    method Next()
      modifies this
      ensures Value() == AfterFailure(limits, old(Value()), false)
    {
      numTries := numTries + 1;
      numPreempted := 0;
    }

    method NextBackOff() returns (stop: bool)
      ensures stop <==> Exhausted(limits, Value())
    {
      stop := numTries >= limits.maxTries;
    }
  }

  // ------------------------------------------------------------------ the retry loop

  /** One attempt of a test as the retry loop sees it: it passes, it is skipped because the suite is failing
      fast, or it fails; then the context may be found done before the next attempt. */
  datatype Attempt = Passed | Skipped | Failed(preempted: bool, permanent: bool, contextDone: bool)

  type Script = nat -> Attempt

  predicate IsPlain(a: Attempt) {
    a.Failed? && !a.preempted
  }

  function PlainFailures(script: Script, n: nat): nat {
    if n == 0 then 0 else PlainFailures(script, n - 1) + (if IsPlain(script(n - 1)) then 1 else 0)
  }

  /** Preemptions since the last plain failure. */
  function RecentPreemptions(script: Script, n: nat): nat {
    if n == 0 || IsPlain(script(n - 1)) then 0
    else RecentPreemptions(script, n - 1) + (if script(n - 1).Failed? then 1 else 0)
  }

  predicate BudgetSpent(l: Limits, script: Script, n: nat) {
    PlainFailures(script, n) >= l.maxTries || RecentPreemptions(script, n) >= l.maxPreempted
  }

  /** The loop ends with attempt number n (counted from 1). */
  predicate EndsWith(l: Limits, script: Script, n: nat)
    requires n >= 1
  {
    var a := script(n - 1);
    !a.Failed? || a.permanent || a.contextDone || BudgetSpent(l, script, n)
  }

  /** Every attempt counts against the budget. */
  lemma {:induction false} BudgetCoversAttempts(l: Limits, script: Script, n: nat)
    requires l.maxPreempted >= 1
    requires forall k :: 0 <= k < n ==> script(k).Failed?
    requires forall k :: 1 <= k < n ==> RecentPreemptions(script, k) < l.maxPreempted
    ensures n <= PlainFailures(script, n) * l.maxPreempted + RecentPreemptions(script, n)
  {
    if n == 0 {
    } else {
      BudgetCoversAttempts(l, script, n - 1);
      var p := PlainFailures(script, n - 1);
      if IsPlain(script(n - 1)) {
        assert (p + 1) * l.maxPreempted == p * l.maxPreempted + l.maxPreempted;
        assert n > 1 ==> RecentPreemptions(script, n - 1) < l.maxPreempted;
      }
    }
  }

  lemma {:induction false} AttemptsAreBounded(l: Limits, script: Script, n: nat)
    requires l.maxTries >= 1 && l.maxPreempted >= 1
    requires forall k :: 1 <= k < n ==> !EndsWith(l, script, k)
    ensures n <= l.maxTries * l.maxPreempted
  {
    if n == 0 || n == 1 {
      assert 1 * 1 <= l.maxTries * l.maxPreempted by { Product(1, l.maxTries, l.maxPreempted); }
    } else {
      assert !EndsWith(l, script, n - 1);
      forall k | 0 <= k < n - 1 ensures script(k).Failed? {
        assert !EndsWith(l, script, k + 1);
      }
      forall k | 1 <= k < n ensures RecentPreemptions(script, k) < l.maxPreempted {
        assert !EndsWith(l, script, k);
      }
      BudgetCoversAttempts(l, script, n - 1);
      var p := PlainFailures(script, n - 1);
      Product(p + 1, l.maxTries, l.maxPreempted);
      assert (p + 1) * l.maxPreempted == p * l.maxPreempted + l.maxPreempted;
    }
  }

  lemma Product(a: int, b: int, c: int)
    requires a <= b && c >= 0
    ensures a * c <= b * c
  {
  }

  /** The first n attempts. */
  function Outcomes(script: Script, n: nat): (r: seq<Attempt>)
    ensures |r| == n && forall i :: 0 <= i < n ==> r[i] == script(i)
  {
    seq(n, i requires 0 <= i < n => script(i))
  }

  lemma {:induction false} PlainFailuresAre(script: Script, n: nat)
    ensures PlainFailures(script, n) == |Filter(Outcomes(script, n), (a: Attempt) => IsPlain(a))|
  {
    if n == 0 {
    } else {
      PlainFailuresAre(script, n - 1);
      assert Outcomes(script, n) == Outcomes(script, n - 1) + [script(n - 1)];
      FilterSnoc(Outcomes(script, n - 1), script(n - 1), (a: Attempt) => IsPlain(a));
    }
  }

  lemma {:induction false} RecentAre(script: Script, n: nat)
    requires forall k :: 0 <= k < n ==> script(k).Failed?
    ensures RecentPreemptions(script, n) <= n
    ensures forall k :: n - RecentPreemptions(script, n) <= k < n ==> script(k).preempted
    ensures RecentPreemptions(script, n) < n ==> !script(n - RecentPreemptions(script, n) - 1).preempted
  {
    if n == 0 {
    } else {
      assert script(n - 1).Failed?;
      RecentAre(script, n - 1);
    }
  }

  /** The budget is spent by maxTries plain failures, or by maxPreempted preemptions in a row. */
  lemma BudgetSpentMeans(l: Limits, script: Script, n: nat)
    requires l.maxPreempted >= 1 && forall k :: 0 <= k < n ==> script(k).Failed?
    ensures BudgetSpent(l, script, n) <==>
      || |Filter(Outcomes(script, n), (a: Attempt) => IsPlain(a))| >= l.maxTries
      || (n >= l.maxPreempted && forall k :: n - l.maxPreempted <= k < n ==> script(k).Failed? && script(k).preempted)
  {
    PlainFailuresAre(script, n);
    RecentAre(script, n);
    var recent := RecentPreemptions(script, n);
    if recent < l.maxPreempted <= n {
      assert !script(n - recent - 1).preempted;
    }
  }

  /** The attempts before the last one failed and could be retried, and the last one could not. */
  ghost predicate StopsAt(l: Limits, script: Script, n: nat)
    requires n >= 1
  {
    && (forall k :: 0 <= k < n - 1 ==> script(k).Failed? && !script(k).permanent && !script(k).contextDone)
    && var last := script(n - 1);
       || last.Passed? || last.Skipped? || last.permanent || last.contextDone
       || |Filter(Outcomes(script, n), (a: Attempt) => IsPlain(a))| >= l.maxTries
       || (n >= l.maxPreempted && forall k :: n - l.maxPreempted <= k < n ==> script(k).Failed? && script(k).preempted)
  }

  lemma EndMeans(l: Limits, script: Script, n: nat)
    requires n >= 1 && l.maxPreempted >= 1 && forall k :: 1 <= k < n ==> !EndsWith(l, script, k)
    ensures EndsWith(l, script, n) <==> StopsAt(l, script, n)
  {
    forall k | 0 <= k < n - 1 ensures script(k).Failed? && !script(k).permanent && !script(k).contextDone {
      assert !EndsWith(l, script, k + 1);
    }
    if script(n - 1).Failed? {
      BudgetSpentMeans(l, script, n);
    }
  }

  /** The loop of backoff.RetryNotify around a test: stops on success, a skip or a permanent error, asks the
      interval, and stops when the context is done.  It ends with the first attempt that EndsWith names, which
      comes within maxTries * maxPreempted attempts. */
  method RunWithRetries(maxTries: int, maxPreempted: int, script: Script) returns (attempts: nat)
    requires maxTries >= 1 && maxPreempted >= 1
    ensures 1 <= attempts <= maxTries * maxPreempted
    ensures EndsWith(Limits(maxTries, maxPreempted), script, attempts)
    ensures forall k :: 1 <= k < attempts ==> !EndsWith(Limits(maxTries, maxPreempted), script, k)
    ensures StopsAt(Limits(maxTries, maxPreempted), script, attempts)
    ensures forall k :: 1 <= k < attempts ==> !StopsAt(Limits(maxTries, maxPreempted), script, k)
  {
    var b := new PreemptiveBackoff(maxTries, maxPreempted);
    ghost var l := b.limits;
    b.Reset();
    attempts := 0;
    while true
      invariant b.limits == l && fresh(b)
      invariant b.numTries == PlainFailures(script, attempts) < maxTries
      invariant b.numPreempted == RecentPreemptions(script, attempts) < maxPreempted
      invariant forall k :: 1 <= k <= attempts ==> !EndsWith(l, script, k)
      decreases maxTries - b.numTries, maxPreempted - b.numPreempted
    {
      AttemptsAreBounded(l, script, attempts + 1);
      forall k | 1 <= k <= attempts + 1 ensures EndsWith(l, script, k) <==> StopsAt(l, script, k) {
        EndMeans(l, script, k);
      }
      var attempt := script(attempts);
      attempts := attempts + 1;
      if !attempt.Failed? {
        return;
      }
      if attempt.preempted {
        b.NextPreempted();
      } else {
        b.Next();
      }
      if attempt.permanent {
        return;
      }
      var stop := b.NextBackOff();
      if stop || attempt.contextDone {
        return;
      }
    }
  }

  // ------------------------------------------------------------------ the bound is reached

  /** Every plain failure comes after as many preemptions as are forgiven. */
  function Adversary(l: Limits): Script
    requires l.maxPreempted >= 1
  {
    n => Failed((n + 1) % l.maxPreempted != 0, false, false)
  }

  lemma DivStep(n: nat, p: nat)
    requires p >= 1
    ensures (n + 1) % p == 0 ==> (n + 1) / p == n / p + 1
    ensures (n + 1) % p != 0 ==> (n + 1) / p == n / p && (n + 1) % p == n % p + 1
  {
    var q, r := n / p, n % p;
    assert n == q * p + r;
    if r + 1 == p {
      assert n + 1 == (q + 1) * p;
      DivUnique(n + 1, p, q + 1, 0);
    } else {
      DivUnique(n + 1, p, q, r + 1);
    }
  }

  lemma DivUnique(n: nat, p: nat, q: nat, r: nat)
    requires p >= 1 && n == q * p + r && r < p
    ensures n / p == q && n % p == r
  {
    var q', r' := n / p, n % p;
    assert n == q' * p + r';
    assert (q' + 1) * p == q' * p + p && (q + 1) * p == q * p + p;
    if q' < q {
      Product(q' + 1, q, p);
    } else if q < q' {
      Product(q + 1, q', p);
    }
  }

  lemma QuotientBelow(k: nat, t: nat, p: nat)
    requires p >= 1 && k < t * p
    ensures k / p < t
  {
    assert k == k / p * p + k % p;
    if k / p >= t {
      Product(t, k / p, p);
    }
  }

  lemma {:induction false} AdversaryCounts(l: Limits, n: nat)
    requires l.maxPreempted >= 1
    ensures PlainFailures(Adversary(l), n) == n / l.maxPreempted
    ensures RecentPreemptions(Adversary(l), n) == n % l.maxPreempted
  {
    if n == 0 {
    } else {
      AdversaryCounts(l, n - 1);
      DivStep(n - 1, l.maxPreempted);
    }
  }

  /** The bound is tight: this schedule uses every attempt of it. */
  lemma BoundIsReached(l: Limits)
    requires l.maxTries >= 1 && l.maxPreempted >= 1
    ensures l.maxTries * l.maxPreempted >= 1
    ensures EndsWith(l, Adversary(l), l.maxTries * l.maxPreempted)
    ensures forall k :: 1 <= k < l.maxTries * l.maxPreempted ==> !EndsWith(l, Adversary(l), k)
  {
    var t, p := l.maxTries, l.maxPreempted;
    Product(1, t, p);
    AdversaryCounts(l, t * p);
    DivUnique(t * p, p, t, 0);
    forall k | 1 <= k < t * p ensures !EndsWith(l, Adversary(l), k) {
      AdversaryCounts(l, k);
      QuotientBelow(k, t, p);
    }
  }
}
