/** Fan-out and fan-in of cluster operations: n processes each send one error (possibly nil) and, when a value
    channel is used, one value, on channels of capacity n; Collect receives until it has seen all of them or
    its context is done. */
module FanIn {
  import opened Common

  /** What one process will send; the value is sent whether or not the error is nil. */
  datatype Work<V> = Work(err: Option<int>, value: V)

  // ------------------------------------------------------------------ the collecting loop

  /** What the select statement delivers in one turn of the loop. */
  datatype Event<V> = ContextDone | ErrorArrived(err: Option<int>) | ValueArrived(value: V)

  datatype Failure = TimedOut | Reported(err: int)

  datatype Verdict<V> =
    | Accepted(values: seq<V>)       // nil error
    | Rejected(failures: seq<Failure>)
    | BadCapacities
    | StillWaiting                   // the loop is blocked in select

  datatype Collector<V> =
    Collector(errorsLeft: int, valuesLeft: int, failures: seq<Failure>, values: seq<V>, cancels: nat)

  predicate Satisfied<V>(c: Collector<V>) {
    c.errorsLeft <= 0 && c.valuesLeft <= 0
  }

  function Receive<V>(c: Collector<V>, e: Event<V>, hasCancel: bool): Collector<V>
    requires !e.ContextDone?
  {
    match e
    case ErrorArrived(err) =>
      c.(errorsLeft := c.errorsLeft - 1,
         failures := c.failures + Failures([err]),
         cancels := c.cancels + (if err.Some? && hasCancel then 1 else 0))
    case ValueArrived(value) => c.(valuesLeft := c.valuesLeft - 1, values := c.values + [value])
  }

  /** The verdict reached from c when the select statement delivers exactly `events`. */
  function Judge<V>(c: Collector<V>, events: seq<Event<V>>, hasCancel: bool): Verdict<V>
    decreases |events|
  {
    if Satisfied(c) then Conclude(c)
    else if events == [] then StillWaiting
    else if events[0].ContextDone? then Rejected(c.failures + [TimedOut])
    else Judge(Receive(c, events[0], hasCancel), events[1..], hasCancel)
  }

  /** The collector when the loop stops, or blocks. */
  function Final<V>(c: Collector<V>, events: seq<Event<V>>, hasCancel: bool): Collector<V>
    decreases |events|
  {
    if Satisfied(c) || events == [] || events[0].ContextDone? then c
    else Final(Receive(c, events[0], hasCancel), events[1..], hasCancel)
  }

  /** The cancel function is called once for every error received, if there is one. */
  lemma {:induction false} OneCancelPerError<V>(c: Collector<V>, events: seq<Event<V>>, hasCancel: bool)
    ensures var f := Final(c, events, hasCancel);
      && |c.failures| <= |f.failures|
      && f.cancels == c.cancels + (if hasCancel then |f.failures| - |c.failures| else 0)
    decreases |events|
  {
    if Satisfied(c) || events == [] || events[0].ContextDone? {
    } else {
      assert events[0].ErrorArrived? ==> |Failures([events[0].err])| == if events[0].err.Some? then 1 else 0;
      OneCancelPerError(Receive(c, events[0], hasCancel), events[1..], hasCancel);
    }
  }

  function ErrorsIn<V>(events: seq<Event<V>>): nat {
    if events == [] then 0 else (if events[0].ErrorArrived? then 1 else 0) + ErrorsIn(events[1..])
  }

  /** The loop has no verdict, or one it owes to its context. */
  predicate WaitsForContext<V>(verdict: Verdict<V>) {
    verdict.StillWaiting?
    || (verdict.Rejected? && verdict.failures != [] && verdict.failures[|verdict.failures| - 1] == TimedOut)
  }

  /** When fewer errors arrive than the channel has room for, the loop can end only by its context. */
  lemma {:induction false} MissingSendersWait<V>(c: Collector<V>, events: seq<Event<V>>, hasCancel: bool)
    requires ErrorsIn(events) < c.errorsLeft
    ensures WaitsForContext(Judge(c, events, hasCancel))
    decreases |events|
  {
    if events == [] || events[0].ContextDone? {
    } else {
      MissingSendersWait(Receive(c, events[0], hasCancel), events[1..], hasCancel);
    }
  }

  function Conclude<V>(c: Collector<V>): Verdict<V> {
    if c.failures == [] then Accepted(c.values) else Rejected(c.failures)
  }

  function Failures(errs: seq<Option<int>>): seq<Failure> {
    if errs == [] then []
    else (if errs[0].Some? then [Reported(errs[0].value)] else []) + Failures(errs[1..])
  }

  // ------------------------------------------------------------------ what the events say

  function ErrorsArrived<V>(events: seq<Event<V>>): seq<Event<V>> {
    Filter(events, (e: Event<V>) => e.ErrorArrived?)
  }

  function FailuresArrived<V>(events: seq<Event<V>>): seq<Event<V>> {
    Filter(events, (e: Event<V>) => e.ErrorArrived? && e.err.Some?)
  }

  function ValuesArrived<V>(events: seq<Event<V>>): seq<Event<V>> {
    Filter(events, (e: Event<V>) => e.ValueArrived?)
  }

  /** As many errors and values have arrived as there is room for. */
  predicate Complete<V>(capErrors: nat, capValues: nat, events: seq<Event<V>>) {
    |ErrorsArrived(events)| >= capErrors && |ValuesArrived(events)| >= capValues
  }

  /** Something is missing, and the context has not been found done. */
  ghost predicate Open<V>(capErrors: nat, capValues: nat, events: seq<Event<V>>) {
    ContextDone !in events && !Complete(capErrors, capValues, events)
  }

  /** `failures` starts with the non-nil errors among the events, in order of arrival. */
  predicate StartsWithErrors<V>(failures: seq<Failure>, events: seq<Event<V>>) {
    var arrived := FailuresArrived(events);
    && |arrived| <= |failures|
    && forall i :: 0 <= i < |arrived| ==>
         failures[i].Reported? && arrived[i] == ErrorArrived(Some(failures[i].err))
  }

  /** `values` are the values among the events, in order of arrival. */
  ghost predicate AreTheValues<V>(values: seq<V>, events: seq<Event<V>>) {
    var arrived := ValuesArrived(events);
    |arrived| == |values| && forall i :: 0 <= i < |arrived| ==> arrived[i] == ValueArrived(values[i])
  }

  /** What the verdict says about the events received. */
  ghost predicate Reflects<V>(verdict: Verdict<V>, events: seq<Event<V>>) {
    match verdict
    case Accepted(values) =>
      FailuresArrived(events) == [] && AreTheValues(values, events) && ContextDone !in events
    case Rejected(failures) =>
      // the errors that arrived and, exactly if the context was found done, a final timeout
      && StartsWithErrors(failures, events)
      && |failures| == |FailuresArrived(events)| + (if ContextDone in events then 1 else 0)
      && (ContextDone in events ==> failures[|failures| - 1] == TimedOut)
      && failures != []
    case StillWaiting => ContextDone !in events
    case BadCapacities => false
  }

  /** The collector counts and keeps what the events bring. */
  ghost predicate Tallies<V>(c: Collector<V>, capErrors: nat, capValues: nat, hasCancel: bool, events: seq<Event<V>>) {
    && c.errorsLeft == capErrors - |ErrorsArrived(events)|
    && c.valuesLeft == capValues - |ValuesArrived(events)|
    && StartsWithErrors(c.failures, events) && |c.failures| == |FailuresArrived(events)|
    && AreTheValues(c.values, events)
    && c.cancels == (if hasCancel then |FailuresArrived(events)| else 0)
    && ContextDone !in events
  }

  lemma ArrivedSnoc<V>(events: seq<Event<V>>, e: Event<V>)
    ensures ErrorsArrived(events + [e]) == ErrorsArrived(events) + (if e.ErrorArrived? then [e] else [])
    ensures FailuresArrived(events + [e])
         == FailuresArrived(events) + (if e.ErrorArrived? && e.err.Some? then [e] else [])
    ensures ValuesArrived(events + [e]) == ValuesArrived(events) + (if e.ValueArrived? then [e] else [])
  {
    FilterSnoc(events, e, (e: Event<V>) => e.ErrorArrived?);
    FilterSnoc(events, e, (e: Event<V>) => e.ErrorArrived? && e.err.Some?);
    FilterSnoc(events, e, (e: Event<V>) => e.ValueArrived?);
  }

  lemma ReceiveTallies<V>(c: Collector<V>, capErrors: nat, capValues: nat, hasCancel: bool, events: seq<Event<V>>,
                          e: Event<V>)
    requires Tallies(c, capErrors, capValues, hasCancel, events) && !e.ContextDone?
    ensures Tallies(Receive(c, e, hasCancel), capErrors, capValues, hasCancel, events + [e])
  {
    ArrivedSnoc(events, e);
    if e.ErrorArrived? {
      assert Failures([e.err]) == if e.err.Some? then [Reported(e.err.value)] else [];
    }
  }

  lemma ReceiveMeans<V>(c: Collector<V>, e: Event<V>, hasCancel: bool)
    requires !e.ContextDone?
    ensures e.ErrorArrived? && e.err.Some? ==>
      Receive(c, e, hasCancel) == Collector(c.errorsLeft - 1, c.valuesLeft, c.failures + [Reported(e.err.value)],
                                            c.values, c.cancels + (if hasCancel then 1 else 0))
    ensures e.ErrorArrived? && e.err.None? ==> Receive(c, e, hasCancel) == c.(errorsLeft := c.errorsLeft - 1)
    ensures e.ValueArrived? ==>
      Receive(c, e, hasCancel) == c.(valuesLeft := c.valuesLeft - 1, values := c.values + [e.value])
  {
    if e.ErrorArrived? {
      assert Failures([e.err]) == if e.err.Some? then [Reported(e.err.value)] else [];
      assert c.failures + [] == c.failures;
    }
  }

  lemma TimeoutReflects<V>(c: Collector<V>, capErrors: nat, capValues: nat, hasCancel: bool, events: seq<Event<V>>)
    requires Tallies(c, capErrors, capValues, hasCancel, events)
    ensures Reflects(Rejected(c.failures + [TimedOut]), events + [ContextDone])
    ensures c.cancels == (if hasCancel then |FailuresArrived(events + [ContextDone])| else 0)
  {
    ArrivedSnoc(events, ContextDone);
    assert (events + [ContextDone])[|events|] == ContextDone;
  }

  lemma ConclusionReflects<V>(c: Collector<V>, capErrors: nat, capValues: nat, hasCancel: bool, events: seq<Event<V>>)
    requires Tallies(c, capErrors, capValues, hasCancel, events)
    ensures Reflects(Conclude(c), events)
  {
  }

  /** How many of the events are received. */
  function Turns<V>(c: Collector<V>, events: seq<Event<V>>, hasCancel: bool): (n: nat)
    ensures n <= |events|
    decreases |events|
  {
    if Satisfied(c) || events == [] then 0
    else if events[0].ContextDone? then 1
    else 1 + Turns(Receive(c, events[0], hasCancel), events[1..], hasCancel)
  }

  /** What the call promises when it receives exactly `received`. */
  ghost predicate Ends<V>(capErrors: nat, capValues: nat, hasCancel: bool, received: seq<Event<V>>,
                          verdict: Verdict<V>, cancels: nat) {
    && Reflects(verdict, received)
    // it ends with the context or with the last error and value
    && (verdict.StillWaiting? <==> Open(capErrors, capValues, received))
    && cancels == (if hasCancel then |FailuresArrived(received)| else 0)
  }

  lemma {:induction false} JudgeReflects<V>(c: Collector<V>, capErrors: nat, capValues: nat, hasCancel: bool,
                                            before: seq<Event<V>>, events: seq<Event<V>>)
    requires Tallies(c, capErrors, capValues, hasCancel, before)
    ensures var n := Turns(c, events, hasCancel);
      && Ends(capErrors, capValues, hasCancel, before + events[..n], Judge(c, events, hasCancel),
              Final(c, events, hasCancel).cancels)
      && (Judge(c, events, hasCancel).StillWaiting? ==> n == |events|)
      // and not before
      && forall k :: 0 <= k < n ==> Open(capErrors, capValues, before + events[..k])
    decreases |events|
  {
    assert before + events[..0] == before;
    if Satisfied(c) {
      ConclusionReflects(c, capErrors, capValues, hasCancel, before);
    } else if events == [] {
    } else if events[0].ContextDone? {
      TimeoutReflects(c, capErrors, capValues, hasCancel, before);
      assert events[..1] == [ContextDone];
      assert (before + [ContextDone])[|before|] == ContextDone;
    } else {
      ReceiveTallies(c, capErrors, capValues, hasCancel, before, events[0]);
      var next := Receive(c, events[0], hasCancel);
      JudgeReflects(next, capErrors, capValues, hasCancel, before + [events[0]], events[1..]);
      OneMore(before, events, Turns(next, events[1..], hasCancel));
      forall k | 0 <= k < Turns(c, events, hasCancel) ensures Open(capErrors, capValues, before + events[..k]) {
        if k > 0 {
          OneMore(before, events, k - 1);
        }
      }
    }
  }

  lemma OneMore<T>(before: seq<T>, events: seq<T>, n: nat)
    requires events != [] && n <= |events[1..]|
    ensures before + events[..n + 1] == (before + [events[0]]) + events[1..][..n]
  {
  }

  /** The loop of Collect, driven by the events its select statement sees; it receives the first `turns` of them. */
  method Collect<V>(capErrors: nat, capValues: nat, hasCancel: bool, events: seq<Event<V>>)
    returns (verdict: Verdict<V>, cancels: nat, turns: nat)
    ensures capValues != 0 && capErrors != capValues ==> verdict == BadCapacities && cancels == 0 && turns == 0
    ensures turns <= |events|
    ensures capValues == 0 || capErrors == capValues ==>
      && Ends(capErrors, capValues, hasCancel, events[..turns], verdict, cancels)
      && (verdict.StillWaiting? ==> turns == |events|)
      && forall k :: 0 <= k < turns ==> Open(capErrors, capValues, events[..k])
    ensures capValues == 0 || capErrors == capValues ==>
      && verdict == Judge(Collector(capErrors, capValues, [], [], 0), events, hasCancel)
      && cancels == Final(Collector(capErrors, capValues, [], [], 0), events, hasCancel).cancels
  {
    var failures: seq<Failure> := [];
    var values: seq<V> := [];
    var errorsLeft: int, valuesLeft: int := capErrors, capValues;
    cancels, turns := 0, 0;
    if valuesLeft != 0 && errorsLeft != valuesLeft {
      return BadCapacities, 0, 0;
    }
    ghost var start := Collector(capErrors, capValues, [], [], 0);
    ghost var c := start;
    StartReflects(start, capErrors, capValues, hasCancel, events);
    while errorsLeft > 0 || valuesLeft > 0
      invariant turns <= |events|
      invariant c == Collector(errorsLeft, valuesLeft, failures, values, cancels)
      invariant Judge(start, events, hasCancel) == Judge(c, events[turns..], hasCancel)
      invariant Final(start, events, hasCancel) == Final(c, events[turns..], hasCancel)
      invariant Turns(start, events, hasCancel) == turns + Turns(c, events[turns..], hasCancel)
      decreases |events| - turns
    {
      if turns == |events| {
        return StillWaiting, cancels, turns;
      }
      assert events[turns..][0] == events[turns] && events[turns..][1..] == events[turns + 1..];
      match events[turns] {
        case ContextDone =>
          failures := failures + [TimedOut];
          turns := turns + 1;
          return Rejected(failures), cancels, turns;
        case ErrorArrived(err) =>
          errorsLeft := errorsLeft - 1;
          if err.Some? {
            failures := failures + [Reported(err.value)];
            if hasCancel {
              cancels := cancels + 1;
            }
          }
        case ValueArrived(value) =>
          valuesLeft := valuesLeft - 1;
          values := values + [value];
      }
      ReceiveMeans(c, events[turns], hasCancel);
      c := Receive(c, events[turns], hasCancel);
      turns := turns + 1;
    }
    verdict := if failures == [] then Accepted(values) else Rejected(failures);
  }

  lemma StartReflects<V>(start: Collector<V>, capErrors: nat, capValues: nat, hasCancel: bool, events: seq<Event<V>>)
    requires start == Collector(capErrors, capValues, [], [], 0)
    ensures var n := Turns(start, events, hasCancel);
      && Ends(capErrors, capValues, hasCancel, events[..n], Judge(start, events, hasCancel),
              Final(start, events, hasCancel).cancels)
      && (Judge(start, events, hasCancel).StillWaiting? ==> n == |events|)
      && forall k :: 0 <= k < n ==> Open(capErrors, capValues, events[..k])
  {
    JudgeReflects(start, capErrors, capValues, hasCancel, [], events);
    assert forall k :: 0 <= k <= |events| ==> [] + events[..k] == events[..k];
  }

  // ------------------------------------------------------------------ the whole protocol

  datatype Setup<V> = Setup(work: seq<Work<V>>, withValues: bool, valueFirst: bool, hasCancel: bool)

  /** `errorLog` and `valueLog` list the processes in the order they sent; `events` is what Collect received. */
  datatype State<V> = State(
    errors: seq<Option<int>>,
    values: seq<V>,
    contextDone: bool,
    collector: Collector<V>,
    verdict: Verdict<V>,
    errorLog: seq<nat>,
    valueLog: seq<nat>,
    expired: bool,
    events: seq<Event<V>>)

  function Start<V>(setup: Setup<V>): Collector<V> {
    Collector(|setup.work|, if setup.withValues then |setup.work| else 0, [], [], 0)
  }

  function Init<V>(setup: Setup<V>): State<V> {
    State([], [], false, Start(setup), StillWaiting, [], [], false, [])
  }

  datatype Action =
    | SendError(id: nat)
    | SendValue(id: nat)
    | Expire             // the surrounding context times out or is cancelled from outside
    | TakeDone
    | TakeError
    | TakeValue
    | LeaveLoop

  /** Process `id` stands at its send of an error. */
  predicate AtErrorSend<V>(setup: Setup<V>, s: State<V>, id: nat) {
    && id < |setup.work| && id !in s.errorLog
    && (setup.withValues && setup.valueFirst ==> id in s.valueLog)
  }

  predicate AtValueSend<V>(setup: Setup<V>, s: State<V>, id: nat) {
    && setup.withValues && id < |setup.work| && id !in s.valueLog
    && (!setup.valueFirst ==> id in s.errorLog)
  }

  predicate Enabled<V>(setup: Setup<V>, s: State<V>, a: Action) {
    match a
    case SendError(id) => AtErrorSend(setup, s, id) && |s.errors| < |setup.work|
    case SendValue(id) => AtValueSend(setup, s, id) && |s.values| < |setup.work|
    case Expire => !s.contextDone
    case TakeDone => s.verdict.StillWaiting? && !Satisfied(s.collector) && s.contextDone
    case TakeError => s.verdict.StillWaiting? && !Satisfied(s.collector) && s.errors != []
    case TakeValue => s.verdict.StillWaiting? && !Satisfied(s.collector) && s.values != []
    case LeaveLoop => s.verdict.StillWaiting? && Satisfied(s.collector)
  }

  function Apply<V>(setup: Setup<V>, s: State<V>, a: Action): State<V>
    requires Enabled(setup, s, a)
  {
    match a
    case SendError(id) => s.(errors := s.errors + [setup.work[id].err], errorLog := s.errorLog + [id])
    case SendValue(id) => s.(values := s.values + [setup.work[id].value], valueLog := s.valueLog + [id])
    case Expire => s.(contextDone := true, expired := true)
    case TakeDone =>
      s.(verdict := Rejected(s.collector.failures + [TimedOut]), events := s.events + [ContextDone])
    case TakeError =>
      var e := ErrorArrived(s.errors[0]);
      s.(errors := s.errors[1..], collector := Receive(s.collector, e, setup.hasCancel), events := s.events + [e],
         contextDone := s.contextDone || (s.errors[0].Some? && setup.hasCancel))
    case TakeValue =>
      var e := ValueArrived(s.values[0]);
      s.(values := s.values[1..], collector := Receive(s.collector, e, setup.hasCancel), events := s.events + [e])
    case LeaveLoop => s.(verdict := Conclude(s.collector))
  }

  // ------------------------------------------------------------------ conservation

  ghost predicate GoodLog(log: seq<nat>, n: nat) {
    Distinct(log) && forall i :: 0 <= i < |log| ==> log[i] < n
  }

  function Errs<V>(work: seq<Work<V>>): (r: seq<Option<int>>)
    ensures |r| == |work| && forall i :: 0 <= i < |r| ==> r[i] == work[i].err
  {
    seq(|work|, i requires 0 <= i < |work| => work[i].err)
  }

  function Values<V>(work: seq<Work<V>>): (r: seq<V>)
    ensures |r| == |work| && forall i :: 0 <= i < |r| ==> r[i] == work[i].value
  {
    seq(|work|, i requires 0 <= i < |work| => work[i].value)
  }

  /** Everything sent is either received or still buffered, each message once and in sending order. */
  ghost predicate Conserved<T>(payload: seq<T>, log: seq<nat>, received: int, buffer: seq<T>) {
    && GoodLog(log, |payload|)
    && 0 <= received <= |log|
    && buffer == Pick(payload, log)[received..]
  }

  /** What the first `received` sends carried. */
  ghost function Taken<T>(payload: seq<T>, log: seq<nat>, received: nat): seq<T>
    requires GoodLog(log, |payload|) && received <= |log|
  {
    Pick(payload, log)[..received]
  }

  lemma SendConserves<T>(payload: seq<T>, log: seq<nat>, received: nat, buffer: seq<T>, id: nat)
    requires Conserved(payload, log, received, buffer) && id < |payload| && id !in log
    ensures Conserved(payload, log + [id], received, buffer + [payload[id]])
    ensures Taken(payload, log + [id], received) == Taken(payload, log, received)
  {
    assert Pick(payload, log + [id]) == Pick(payload, log) + [payload[id]];
  }

  lemma TakeConserves<T>(payload: seq<T>, log: seq<nat>, received: nat, buffer: seq<T>)
    requires Conserved(payload, log, received, buffer) && buffer != []
    ensures Conserved(payload, log, received + 1, buffer[1..])
    ensures Taken(payload, log, received + 1) == Taken(payload, log, received) + [buffer[0]]
  {
  }

  function ErrorsReceived<V>(setup: Setup<V>, s: State<V>): int {
    |setup.work| - s.collector.errorsLeft
  }

  function ValuesReceived<V>(setup: Setup<V>, s: State<V>): int {
    (if setup.withValues then |setup.work| else 0) - s.collector.valuesLeft
  }

  ghost predicate ErrorsInv<V>(setup: Setup<V>, s: State<V>) {
    && Conserved(Errs(setup.work), s.errorLog, ErrorsReceived(setup, s), s.errors)
    && s.collector.failures == Failures(Taken(Errs(setup.work), s.errorLog, ErrorsReceived(setup, s)))
  }

  ghost predicate ValuesInv<V>(setup: Setup<V>, s: State<V>) {
    && Conserved(Values(setup.work), s.valueLog, ValuesReceived(setup, s), s.values)
    && s.collector.values == Taken(Values(setup.work), s.valueLog, ValuesReceived(setup, s))
    && (!setup.withValues ==> s.valueLog == [])
  }

  ghost predicate CancelInv<V>(setup: Setup<V>, s: State<V>) {
    && (s.collector.cancels > 0 ==> s.collector.failures != [])
    && (s.contextDone ==> s.expired || s.collector.cancels > 0)
    && (s.verdict.Accepted? ==>
          Satisfied(s.collector) && s.collector.failures == [] && s.verdict.values == s.collector.values)
    && (s.verdict.Rejected? ==> s.collector.failures != [] || s.expired)
    && (s.verdict.Rejected? && TimedOut !in s.verdict.failures ==>
          Satisfied(s.collector) && s.verdict.failures == s.collector.failures)
    && !s.verdict.BadCapacities?
  }

  ghost predicate Inv<V>(setup: Setup<V>, s: State<V>) {
    ErrorsInv(setup, s) && ValuesInv(setup, s) && CancelInv(setup, s)
  }

  lemma {:induction false} FailuresConcat(a: seq<Option<int>>, b: seq<Option<int>>)
    ensures Failures(a + b) == Failures(a) + Failures(b)
  {
    if a == [] {
      assert a + b == b;
    } else {
      FailuresConcat(a[1..], b);
      TailOfConcat(a, b);
      FailuresCons(a + b, a[1..] + b);
      FailuresCons(a, a[1..]);
    }
  }

  lemma FailuresCons(errs: seq<Option<int>>, rest: seq<Option<int>>)
    requires errs != [] && errs[1..] == rest
    ensures Failures(errs) == (if errs[0].Some? then [Reported(errs[0].value)] else []) + Failures(rest)
  {
  }

  lemma {:induction false} FailuresNil(errs: seq<Option<int>>)
    ensures Failures(errs) == [] <==> forall i :: 0 <= i < |errs| ==> errs[i] == None
    ensures TimedOut !in Failures(errs)
  {
    if errs == [] {
    } else {
      FailuresNil(errs[1..]);
      assert forall i :: 1 <= i < |errs| ==> errs[i] == errs[1..][i - 1];
      if Failures(errs) == [] {
        assert errs[0] == None;
      }
    }
  }

  lemma ErrorsStep<V>(setup: Setup<V>, s: State<V>, a: Action)
    requires ErrorsInv(setup, s) && Enabled(setup, s, a)
    ensures ErrorsInv(setup, Apply(setup, s, a))
  {
    var payload, received := Errs(setup.work), ErrorsReceived(setup, s);
    if a.SendError? {
      SendConserves(payload, s.errorLog, received, s.errors, a.id);
    } else if a.TakeError? {
      TakeConserves(payload, s.errorLog, received, s.errors);
      FailuresConcat(Taken(payload, s.errorLog, received), [s.errors[0]]);
    }
  }

  lemma ValuesStep<V>(setup: Setup<V>, s: State<V>, a: Action)
    requires ValuesInv(setup, s) && Enabled(setup, s, a)
    ensures ValuesInv(setup, Apply(setup, s, a))
  {
    var payload, received := Values(setup.work), ValuesReceived(setup, s);
    if a.SendValue? {
      SendConserves(payload, s.valueLog, received, s.values, a.id);
    } else if a.TakeValue? {
      TakeConserves(payload, s.valueLog, received, s.values);
    }
  }

  lemma CancelStep<V>(setup: Setup<V>, s: State<V>, a: Action)
    requires CancelInv(setup, s) && ErrorsInv(setup, s) && Enabled(setup, s, a)
    ensures CancelInv(setup, Apply(setup, s, a))
  {
    if a.TakeDone? {
      assert (s.collector.failures + [TimedOut])[|s.collector.failures|] == TimedOut;
    }
  }

  // ------------------------------------------------------------------ nobody blocks, every run ends

  lemma RoomInLog(log: seq<nat>, n: nat, id: nat)
    requires GoodLog(log, n) && id < n && id !in log
    ensures |log| < n
  {
    Pigeonhole(log + [id], n);
  }

  /** A process that wants to send finds room: the channels never fill up, even after Collect has returned. */
  lemma NoSenderBlocks<V>(setup: Setup<V>, s: State<V>, id: nat)
    requires Inv(setup, s)
    ensures AtErrorSend(setup, s, id) ==> Enabled(setup, s, SendError(id))
    ensures AtValueSend(setup, s, id) ==> Enabled(setup, s, SendValue(id))
  {
    if AtErrorSend(setup, s, id) {
      RoomInLog(s.errorLog, |setup.work|, id);
    }
    if AtValueSend(setup, s, id) {
      RoomInLog(s.valueLog, |setup.work|, id);
    }
  }

  /** Until Collect has returned some step is possible: a sender's, or the loop's own. */
  lemma Progress<V>(setup: Setup<V>, s: State<V>) returns (a: Action)
    requires Inv(setup, s) && s.verdict.StillWaiting?
    ensures Enabled(setup, s, a) && a != Expire
  {
    if Satisfied(s.collector) {
      a := LeaveLoop;
    } else if s.errors != [] {
      a := TakeError;
    } else if s.values != [] {
      a := TakeValue;
    } else {
      assert |s.errorLog| == ErrorsReceived(setup, s) && |s.valueLog| == ValuesReceived(setup, s);
      var id: nat;
      if s.collector.errorsLeft > 0 {
        id := Missing(s.errorLog, |setup.work|);
        a := if AtErrorSend(setup, s, id) then SendError(id) else SendValue(id);
      } else {
        id := Missing(s.valueLog, |setup.work|);
        a := if AtValueSend(setup, s, id) then SendValue(id) else SendError(id);
      }
      NoSenderBlocks(setup, s, id);
    }
  }

  function Rank<V>(setup: Setup<V>, s: State<V>): int {
    2 * (|setup.work| - |s.errorLog|) + 2 * (|setup.work| - |s.valueLog|) + |s.errors| + |s.values|
    + (if s.contextDone then 0 else 1) + (if s.verdict.StillWaiting? then 1 else 0)
  }

  lemma RankDescends<V>(setup: Setup<V>, s: State<V>, a: Action)
    requires Enabled(setup, s, a)
    ensures Rank(setup, Apply(setup, s, a)) < Rank(setup, s)
  {
  }

  lemma RankNonNegative<V>(setup: Setup<V>, s: State<V>)
    requires Inv(setup, s)
    ensures 0 <= Rank(setup, s)
  {
    Pigeonhole(s.errorLog, |setup.work|);
    Pigeonhole(s.valueLog, |setup.work|);
  }

  // ------------------------------------------------------------------ whole runs

  function Run<V>(setup: Setup<V>, s: State<V>, actions: seq<Action>): Option<State<V>>
    decreases |actions|
  {
    if actions == [] then Some(s)
    else if Enabled(setup, s, actions[0]) then Run(setup, Apply(setup, s, actions[0]), actions[1..])
    else None
  }

  ghost predicate Reachable<V>(setup: Setup<V>, actions: seq<Action>, s: State<V>) {
    Run(setup, Init(setup), actions) == Some(s)
  }

  lemma {:induction false} RunInv<V>(setup: Setup<V>, s: State<V>, actions: seq<Action>)
    requires Inv(setup, s) && Run(setup, s, actions).Some?
    ensures Inv(setup, Run(setup, s, actions).value)
    ensures |actions| + Rank(setup, Run(setup, s, actions).value) <= Rank(setup, s)
    decreases |actions|
  {
    if actions == [] {
    } else {
      ErrorsStep(setup, s, actions[0]);
      ValuesStep(setup, s, actions[0]);
      CancelStep(setup, s, actions[0]);
      RankDescends(setup, s, actions[0]);
      RunInv(setup, Apply(setup, s, actions[0]), actions[1..]);
    }
  }

  lemma InitInv<V>(setup: Setup<V>)
    ensures Inv(setup, Init(setup))
  {
    NothingSent(Errs(setup.work));
    NothingSent(Values(setup.work));
  }

  lemma NothingSent<T>(payload: seq<T>)
    ensures Conserved(payload, [], 0, []) && Taken(payload, [], 0) == []
  {
  }

  lemma ReachableInv<V>(setup: Setup<V>, actions: seq<Action>, s: State<V>)
    requires Reachable(setup, actions, s)
    ensures Inv(setup, s)
    ensures |actions| <= 4 * |setup.work| + 2
  {
    InitInv(setup);
    RunInv(setup, Init(setup), actions);
    RankNonNegative(setup, s);
  }

  /** The context is cancelled by Collect only after it has received a non-nil error. */
  lemma CancelNeedsAnError<V>(setup: Setup<V>, actions: seq<Action>, s: State<V>)
    requires Reachable(setup, actions, s) && s.collector.cancels > 0
    ensures exists i :: 0 <= i < |setup.work| && setup.work[i].err.Some?
  {
    ReachableInv(setup, actions, s);
    var errs := Taken(Errs(setup.work), s.errorLog, ErrorsReceived(setup, s));
    FailuresNil(errs);
    var k :| 0 <= k < |errs| && errs[k] != None;
    assert setup.work[s.errorLog[k]].err == errs[k];
  }

  /** A nil error means every process succeeded, and the values are exactly those produced, in some order. */
  lemma AcceptedMeansAllSucceeded<V>(setup: Setup<V>, actions: seq<Action>, s: State<V>)
    requires Reachable(setup, actions, s) && s.verdict.Accepted?
    ensures forall i :: 0 <= i < |setup.work| ==> setup.work[i].err == None
    ensures setup.withValues ==> multiset(s.verdict.values) == multiset(Values(setup.work))
    ensures !setup.withValues ==> s.verdict.values == []
  {
    ReachableInv(setup, actions, s);
    assert CancelInv(setup, s);
    AllErrorsReceived(setup, s);
    FailuresNil(Pick(Errs(setup.work), s.errorLog));
    forall i | 0 <= i < |setup.work| ensures setup.work[i].err == None {
      var k := PositionOf(s.errorLog, |setup.work|, i);
      assert Pick(Errs(setup.work), s.errorLog)[k] == setup.work[i].err;
    }
    if setup.withValues {
      AllValuesReceived(setup, s);
    }
  }

  lemma AllValuesReceived<V>(setup: Setup<V>, s: State<V>)
    requires ValuesInv(setup, s) && setup.withValues && s.collector.valuesLeft <= 0
    ensures multiset(s.collector.values) == multiset(Values(setup.work))
  {
    Pigeonhole(s.valueLog, |setup.work|);
    var all := Pick(Values(setup.work), s.valueLog);
    assert all[..|all|] == all;
    PickIsPermutation(Values(setup.work), s.valueLog);
  }

  lemma AllErrorsReceived<V>(setup: Setup<V>, s: State<V>)
    requires ErrorsInv(setup, s) && s.collector.errorsLeft <= 0
    ensures |s.errorLog| == |setup.work|
    ensures s.collector.failures == Failures(Pick(Errs(setup.work), s.errorLog))
  {
    Pigeonhole(s.errorLog, |setup.work|);
    var all := Pick(Errs(setup.work), s.errorLog);
    assert all[..|all|] == all;
  }

  lemma PositionOf(log: seq<nat>, n: nat, i: nat) returns (k: nat)
    requires GoodLog(log, n) && |log| == n && i < n
    ensures k < |log| && log[k] == i
  {
    if i !in log {
      RoomInLog(log, n, i);
    }
    k :| k < |log| && log[k] == i;
  }

  /** A verdict other than acceptance has a cause: a failed process or an expired context.  Without a timeout
      among the failures it lists every failure that was sent, each once. */
  lemma RejectedHasACause<V>(setup: Setup<V>, actions: seq<Action>, s: State<V>)
    requires Reachable(setup, actions, s) && s.verdict.Rejected?
    ensures s.expired || exists i :: 0 <= i < |setup.work| && setup.work[i].err.Some?
    ensures TimedOut !in s.verdict.failures ==>
      multiset(s.verdict.failures) == multiset(Failures(Errs(setup.work)))
  {
    ReachableInv(setup, actions, s);
    if !s.expired {
      var errs := Taken(Errs(setup.work), s.errorLog, ErrorsReceived(setup, s));
      FailuresNil(errs);
      var k :| 0 <= k < |errs| && errs[k] != None;
      assert setup.work[s.errorLog[k]].err == errs[k];
    }
    if TimedOut !in s.verdict.failures {
      AllErrorsReceived(setup, s);
      PickIsPermutation(Errs(setup.work), s.errorLog);
      FailuresOfPermutation(Pick(Errs(setup.work), s.errorLog), Errs(setup.work));
    }
  }

  // ------------------------------------------------------------------ the verdict and the events received

  function ValuesExpected<V>(setup: Setup<V>): nat {
    if setup.withValues then |setup.work| else 0
  }

  /** The collector, and then the verdict, say what the events say. */
  ghost predicate Faithful<V>(setup: Setup<V>, s: State<V>) {
    && s.collector.cancels == (if setup.hasCancel then |FailuresArrived(s.events)| else 0)
    && (ContextDone in s.events ==> s.contextDone)
    && if s.verdict.StillWaiting? then
         Tallies(s.collector, |setup.work|, ValuesExpected(setup), setup.hasCancel, s.events)
       else Reflects(s.verdict, s.events) && !Open(|setup.work|, ValuesExpected(setup), s.events)
  }

  /** The errors received are the first ones sent, in the order of sending. */
  ghost predicate ErrorsInOrder<V>(setup: Setup<V>, s: State<V>) {
    var errors := ErrorsArrived(s.events);
    && |errors| == ErrorsReceived(setup, s) <= |s.errorLog|
    && forall i :: 0 <= i < |errors| ==>
         s.errorLog[i] < |setup.work| && errors[i] == ErrorArrived(setup.work[s.errorLog[i]].err)
  }

  /** The same for the values. */
  ghost predicate ValuesInOrder<V>(setup: Setup<V>, s: State<V>) {
    var values := ValuesArrived(s.events);
    && |values| == ValuesReceived(setup, s) <= |s.valueLog|
    && forall i :: 0 <= i < |values| ==>
         s.valueLog[i] < |setup.work| && values[i] == ValueArrived(setup.work[s.valueLog[i]].value)
  }

  ghost predicate InSendingOrder<V>(setup: Setup<V>, s: State<V>) {
    ErrorsInOrder(setup, s) && ValuesInOrder(setup, s)
  }

  lemma FaithfulStep<V>(setup: Setup<V>, s: State<V>, a: Action)
    requires Faithful(setup, s) && Enabled(setup, s, a)
    ensures Faithful(setup, Apply(setup, s, a))
  {
    if a.TakeDone? {
      TimeoutReflects(s.collector, |setup.work|, ValuesExpected(setup), setup.hasCancel, s.events);
      assert (s.events + [ContextDone])[|s.events|] == ContextDone;
    } else if a.TakeError? {
      ReceiveTallies(s.collector, |setup.work|, ValuesExpected(setup), setup.hasCancel, s.events,
                     ErrorArrived(s.errors[0]));
    } else if a.TakeValue? {
      ReceiveTallies(s.collector, |setup.work|, ValuesExpected(setup), setup.hasCancel, s.events,
                     ValueArrived(s.values[0]));
    } else if a.LeaveLoop? {
      ConclusionReflects(s.collector, |setup.work|, ValuesExpected(setup), setup.hasCancel, s.events);
    }
  }

  /** The oldest buffered message is the first one not received yet. */
  lemma OldestBuffered<T>(payload: seq<T>, log: seq<nat>, received: nat, buffer: seq<T>)
    requires Conserved(payload, log, received, buffer) && buffer != []
    ensures received < |log| && log[received] < |payload| && buffer[0] == payload[log[received]]
  {
  }

  lemma ErrorsOrderStep<V>(setup: Setup<V>, s: State<V>, a: Action)
    requires ErrorsInOrder(setup, s) && ErrorsInv(setup, s) && Enabled(setup, s, a)
    ensures ErrorsInOrder(setup, Apply(setup, s, a))
  {
    if a.TakeDone? {
      ArrivedSnoc(s.events, ContextDone);
    } else if a.TakeError? {
      OldestBuffered(Errs(setup.work), s.errorLog, ErrorsReceived(setup, s), s.errors);
      ArrivedSnoc(s.events, ErrorArrived(s.errors[0]));
    } else if a.TakeValue? {
      ArrivedSnoc(s.events, ValueArrived(s.values[0]));
    }
  }

  lemma ValuesOrderStep<V>(setup: Setup<V>, s: State<V>, a: Action)
    requires ValuesInOrder(setup, s) && ValuesInv(setup, s) && Enabled(setup, s, a)
    ensures ValuesInOrder(setup, Apply(setup, s, a))
  {
    if a.TakeDone? {
      ArrivedSnoc(s.events, ContextDone);
    } else if a.TakeError? {
      ArrivedSnoc(s.events, ErrorArrived(s.errors[0]));
    } else if a.TakeValue? {
      OldestBuffered(Values(setup.work), s.valueLog, ValuesReceived(setup, s), s.values);
      ArrivedSnoc(s.events, ValueArrived(s.values[0]));
    }
  }

  lemma {:induction false} RunIsFaithful<V>(setup: Setup<V>, s: State<V>, actions: seq<Action>)
    requires Inv(setup, s) && Faithful(setup, s) && InSendingOrder(setup, s) && Run(setup, s, actions).Some?
    ensures Faithful(setup, Run(setup, s, actions).value) && InSendingOrder(setup, Run(setup, s, actions).value)
    decreases |actions|
  {
    if actions == [] {
    } else {
      ErrorsStep(setup, s, actions[0]);
      ValuesStep(setup, s, actions[0]);
      CancelStep(setup, s, actions[0]);
      FaithfulStep(setup, s, actions[0]);
      ErrorsOrderStep(setup, s, actions[0]);
      ValuesOrderStep(setup, s, actions[0]);
      RunIsFaithful(setup, Apply(setup, s, actions[0]), actions[1..]);
    }
  }

  lemma InitIsFaithful<V>(setup: Setup<V>, s: State<V>)
    requires s == Init(setup)
    ensures Faithful(setup, s) && InSendingOrder(setup, s)
  {
  }

  lemma ReachableIsFaithful<V>(setup: Setup<V>, actions: seq<Action>, s: State<V>)
    requires Reachable(setup, actions, s)
    ensures Faithful(setup, s) && InSendingOrder(setup, s)
  {
    InitInv(setup);
    InitIsFaithful(setup, Init(setup));
    RunIsFaithful(setup, Init(setup), actions);
  }

  /** In every reachable state the verdict says what the events received say: a rejection lists the non-nil errors
      among them in order of arrival and, exactly if the context was found done, a final timeout.  The events are what
      the processes sent, in the order of sending, and cancel was called once for each of the errors. */
  lemma VerdictReflectsEvents<V>(setup: Setup<V>, actions: seq<Action>, s: State<V>)
    requires Reachable(setup, actions, s)
    ensures Reflects(s.verdict, s.events)
    ensures !s.verdict.StillWaiting? ==> !Open(|setup.work|, ValuesExpected(setup), s.events)
    ensures InSendingOrder(setup, s)
    ensures ContextDone in s.events ==> s.contextDone
    ensures s.collector.cancels == (if setup.hasCancel then |FailuresArrived(s.events)| else 0)
  {
    ReachableIsFaithful(setup, actions, s);
  }

  lemma OpenIsUnsatisfied<V>(c: Collector<V>, capErrors: nat, capValues: nat, hasCancel: bool, events: seq<Event<V>>)
    requires Tallies(c, capErrors, capValues, hasCancel, events) && Open(capErrors, capValues, events)
    ensures !Satisfied(c)
  {
  }

  /** The context may end at any time, and once it has, a loop that misses something may end by it at once. */
  lemma ContextMayEndTheLoop<V>(setup: Setup<V>, actions: seq<Action>, s: State<V>)
    requires Reachable(setup, actions, s) && s.verdict.StillWaiting?
    requires Open(|setup.work|, ValuesExpected(setup), s.events)
    ensures Enabled(setup, s, if s.contextDone then TakeDone else Expire)
  {
    ReachableIsFaithful(setup, actions, s);
    ContextIsSeen(setup, s);
  }

  lemma ContextIsSeen<V>(setup: Setup<V>, s: State<V>)
    requires Faithful(setup, s) && s.verdict.StillWaiting? && Open(|setup.work|, ValuesExpected(setup), s.events)
    ensures Enabled(setup, s, if s.contextDone then TakeDone else Expire)
  {
    OpenIsUnsatisfied(s.collector, |setup.work|, ValuesExpected(setup), setup.hasCancel, s.events);
  }

  lemma FailuresWithout(errs: seq<Option<int>>, k: nat)
    requires k < |errs|
    ensures multiset(Failures(errs)) == multiset(Failures(Without(errs, k))) + multiset(Failures([errs[k]]))
  {
    AroundPosition(errs, k);
    FailuresMiddle(errs, Without(errs, k), errs[..k], [errs[k]], errs[k + 1..]);
  }

  lemma FailuresMiddle(whole: seq<Option<int>>, rest: seq<Option<int>>,
                       a: seq<Option<int>>, b: seq<Option<int>>, c: seq<Option<int>>)
    requires whole == a + b + c && rest == a + c
    ensures multiset(Failures(whole)) == multiset(Failures(rest)) + multiset(Failures(b))
  {
    FailuresConcat(a + b, c);
    FailuresConcat(a, b);
    FailuresConcat(a, c);
    WithoutMiddle(Failures(a), Failures(b), Failures(c));
  }

  lemma WithoutMiddle<T>(a: seq<T>, b: seq<T>, c: seq<T>)
    ensures multiset(a + b + c) == multiset(a + c) + multiset(b)
  {
  }

  lemma {:induction false} FailuresOfPermutation(a: seq<Option<int>>, b: seq<Option<int>>)
    requires multiset(a) == multiset(b)
    ensures multiset(Failures(a)) == multiset(Failures(b))
  {
    assert |multiset(a)| == |a| && |multiset(b)| == |b|;
    if a == [] {
    } else {
      assert a[0] in multiset(b);
      var k :| 0 <= k < |b| && b[k] == a[0];
      MultisetWithout(a, 0);
      MultisetWithout(b, k);
      assert multiset(Without(a, 0)) == multiset(a) - multiset{a[0]} == multiset(Without(b, k));
      FailuresOfPermutation(Without(a, 0), Without(b, k));
      FailuresWithout(a, 0);
      FailuresWithout(b, k);
    }
  }

  /** The collector inside the protocol is the loop above: it reaches the verdict the loop reaches on the
      events it received. */
  lemma {:induction false} ProtocolRunsCollect<V>(setup: Setup<V>, s: State<V>, actions: seq<Action>, t: State<V>)
    requires Run(setup, s, actions) == Some(t) && !t.verdict.StillWaiting?
    ensures s.events <= t.events
    ensures s.verdict.StillWaiting? ==> t.verdict == Judge(s.collector, t.events[|s.events|..], setup.hasCancel)
    ensures !s.verdict.StillWaiting? ==> t.events == s.events && t.verdict == s.verdict
    decreases |actions|
  {
    if actions == [] {
    } else {
      var next := Apply(setup, s, actions[0]);
      ProtocolRunsCollect(setup, next, actions[1..], t);
      if s.verdict.StillWaiting? && |next.events| > |s.events| {
        EventTaken(s.events, next.events[|s.events|], t.events);
      }
    }
  }

  lemma EventTaken<V>(before: seq<Event<V>>, e: Event<V>, all: seq<Event<V>>)
    requires before + [e] <= all
    ensures before <= all && |before| < |all|
    ensures all[|before|..][0] == e && all[|before|..][1..] == all[|before + [e]|..]
  {
    assert (before + [e])[|before|] == e;
  }
}
