/**
 The circuit breaker (resilience/circuit_breaker.py). Protected calls run outside its lock, so their
 outcomes arrive late and in any state: every order of events is possible.
 */
module CircuitBreaker {
  import opened Wrappers

  /** Times are in microseconds. */
  datatype Config = Config(failureThreshold: int, recoveryTimeout: int, halfOpenMaxCalls: int)

  datatype Circuit = Closed | Open | HalfOpen

  datatype Breaker = Breaker(circuit: Circuit, failures: nat, successes: nat, lastFailure: Option<int>)

  /** Excluded: a call ended with an exception that does not count. */
  datatype Event = Enter(now: int) | Success | Failure(now: int) | Excluded | Reset

  const FRESH := Breaker(Closed, 0, 0, None)

  /** Whether a call that arrives now is let through. */
  predicate Admits(c: Config, b: Breaker, now: int) {
    !b.circuit.Open? || (b.lastFailure.Some? && now - b.lastFailure.value >= c.recoveryTimeout)
  }

  function After(c: Config, b: Breaker, e: Event): Breaker {
    match e
    case Enter(now) =>
      if b.circuit.Open? && Admits(c, b, now) then b.(circuit := HalfOpen, successes := 0) else b
    case Success =>
      if b.circuit.HalfOpen? then
        if b.successes + 1 >= c.halfOpenMaxCalls then b.(circuit := Closed, failures := 0, successes := 0)
        else b.(successes := b.successes + 1)
      else if b.circuit.Closed? then b.(failures := 0)
      else b
    case Failure(now) =>
      var d := b.(failures := b.failures + 1, lastFailure := Some(now));
      if b.circuit.HalfOpen? then d.(circuit := Open, successes := 0)
      else if b.circuit.Closed? && d.failures >= c.failureThreshold then d.(circuit := Open)
      else d
    case Excluded => b
    case Reset => FRESH
  }

  class CircuitBreaker {
    const config: Config
    var circuit: Circuit
    var failureCount: nat
    var successCount: nat
    var lastFailureTime: Option<int>

    function Value(): Breaker
      reads this
    {
      Breaker(circuit, failureCount, successCount, lastFailureTime)
    }

    constructor (c: Config)
      ensures config == c && Value() == FRESH
    {
      config, circuit, failureCount, successCount, lastFailureTime := c, Closed, 0, 0, None;
    }

    method CheckStateTransition(now: int)
      modifies this
      ensures Value() == After(config, old(Value()), Event.Enter(now))
    {
      if circuit == Open {
        if lastFailureTime.Some? {
          if now - lastFailureTime.value >= config.recoveryTimeout {
            circuit := HalfOpen;
            successCount := 0;
          }
        }
      }
    }

    /** The entry of a protected call: an error when the circuit stays open. */
    method Enter(now: int) returns (r: Result<(), string>)
      modifies this
      ensures Value() == After(config, old(Value()), Event.Enter(now))
      ensures r.Ok? <==> Admits(config, old(Value()), now)
    {
      CheckStateTransition(now);
      if circuit == Open {
        return Err("circuit breaker is OPEN");
      }
      r := Ok(());
    }

    method OnSuccess()
      modifies this
      ensures Value() == After(config, old(Value()), Success)
    {
      if circuit == HalfOpen {
        successCount := successCount + 1;
        if successCount >= config.halfOpenMaxCalls {
          circuit := Closed;
          failureCount := 0;
          successCount := 0;
        }
      } else if circuit == Closed {
        if failureCount > 0 {
          failureCount := 0;
        }
      }
    }

    method OnFailure(now: int)
      modifies this
      ensures Value() == After(config, old(Value()), Failure(now))
    {
      failureCount := failureCount + 1;
      lastFailureTime := Some(now);
      if circuit == HalfOpen {
        circuit := Open;
        successCount := 0;
      } else if circuit == Closed && failureCount >= config.failureThreshold {
        circuit := Open;
      }
    }

    /** The end of a protected call that was admitted. */
    method Exit(raised: bool, isExcluded: bool, now: int)
      modifies this
      ensures Value() == After(config, old(Value()),
                               if !raised then Success else if isExcluded then Excluded else Failure(now))
    {
      if !raised {
        OnSuccess();
      } else if !isExcluded {
        OnFailure(now);
      }
    }

    method Reset()
      modifies this
      ensures Value() == FRESH
    {
      circuit, failureCount, successCount, lastFailureTime := Closed, 0, 0, None;
    }
  }

  // ---------------------------------------------------------------- whole traces

  function Replay(c: Config, trace: seq<Event>): Breaker {
    if trace == [] then FRESH else After(c, Replay(c, trace[..|trace| - 1]), trace[|trace| - 1])
  }

  /** Failures recorded since the last success or reset. */
  function TrailingFailures(trace: seq<Event>): nat {
    if trace == [] then 0 else
      match trace[|trace| - 1]
      case Failure(_) => TrailingFailures(trace[..|trace| - 1]) + 1
      case Success => 0
      case Reset => 0
      case _ => TrailingFailures(trace[..|trace| - 1])
  }

  /** The time of the last failure recorded since the last reset. */
  function LastFailureTime(trace: seq<Event>): Option<int> {
    if trace == [] then None else
      match trace[|trace| - 1]
      case Failure(now) => Some(now)
      case Reset => None
      case _ => LastFailureTime(trace[..|trace| - 1])
  }

  function Successes(trace: seq<Event>): nat {
    if trace == [] then 0
    else Successes(trace[..|trace| - 1]) + (if trace[|trace| - 1].Success? then 1 else 0)
  }

  /** The call at `probe` found the circuit open and was let through; neither a failure nor a reset has
      been recorded since. */
  ghost predicate ProbeAt(c: Config, trace: seq<Event>, probe: nat) {
    && probe < |trace| && trace[probe].Enter?
    && Replay(c, trace[..probe]).circuit.Open?
    && Admits(c, Replay(c, trace[..probe]), trace[probe].now)
    && forall i :: probe < i < |trace| ==> !trace[i].Failure? && !trace[i].Reset?
  }

  /** What the breaker's fields say about the events so far, in each state. */
  ghost predicate Explained(c: Config, trace: seq<Event>, b: Breaker) {
    && b.lastFailure == LastFailureTime(trace)
    && (b.circuit.Closed? ==> b.failures == TrailingFailures(trace))
    && (b.circuit.Closed? ==> b.failures == 0 || b.failures < c.failureThreshold)
    && (!b.circuit.Closed? ==> b.failures >= c.failureThreshold && b.lastFailure.Some?)
    && (!b.circuit.HalfOpen? ==> b.successes == 0)
    && (b.circuit.HalfOpen? ==>
          exists probe: nat :: ProbeAt(c, trace, probe) && b.successes == Successes(trace[probe + 1..]))
  }

  lemma ProbeStarts(c: Config, trace: seq<Event>, now: int)
    requires Replay(c, trace).circuit.Open? && Admits(c, Replay(c, trace), now)
    ensures ProbeAt(c, trace + [Enter(now)], |trace|) && Successes((trace + [Enter(now)])[|trace| + 1..]) == 0
  {
    assert (trace + [Enter(now)])[..|trace|] == trace;
  }

  lemma ProbeContinues(c: Config, trace: seq<Event>, probe: nat, e: Event)
    requires ProbeAt(c, trace, probe) && !e.Failure? && !e.Reset?
    ensures ProbeAt(c, trace + [e], probe)
    ensures Successes((trace + [e])[probe + 1..]) == Successes(trace[probe + 1..]) + (if e.Success? then 1 else 0)
  {
    assert (trace + [e])[..probe] == trace[..probe];
    var before, since := trace[probe + 1..], (trace + [e])[probe + 1..];
    assert since == before + [e];
    assert since[..|since| - 1] == before;
  }

  /** In every reachable state the fields mean what they are for, however late the outcomes arrive: closed
      means fewer failures than the threshold since the last success, open or half-open means at least
      the threshold and a known failure time, and successes are counted from the probe on. */
  lemma {:induction false} EveryStateIsExplained(c: Config, trace: seq<Event>)
    ensures Explained(c, trace, Replay(c, trace))
    decreases |trace|
  {
    if trace != [] {
      var front, e := trace[..|trace| - 1], trace[|trace| - 1];
      EveryStateIsExplained(c, front);
      assert trace == front + [e];
      var b := Replay(c, front);
      if b.circuit.HalfOpen? && !e.Failure? && !e.Reset? {
        var probe: nat :| ProbeAt(c, front, probe) && b.successes == Successes(front[probe + 1..]);
        ProbeContinues(c, front, probe, e);
      } else if b.circuit.Open? && e.Enter? && Admits(c, b, e.now) {
        ProbeStarts(c, front, e.now);
      }
      hide ProbeAt, Successes;
    }
  }

  lemma Extend(c: Config, trace: seq<Event>, e: Event)
    ensures Replay(c, trace + [e]) == After(c, Replay(c, trace), e)
  {
    assert (trace + [e])[..|trace|] == trace;
  }

  /** A closed circuit opens exactly when the recorded event is a failure and, with those since the last
      recorded success, reaches the threshold. */
  lemma ClosedTripsExactly(c: Config, trace: seq<Event>, e: Event)
    requires Replay(c, trace).circuit.Closed?
    ensures !Replay(c, trace + [e]).circuit.Closed? <==> e.Failure? && TrailingFailures(trace) + 1 >= c.failureThreshold
    ensures !Replay(c, trace + [e]).circuit.HalfOpen?
  {
    EveryStateIsExplained(c, trace);
    Extend(c, trace, e);
  }

  /** A half-open circuit closes on an outcome exactly when it is the last of enough successes since the
      probe began, with no failure since then; any failure reopens it. */
  lemma HalfOpenClosesExactly(c: Config, trace: seq<Event>, e: Event) returns (probe: nat)
    requires Replay(c, trace).circuit.HalfOpen?
    ensures ProbeAt(c, trace, probe)
    ensures Replay(c, trace + [e]).circuit.Closed?
            <==> e.Reset? || (e.Success? && Successes(trace[probe + 1..]) + 1 >= c.halfOpenMaxCalls)
    ensures Replay(c, trace + [e]).circuit.Open? <==> e.Failure?
  {
    EveryStateIsExplained(c, trace);
    probe :| ProbeAt(c, trace, probe) && Replay(c, trace).successes == Successes(trace[probe + 1..]);
    Extend(c, trace, e);
  }

  /** A call that finds the circuit open is let through exactly when the recovery timeout has passed
      since the last recorded failure, failures that arrived after the circuit opened included. */
  lemma {:induction false} OpenAdmitsExactly(c: Config, trace: seq<Event>, now: int)
    requires Replay(c, trace).circuit.Open?
    ensures LastFailureTime(trace).Some?
    ensures Admits(c, Replay(c, trace), now) <==> now >= LastFailureTime(trace).value + c.recoveryTimeout
    ensures Replay(c, trace + [Enter(now)]).circuit == if Admits(c, Replay(c, trace), now) then HalfOpen else Open
  {
    EveryStateIsExplained(c, trace);
    Extend(c, trace, Enter(now));
  }

  /** An event that does not end the wait: not a reset, not a failure dated before `since`, not a call that
      arrives once the timeout has passed. */
  ghost predicate Early(c: Config, since: int, e: Event) {
    && !e.Reset?
    && (e.Enter? ==> e.now < since + c.recoveryTimeout)
    && (e.Failure? ==> e.now >= since)
  }

  /** An open circuit stays open through any such events, successes of calls admitted earlier included,
      and turns away every call among them. */
  lemma {:induction false} OpenStaysOpen(c: Config, trace: seq<Event>, later: seq<Event>, since: int)
    requires Replay(c, trace).circuit.Open?
    requires LastFailureTime(trace) == Some(since)
    requires forall e :: e in later ==> Early(c, since, e)
    ensures Replay(c, trace + later).circuit.Open?
    ensures LastFailureTime(trace + later).Some? && LastFailureTime(trace + later).value >= since
    ensures forall now :: now < since + c.recoveryTimeout ==> !Admits(c, Replay(c, trace + later), now)
    decreases |later|
  {
    EveryStateIsExplained(c, trace + later);
    if later == [] {
      assert trace + later == trace;
    } else {
      var front, e := later[..|later| - 1], later[|later| - 1];
      OpenStaysOpen(c, trace, front, since);
      EveryStateIsExplained(c, trace + front);
      assert trace + later == (trace + front) + [e];
      assert Early(c, since, e);
      Extend(c, trace + front, e);
    }
  }

  /** Half-open does not limit the calls under way: however many arrive before an outcome is recorded,
      all are let through. */
  lemma {:induction false} HalfOpenAdmitsAll(c: Config, trace: seq<Event>, calls: seq<Event>)
    requires Replay(c, trace).circuit.HalfOpen? && forall e :: e in calls ==> e.Enter?
    ensures Replay(c, trace + calls) == Replay(c, trace)
    ensures forall now :: Admits(c, Replay(c, trace + calls), now)
    decreases |calls|
  {
    if calls == [] {
      assert trace + calls == trace;
    } else {
      var front, e := calls[..|calls| - 1], calls[|calls| - 1];
      HalfOpenAdmitsAll(c, trace, front);
      assert trace + calls == (trace + front) + [e];
      Extend(c, trace + front, e);
    }
  }

  // ---------------------------------------------------------------- outcomes of earlier calls

  /** An event with the call it belongs to. */
  datatype CallEvent = CallEvent(call: nat, event: Event)

  predicate IsOutcome(e: Event) {
    e.Success? || e.Failure? || e.Excluded?
  }

  function Events(calls: seq<CallEvent>): seq<Event> {
    seq(|calls|, i requires 0 <= i < |calls| => calls[i].event)
  }

  /** The call arrived at j and was let through. */
  ghost predicate AdmittedAt(c: Config, calls: seq<CallEvent>, j: nat, call: nat) {
    && j < |calls| && calls[j].call == call && calls[j].event.Enter?
    && Admits(c, Replay(c, Events(calls)[..j]), calls[j].event.now)
  }

  /** No call arrives twice. */
  ghost predicate ArriveOnce(calls: seq<CallEvent>) {
    forall i, j :: 0 <= i < j < |calls| && calls[i].event.Enter? && calls[j].event.Enter? ==>
      calls[i].call != calls[j].call
  }

  /** Every call arrives once, and every outcome is the only one of a call that was let through before. */
  ghost predicate Attributed(c: Config, calls: seq<CallEvent>) {
    ArriveOnce(calls)
    && forall k :: 0 <= k < |calls| && IsOutcome(calls[k].event) ==>
      && (exists j :: 0 <= j < k && AdmittedAt(c, calls, j, calls[k].call))
      && (forall l :: 0 <= l < |calls| && l != k && IsOutcome(calls[l].event) ==> calls[l].call != calls[k].call)
  }

  /** Let through, and without an outcome so far. */
  ghost predicate InFlight(c: Config, calls: seq<CallEvent>, call: nat) {
    && (exists j :: 0 <= j < |calls| && AdmittedAt(c, calls, j, call))
    && forall k :: 0 <= k < |calls| && IsOutcome(calls[k].event) ==> calls[k].call != call
  }

  ghost predicate NothingInFlight(c: Config, calls: seq<CallEvent>) {
    forall call :: !InFlight(c, calls, call)
  }

  /** The call arrived at index `probe` or later. */
  ghost predicate ArrivedFrom(calls: seq<CallEvent>, call: nat, probe: nat) {
    exists j :: probe <= j < |calls| && calls[j].event.Enter? && calls[j].call == call
  }

  /** Successes recorded after the probe of calls that arrived with it or later. */
  ghost function OwnSuccesses(calls: seq<CallEvent>, probe: nat): nat {
    if |calls| <= probe + 1 then 0 else
      var front, last := calls[..|calls| - 1], calls[|calls| - 1];
      OwnSuccesses(front, probe) + (if last.event.Success? && ArrivedFrom(front, last.call, probe) then 1 else 0)
  }

  lemma EventsConcat(a: seq<CallEvent>, b: seq<CallEvent>)
    ensures Events(a + b) == Events(a) + Events(b)
  {
  }

  lemma EventsPrefix(a: seq<CallEvent>, b: seq<CallEvent>, k: nat)
    requires k <= |a|
    ensures Events(a + b)[..k] == Events(a)[..k] && Events(a)[..k] == Events(a[..k])
  {
  }

  lemma AdmittedInPrefix(c: Config, a: seq<CallEvent>, b: seq<CallEvent>, j: nat, call: nat)
    requires j < |a|
    ensures AdmittedAt(c, a + b, j, call) <==> AdmittedAt(c, a, j, call)
  {
    EventsPrefix(a, b, j);
    assert (a + b)[j] == a[j];
  }

  // ---------------------------------------------------------------- closing with nothing in flight

  /** After a probe the circuit does not open again without a failure. */
  lemma {:induction false} ProbeKeepsOutOfOpen(c: Config, trace: seq<Event>, probe: nat, m: nat)
    requires ProbeAt(c, trace, probe) && probe < m <= |trace|
    ensures !Replay(c, trace[..m]).circuit.Open?
    decreases m
  {
    assert trace[..m][..m - 1] == trace[..m - 1];
    if m > probe + 1 {
      ProbeKeepsOutOfOpen(c, trace, probe, m - 1);
    }
  }

  lemma {:induction false} MoreSuccessesFromEarlier(trace: seq<Event>, p: nat, q: nat)
    requires p <= q <= |trace|
    ensures Successes(trace[p..]) >= Successes(trace[q..])
    decreases |trace|
  {
    if q < |trace| {
      var front := trace[..|trace| - 1];
      assert trace[p..][..|trace| - p - 1] == front[p..] && trace[q..][..|trace| - q - 1] == front[q..];
      MoreSuccessesFromEarlier(front, p, q);
    } else {
      assert trace[q..] == [];
    }
  }

  /** With nothing in flight before index `probe`, an outcome after it is of a call that arrived there or later. */
  lemma OutcomeArrivedFrom(c: Config, calls: seq<CallEvent>, probe: nat, k: nat)
    requires Attributed(c, calls) && probe < k < |calls| && IsOutcome(calls[k].event)
    requires NothingInFlight(c, calls[..probe])
    ensures ArrivedFrom(calls[..k], calls[k].call, probe)
  {
    var call := calls[k].call;
    var j :| 0 <= j < k && AdmittedAt(c, calls, j, call);
    if j < probe {
      var before, after := calls[..probe], calls[probe..];
      assert calls == before + after;
      AdmittedInPrefix(c, before, after, j, call);
      forall i | 0 <= i < |before| && IsOutcome(before[i].event)
        ensures before[i].call != call
      {
        assert before[i] == calls[i];
      }
      assert InFlight(c, before, call);
    } else {
      assert calls[..k][j] == calls[j];
    }
  }

  lemma {:induction false} AllSuccessesAreOwn(c: Config, calls: seq<CallEvent>, probe: nat, n: nat)
    requires Attributed(c, calls) && probe < n <= |calls|
    requires NothingInFlight(c, calls[..probe])
    ensures OwnSuccesses(calls[..n], probe) == Successes(Events(calls[..n])[probe + 1..])
    decreases n
  {
    var part := calls[..n];
    var front, last := calls[..n - 1], calls[n - 1];
    PrefixSnoc(calls, n);
    hide Attributed, InFlight, ArrivedFrom, Events;
    if n > probe + 1 {
      AllSuccessesAreOwn(c, calls, probe, n - 1);
      EventsSinceSnoc(front, last, probe + 1);
      if last.event.Success? {
        OutcomeArrivedFrom(c, calls, probe, n - 1);
      }
    } else {
      assert Events(part)[probe + 1..] == [];
    }
  }

  lemma PrefixSnoc(calls: seq<CallEvent>, n: nat)
    requires 0 < n <= |calls|
    ensures calls[..n] == calls[..n - 1] + [calls[n - 1]] && calls[..n][..n - 1] == calls[..n - 1]
  {
  }

  lemma EventsSinceSnoc(calls: seq<CallEvent>, e: CallEvent, p: nat)
    requires p <= |calls|
    ensures var since := Events(calls + [e])[p..];
            since != [] && since[..|since| - 1] == Events(calls)[p..] && since[|since| - 1] == e.event
  {
  }

  /** The trace ends with the success that closes the circuit. */
  ghost predicate ClosesAtEnd(c: Config, calls: seq<CallEvent>) {
    && calls != [] && calls[|calls| - 1].event == Success
    && !Replay(c, Events(calls[..|calls| - 1])).circuit.Closed? && Replay(c, Events(calls)).circuit.Closed?
  }

  /** The call that arrives at `probe` finds the circuit open and is let through. */
  ghost predicate Probes(c: Config, calls: seq<CallEvent>, probe: nat) {
    && probe < |calls| && calls[probe].event.Enter?
    && Replay(c, Events(calls)[..probe]).circuit.Open?
    && Admits(c, Replay(c, Events(calls)[..probe]), calls[probe].event.now)
  }

  lemma SinceSnoc(trace: seq<Event>, p: nat)
    requires p <= |trace|
    ensures Successes((trace + [Success])[p..]) == Successes(trace[p..]) + 1
  {
    var since := (trace + [Success])[p..];
    assert since[..|since| - 1] == trace[p..] && since[|since| - 1] == Success;
  }

  /** A probe that found the circuit open is not later than the last one. */
  lemma LatestProbeIsLater(c: Config, trace: seq<Event>, probe: nat, latest: nat)
    requires ProbeAt(c, trace, latest) && probe < |trace| && Replay(c, trace[..probe]).circuit.Open?
    ensures probe <= latest
  {
    if latest < probe {
      ProbeKeepsOutOfOpen(c, trace, latest, probe);
    }
    hide Replay;
  }

  lemma ClosesFromHalfOpen(c: Config, trace: seq<Event>)
    requires !Replay(c, trace).circuit.Closed? && Replay(c, trace + [Success]).circuit.Closed?
    ensures Replay(c, trace).circuit.HalfOpen?
  {
    Extend(c, trace, Success);
  }

  lemma ClosingTraceNeedsSuccesses(c: Config, trace: seq<Event>, probe: nat)
    requires probe < |trace| && Replay(c, trace[..probe]).circuit.Open?
    requires !Replay(c, trace).circuit.Closed? && Replay(c, trace + [Success]).circuit.Closed?
    ensures Successes((trace + [Success])[probe + 1..]) >= c.halfOpenMaxCalls
  {
    hide *;
    ClosesFromHalfOpen(c, trace);
    var latest := HalfOpenClosesExactly(c, trace, Success);
    ProbeInTrace(c, trace, latest);
    LatestProbeIsLater(c, trace, probe, latest);
    MoreSuccessesFromEarlier(trace, probe + 1, latest + 1);
    SinceSnoc(trace, probe + 1);
  }

  lemma ProbeInTrace(c: Config, trace: seq<Event>, probe: nat)
    requires ProbeAt(c, trace, probe)
    ensures probe < |trace|
  {
  }

  lemma ClosingNeedsSuccesses(c: Config, calls: seq<CallEvent>, probe: nat)
    requires Probes(c, calls, probe) && ClosesAtEnd(c, calls)
    ensures Successes(Events(calls)[probe + 1..]) >= c.halfOpenMaxCalls
  {
    var front, events := calls[..|calls| - 1], Events(calls);
    var trace := Events(front);
    assert events == trace + [Success];
    assert probe < |front|;
    assert trace[..probe] == events[..probe];
    hide Replay, Successes, Events;
    ClosingTraceNeedsSuccesses(c, trace, probe);
  }

  lemma {:induction false} ClosingRestsOnOwn(c: Config, calls: seq<CallEvent>, probe: nat)
    requires Attributed(c, calls) && Probes(c, calls, probe) && ClosesAtEnd(c, calls)
    requires NothingInFlight(c, calls[..probe])
    ensures OwnSuccesses(calls, probe) >= c.halfOpenMaxCalls
  {
    ClosingNeedsSuccesses(c, calls, probe);
    AllSuccessesAreOwn(c, calls, probe, |calls|);
    assert calls[..|calls|] == calls;
  }

  // ---------------------------------------------------------------- closing with a call in flight

  lemma ArrivalExtends(c: Config, calls: seq<CallEvent>, call: nat, now: int)
    requires Attributed(c, calls) && forall k :: 0 <= k < |calls| ==> calls[k].call != call
    ensures Attributed(c, calls + [CallEvent(call, Enter(now))])
  {
    var e := [CallEvent(call, Enter(now))];
    forall k | 0 <= k < |calls + e| && IsOutcome((calls + e)[k].event)
      ensures exists j :: 0 <= j < k && AdmittedAt(c, calls + e, j, (calls + e)[k].call)
    {
      var j :| 0 <= j < k && AdmittedAt(c, calls, j, calls[k].call);
      AdmittedInPrefix(c, calls, e, j, calls[k].call);
    }
    hide AdmittedAt;
  }

  lemma OutcomeExtends(c: Config, calls: seq<CallEvent>, call: nat)
    requires Attributed(c, calls) && InFlight(c, calls, call)
    ensures Attributed(c, calls + [CallEvent(call, Success)])
  {
    var e := [CallEvent(call, Success)];
    forall k | 0 <= k < |calls + e| && IsOutcome((calls + e)[k].event)
      ensures exists j :: 0 <= j < k && AdmittedAt(c, calls + e, j, (calls + e)[k].call)
    {
      if k < |calls| {
        var j :| 0 <= j < k && AdmittedAt(c, calls, j, calls[k].call);
        AdmittedInPrefix(c, calls, e, j, calls[k].call);
      } else {
        var j :| 0 <= j < |calls| && AdmittedAt(c, calls, j, call);
        AdmittedInPrefix(c, calls, e, j, call);
      }
    }
    hide AdmittedAt;
  }

  /** n calls that arrive after the probe and succeed at once. */
  function Helpers(id: nat, n: nat, now: int): seq<CallEvent> {
    if n == 0 then []
    else Helpers(id, n - 1, now) + [CallEvent(id + n - 1, Enter(now)), CallEvent(id + n - 1, Success)]
  }

  /** The state of the construction: n of the successes needed, none of them by x, which is still in flight;
      all identifiers lie below the bound. */
  ghost predicate Helped(c: Config, calls: seq<CallEvent>, probe: nat, bound: nat, n: nat, x: nat) {
    && Attributed(c, calls) && InFlight(c, calls, x) && x < bound
    && (forall k :: 0 <= k < |calls| ==> calls[k].call < bound)
    && Replay(c, Events(calls)).circuit.HalfOpen? && Replay(c, Events(calls)).successes == n
    && probe < |calls| && OwnSuccesses(calls, probe) <= n && !ArrivedFrom(calls, x, probe)
  }

  lemma InFlightStays(c: Config, calls: seq<CallEvent>, e: CallEvent, x: nat)
    requires InFlight(c, calls, x) && e.call != x
    ensures InFlight(c, calls + [e], x)
  {
    var j :| 0 <= j < |calls| && AdmittedAt(c, calls, j, x);
    AdmittedInPrefix(c, calls, [e], j, x);
    hide AdmittedAt;
  }

  lemma ArrivedFromSnoc(calls: seq<CallEvent>, e: CallEvent, x: nat, probe: nat)
    requires !ArrivedFrom(calls, x, probe) && e.call != x
    ensures !ArrivedFrom(calls + [e], x, probe)
  {
    forall j | probe <= j < |calls + [e]| && (calls + [e])[j].event.Enter?
      ensures (calls + [e])[j].call != x
    {
      if j < |calls| {
        assert (calls + [e])[j] == calls[j];
      }
    }
  }

  lemma OwnSnoc(calls: seq<CallEvent>, e: CallEvent, probe: nat)
    requires probe < |calls|
    ensures OwnSuccesses(calls + [e], probe)
            == OwnSuccesses(calls, probe) + (if e.event.Success? && ArrivedFrom(calls, e.call, probe) then 1 else 0)
  {
    assert (calls + [e])[..|calls|] == calls;
  }

  lemma ReplaySnoc(c: Config, calls: seq<CallEvent>, e: CallEvent)
    ensures Replay(c, Events(calls + [e])) == After(c, Replay(c, Events(calls)), e.event)
  {
    EventsConcat(calls, [e]);
    assert Events([e]) == [e.event];
    Extend(c, Events(calls), e.event);
  }

  lemma HelperArrives(c: Config, calls: seq<CallEvent>, probe: nat, bound: nat, n: nat, x: nat, now: int)
    requires Helped(c, calls, probe, bound, n, x)
    ensures var next := calls + [CallEvent(bound, Enter(now))];
            Helped(c, next, probe, bound + 1, n, x) && InFlight(c, next, bound)
  {
    var e := CallEvent(bound, Enter(now));
    ArrivalExtends(c, calls, bound, now);
    ReplaySnoc(c, calls, e);
    InFlightStays(c, calls, e, x);
    ArrivedFromSnoc(calls, e, x, probe);
    OwnSnoc(calls, e, probe);
    JustArrived(c, calls, bound, now);
    hide Attributed, InFlight, ArrivedFrom, OwnSuccesses, Replay, Events;
  }

  lemma HelperSucceeds(c: Config, calls: seq<CallEvent>, probe: nat, bound: nat, n: nat, x: nat, helper: nat)
    requires Helped(c, calls, probe, bound, n, x) && InFlight(c, calls, helper) && x != helper && helper < bound
    requires n + 1 < c.halfOpenMaxCalls
    ensures Helped(c, calls + [CallEvent(helper, Success)], probe, bound, n + 1, x)
  {
    var e := CallEvent(helper, Success);
    OutcomeExtends(c, calls, helper);
    ReplaySnoc(c, calls, e);
    InFlightStays(c, calls, e, x);
    ArrivedFromSnoc(calls, e, x, probe);
    OwnSnoc(calls, e, probe);
    hide Attributed, InFlight, ArrivedFrom, OwnSuccesses, Replay, Events;
  }

  lemma JustArrived(c: Config, calls: seq<CallEvent>, call: nat, now: int)
    requires !Replay(c, Events(calls)).circuit.Open? && forall k :: 0 <= k < |calls| ==> calls[k].call != call
    ensures InFlight(c, calls + [CallEvent(call, Enter(now))], call)
  {
    var all := calls + [CallEvent(call, Enter(now))];
    assert Events(all)[..|calls|] == Events(calls);
    assert AdmittedAt(c, all, |calls|, call);
    hide Replay;
  }

  lemma HelpersSnoc(calls: seq<CallEvent>, id: nat, n: nat, now: int)
    requires n > 0
    ensures calls + Helpers(id, n, now)
            == calls + Helpers(id, n - 1, now) + [CallEvent(id + n - 1, Enter(now))] + [CallEvent(id + n - 1, Success)]
  {
  }

  lemma HelpedIsBelow(c: Config, calls: seq<CallEvent>, probe: nat, bound: nat, n: nat, x: nat)
    requires Helped(c, calls, probe, bound, n, x)
    ensures x < bound && calls + Helpers(bound, 0, 0) == calls
  {
  }

  lemma {:induction false} HelpersHelp(c: Config, calls: seq<CallEvent>, probe: nat, id: nat, n: nat, x: nat)
    requires Helped(c, calls, probe, id, 0, x) && n < c.halfOpenMaxCalls
    ensures Helped(c, calls + Helpers(id, n, 0), probe, id + n, n, x)
  {
    hide *;
    HelpedIsBelow(c, calls, probe, id, 0, x);
    if n > 0 {
      HelpersHelp(c, calls, probe, id, n - 1, x);
      var helped, helper := calls + Helpers(id, n - 1, 0), id + n - 1;
      HelpersSnoc(calls, id, n, 0);
      HelperArrives(c, helped, probe, helper, n - 1, x, 0);
      HelperSucceeds(c, helped + [CallEvent(helper, Enter(0))], probe, id + n, n - 1, x, helper);
    }
  }

  /** The success of the call in flight closes the circuit. */
  lemma HelpedCloses(c: Config, calls: seq<CallEvent>, probe: nat, bound: nat, n: nat, x: nat)
    requires Helped(c, calls, probe, bound, n, x) && n + 1 == c.halfOpenMaxCalls
    ensures var all := calls + [CallEvent(x, Success)];
            Attributed(c, all) && ClosesAtEnd(c, all) && OwnSuccesses(all, probe) < c.halfOpenMaxCalls
  {
    var e := CallEvent(x, Success);
    OutcomeExtends(c, calls, x);
    ReplaySnoc(c, calls, e);
    OwnSnoc(calls, e, probe);
    assert (calls + [e])[..|calls + [e]| - 1] == calls;
    hide Attributed, InFlight, ArrivedFrom, OwnSuccesses, Replay, Events;
  }

  lemma {:induction false} FreshId(calls: seq<CallEvent>) returns (id: nat)
    ensures forall k :: 0 <= k < |calls| ==> calls[k].call < id
  {
    if calls == [] {
      id := 0;
    } else {
      var front, last := calls[..|calls| - 1], calls[|calls| - 1];
      id := FreshId(front);
      if last.call >= id {
        id := last.call + 1;
      }
    }
  }

  /** At the probe the construction starts. */
  lemma ProbeStartsHelp(c: Config, calls: seq<CallEvent>, id: nat, x: nat)
    requires calls != [] && Attributed(c, calls) && Probes(c, calls, |calls| - 1)
    requires InFlight(c, calls[..|calls| - 1], x)
    requires forall k :: 0 <= k < |calls| ==> calls[k].call < id
    ensures Helped(c, calls, |calls| - 1, id, 0, x)
  {
    var before, probe := calls[..|calls| - 1], calls[|calls| - 1];
    assert calls == before + [probe];
    var j :| 0 <= j < |before| && AdmittedAt(c, before, j, x);
    assert calls[j].event.Enter? && calls[j].call == x;
    InFlightStays(c, before, probe, x);
    ReplaySnoc(c, before, probe);
    EventsPrefix(before, [probe], |before|);
    assert Events(before)[..|before|] == Events(before);
    assert probe.call != x;
    hide Replay, Events, AdmittedAt, Attributed;
  }

  /** One call in flight at the probe is enough: the circuit can close one success short of the calls let through
      from the probe on. */
  lemma {:induction false} CallInFlightCanClose(c: Config, calls: seq<CallEvent>, x: nat)
    returns (later: seq<CallEvent>)
    requires c.halfOpenMaxCalls >= 1 && calls != [] && Attributed(c, calls) && Probes(c, calls, |calls| - 1)
    requires InFlight(c, calls[..|calls| - 1], x)
    ensures Attributed(c, calls + later) && ClosesAtEnd(c, calls + later)
    ensures OwnSuccesses(calls + later, |calls| - 1) < c.halfOpenMaxCalls
  {
    var probe, n := |calls| - 1, c.halfOpenMaxCalls - 1;
    hide *;
    var id := FreshId(calls);
    ProbeStartsHelp(c, calls, id, x);
    HelpersHelp(c, calls, probe, id, n, x);
    later := Helpers(id, n, 0) + [CallEvent(x, Success)];
    assert calls + later == calls + Helpers(id, n, 0) + [CallEvent(x, Success)];
    HelpedCloses(c, calls + Helpers(id, n, 0), probe, id + n, n, x);
  }

  /** Whose successes close the circuit, exactly: at a probe that is let through, every later closing by an outcome
      rests on enough successes of calls that arrived with the probe or after it, if and only if no call let
      through before the probe is still without an outcome. */
  lemma {:induction false} ClosingRestsOnNewCallsIff(c: Config, calls: seq<CallEvent>)
    requires c.halfOpenMaxCalls >= 1 && calls != [] && Attributed(c, calls) && Probes(c, calls, |calls| - 1)
    ensures (forall later :: Attributed(c, calls + later) && ClosesAtEnd(c, calls + later) ==>
               OwnSuccesses(calls + later, |calls| - 1) >= c.halfOpenMaxCalls)
            <==> NothingInFlight(c, calls[..|calls| - 1])
  {
    var probe := |calls| - 1;
    if NothingInFlight(c, calls[..probe]) {
      forall later | Attributed(c, calls + later) && ClosesAtEnd(c, calls + later)
        ensures OwnSuccesses(calls + later, probe) >= c.halfOpenMaxCalls
      {
        ProbesStays(c, calls, later, probe);
        assert (calls + later)[..probe] == calls[..probe];
        ClosingRestsOnOwn(c, calls + later, probe);
      }
    } else {
      var x :| InFlight(c, calls[..probe], x);
      var later := CallInFlightCanClose(c, calls, x);
    }
  }

  lemma ProbesStays(c: Config, calls: seq<CallEvent>, later: seq<CallEvent>, probe: nat)
    requires Probes(c, calls, probe)
    ensures Probes(c, calls + later, probe)
  {
    EventsPrefix(calls, later, probe);
    assert (calls + later)[probe] == calls[probe];
    hide Replay;
  }

  // ---------------------------------------------------------------- a trace for every threshold

  /** T + M calls enter while the circuit is closed, the first T fail, one probe is let through after the
      timeout, and then the other M early calls succeed. T is the failure threshold, M the successes needed. */
  function LateEvent(c: Config, k: nat): CallEvent
    requires c.failureThreshold >= 1 && c.halfOpenMaxCalls >= 1
  {
    var early := c.failureThreshold + c.halfOpenMaxCalls;
    if k < early then CallEvent(k, Enter(0))
    else if k < early + c.failureThreshold then CallEvent(k - early, Failure(0))
    else if k == early + c.failureThreshold then CallEvent(early, Enter(c.recoveryTimeout))
    else CallEvent(k - early - 1, Success)
  }

  function LateCalls(c: Config, n: nat): (calls: seq<CallEvent>)
    requires c.failureThreshold >= 1 && c.halfOpenMaxCalls >= 1
    ensures |calls| == n
  {
    seq(n, k requires 0 <= k => LateEvent(c, k))
  }

  function LateState(c: Config, n: nat): Breaker
    requires c.failureThreshold >= 1 && c.halfOpenMaxCalls >= 1
  {
    var threshold, early := c.failureThreshold, c.failureThreshold + c.halfOpenMaxCalls;
    if n <= early then FRESH
    else if n < early + threshold then Breaker(Closed, n - early, 0, Some(0))
    else if n == early + threshold then Breaker(Open, threshold, 0, Some(0))
    else if n <= 2 * early then Breaker(HalfOpen, threshold, n - early - threshold - 1, Some(0))
    else Breaker(Closed, 0, 0, Some(0))
  }

  lemma {:induction false} LateReplay(c: Config, n: nat)
    requires c.failureThreshold >= 1 && c.halfOpenMaxCalls >= 1
    requires n <= 2 * (c.failureThreshold + c.halfOpenMaxCalls) + 1
    ensures Replay(c, Events(LateCalls(c, n))) == LateState(c, n)
  {
    if n > 0 {
      LateReplay(c, n - 1);
      assert Events(LateCalls(c, n))[..n - 1] == Events(LateCalls(c, n - 1));
    }
  }

  lemma LatePrefix(c: Config, n: nat, k: nat)
    requires c.failureThreshold >= 1 && c.halfOpenMaxCalls >= 1
    requires k <= n <= 2 * (c.failureThreshold + c.halfOpenMaxCalls) + 1
    ensures Replay(c, Events(LateCalls(c, n))[..k]) == LateState(c, k)
  {
    assert Events(LateCalls(c, n))[..k] == Events(LateCalls(c, k));
    LateReplay(c, k);
  }

  lemma LateOutcomeIsAttributed(c: Config, n: nat, k: nat)
    requires c.failureThreshold >= 1 && c.halfOpenMaxCalls >= 1
    requires k < n <= 2 * (c.failureThreshold + c.halfOpenMaxCalls) + 1 && IsOutcome(LateEvent(c, k).event)
    ensures var call := LateEvent(c, k).call;
            && call < k && AdmittedAt(c, LateCalls(c, n), call, call)
            && forall l: nat :: l != k && IsOutcome(LateEvent(c, l).event) ==> LateEvent(c, l).call != call
  {
    var call := LateEvent(c, k).call;
    LatePrefix(c, n, call);
    hide Replay;
  }

  lemma LateCallsAreAttributed(c: Config, n: nat)
    requires c.failureThreshold >= 1 && c.halfOpenMaxCalls >= 1
    requires n <= 2 * (c.failureThreshold + c.halfOpenMaxCalls) + 1
    ensures Attributed(c, LateCalls(c, n))
  {
    var calls := LateCalls(c, n);
    hide LateEvent, AdmittedAt;
    forall k | 0 <= k < n && IsOutcome(calls[k].event)
      ensures exists j :: 0 <= j < k && AdmittedAt(c, calls, j, calls[k].call)
      ensures forall l :: 0 <= l < n && l != k && IsOutcome(calls[l].event) ==> calls[l].call != calls[k].call
    {
      LateOutcomeIsAttributed(c, n, k);
      assert calls[k] == LateEvent(c, k);
    }
  }

  /** Successes of calls that were let through before the circuit opened count towards closing it: for
      every threshold there is a trace in which the circuit trips, lets one probe through and closes on
      such successes alone, while the probe has not returned. */
  lemma EarlierCallsCanCloseTheCircuit(c: Config) returns (calls: seq<CallEvent>, probe: nat)
    requires c.failureThreshold >= 1 && c.halfOpenMaxCalls >= 1
    ensures Attributed(c, calls) && Replay(c, Events(calls)) == Breaker(Closed, 0, 0, Some(0))
    ensures probe < |calls| && calls[probe].event.Enter? && Replay(c, Events(calls)[..probe]).circuit.Open?
    ensures forall k :: probe < k < |calls| ==> calls[k].event == Success
    ensures forall k :: 0 <= k < |calls| && k != probe ==> calls[k].call != calls[probe].call
  {
    var early := c.failureThreshold + c.halfOpenMaxCalls;
    calls, probe := LateCalls(c, 2 * early + 1), early + c.failureThreshold;
    LateReplay(c, |calls|);
    LatePrefix(c, |calls|, probe);
    LateCallsAreAttributed(c, |calls|);
    forall k | 0 <= k < |calls|
      ensures calls[k] == LateEvent(c, k)
      ensures k == probe ==> calls[k].event.Enter? && calls[k].call == early
      ensures k > probe ==> calls[k].event == Success
      ensures k != probe ==> calls[k].call != early
    {
    }
    hide Replay, Attributed, LateEvent, Events, LateCalls;
  }
}
