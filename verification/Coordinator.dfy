/**
 One worker's handling of one date range (threading/coordinator.py), against an arbitrary environment:
 what the other threads have made of the two queues when the worker comes to them is a parameter. Every
 move of the worker is one of its steps in the protocol of the whole backfill.
 */
module Coordinator {
  import opened Wrappers
  import opened SegmentStore
  import opened DateRangeQueue
  import W = WriteQueue
  import opened Backfill

  /** queues: the requests waiting at each try. */
  ghost predicate Accepted(capacity: nat, queues: seq<seq<Store>>) {
    exists t :: 0 <= t < |queues| && W.HasRoom(capacity, queues[t])
  }

  /** One list of waiting requests a try, none longer than the queue's bound. */
  predicate Fitting(capacity: nat, queues: seq<seq<Store>>) {
    |queues| == FCD_MAX_WRITE_RETRIES && forall q :: q in queues ==> capacity > 0 ==> |q| <= capacity
  }

  /** The first try that finds room. */
  ghost predicate AcceptedAt(capacity: nat, queues: seq<seq<Store>>, t: nat) {
    && t < |queues| && W.HasRoom(capacity, queues[t])
    && forall u :: 0 <= u < t ==> !W.HasRoom(capacity, queues[u])
  }

  /** What a submission leaves in the queue: the batch once, behind the requests of the first try with room;
      or the requests of the last try as they were. */
  ghost predicate AfterSubmit(capacity: nat, queues: seq<seq<Store>>, batch: Store, now: seq<Store>) {
    if Accepted(capacity, queues) then
      forall t: nat :: AcceptedAt(capacity, queues, t) ==> now == queues[t] + [batch]
    else
      queues != [] && now == queues[|queues| - 1]
  }

  /** Tries until the queue has room, FCD_MAX_WRITE_RETRIES times, and raises if every try found it full. */
  method SubmitWriteWithRetry(writes: W.Queue<Store>, batch: Store, queues: seq<seq<Store>>)
    returns (r: Result<(), W.QueueError>)
    requires Fitting(writes.capacity, queues) && writes.Valid()
    modifies writes`requests
    ensures writes.Valid()
    ensures r.Ok? <==> Accepted(writes.capacity, queues)
    ensures AfterSubmit(writes.capacity, queues, batch, writes.requests)
  {
    var retryCount := 0;
    while retryCount < FCD_MAX_WRITE_RETRIES
      invariant 0 <= retryCount < FCD_MAX_WRITE_RETRIES
      invariant forall u :: 0 <= u < retryCount ==> !W.HasRoom(writes.capacity, queues[u])
      invariant writes.Valid()
      decreases FCD_MAX_WRITE_RETRIES - retryCount
    {
      writes.requests := queues[retryCount];
      r := writes.PutWriteRequest(batch);
      if r.Ok? {
        assert AcceptedAt(writes.capacity, queues, retryCount);
        assert forall t: nat :: AcceptedAt(writes.capacity, queues, t) ==> !(t < retryCount) && !(retryCount < t);
        return;
      }
      retryCount := retryCount + 1;
      if retryCount >= FCD_MAX_WRITE_RETRIES {
        return;
      }
    }
  }

  /** How many batches get submitted: up to the one before which the processing raises, or the first
      that finds the queue full at every try. */
  ghost function SubmittedBatches(capacity: nat, count: nat, raisesAt: Option<nat>, queues: seq<seq<seq<Store>>>,
                                  next: nat)
    : (n: nat)
    requires next <= count <= |queues|
    ensures next <= n <= count
    decreases count - next
  {
    if next == count || raisesAt == Some(next) || !Accepted(capacity, queues[next]) then next
    else SubmittedBatches(capacity, count, raisesAt, queues, next + 1)
  }

  lemma SubmittedUnfold(capacity: nat, count: nat, raisesAt: Option<nat>, queues: seq<seq<seq<Store>>>, next: nat)
    requires next <= count <= |queues|
    ensures var n := SubmittedBatches(capacity, count, raisesAt, queues, next);
            if next == count || raisesAt == Some(next) || !Accepted(capacity, queues[next]) then n == next
            else n == SubmittedBatches(capacity, count, raisesAt, queues, next + 1)
  {
  }

  /** The queue after the worker's n-th submission. */
  ghost predicate AfterTries(capacity: nat, batches: seq<Store>, queues: seq<seq<seq<Store>>>, n: nat,
                             was: seq<Store>, now: seq<Store>)
    requires n <= |batches| == |queues|
  {
    if n == 0 then now == was else AfterSubmit(capacity, queues[n - 1], batches[n - 1], now)
  }

  /** What the worker last left in the write queue: the outcome of its last submission, accepted or not. */
  ghost predicate LeftBehind(capacity: nat, batches: seq<Store>, raisesAt: Option<nat>, queues: seq<seq<seq<Store>>>,
                             submitted: nat, was: seq<Store>, now: seq<Store>)
    requires submitted <= |batches| == |queues|
  {
    var rejected := submitted < |batches| && raisesAt != Some(submitted);
    AfterTries(capacity, batches, queues, if rejected then submitted + 1 else submitted, was, now)
  }

  lemma NextTry(capacity: nat, batches: seq<Store>, queues: seq<seq<seq<Store>>>, n: nat, was: seq<Store>,
                now: seq<Store>)
    requires n < |batches| == |queues| && AfterSubmit(capacity, queues[n], batches[n], now)
    ensures AfterTries(capacity, batches, queues, n + 1, was, now)
  {
  }

  lemma TriesLeave(capacity: nat, batches: seq<Store>, raisesAt: Option<nat>, queues: seq<seq<seq<Store>>>,
                   submitted: nat, was: seq<Store>, now: seq<Store>)
    requires submitted <= |batches| == |queues|
    ensures submitted == 0 && now == was ==> AfterTries(capacity, batches, queues, submitted, was, now)
    ensures (submitted == |batches| || raisesAt == Some(submitted))
            && AfterTries(capacity, batches, queues, submitted, was, now)
            ==> LeftBehind(capacity, batches, raisesAt, queues, submitted, was, now)
    ensures submitted < |batches| && raisesAt != Some(submitted)
            && AfterTries(capacity, batches, queues, submitted + 1, was, now)
            ==> LeftBehind(capacity, batches, raisesAt, queues, submitted, was, now)
  {
  }

  method SubmitBatches(writes: W.Queue<Store>, batches: seq<Store>, raisesAt: Option<nat>, queues: seq<seq<seq<Store>>>)
    returns (submitted: nat)
    requires |queues| == |batches| && writes.Valid()
    requires forall b :: 0 <= b < |queues| ==> Fitting(writes.capacity, queues[b])
    modifies writes`requests
    ensures writes.Valid()
    ensures submitted == SubmittedBatches(writes.capacity, |batches|, raisesAt, queues, 0)
    ensures LeftBehind(writes.capacity, batches, raisesAt, queues, submitted, old(writes.requests), writes.requests)
  {
    hide *;
    submitted := 0;
    TriesLeave(writes.capacity, batches, raisesAt, queues, 0, writes.requests, writes.requests);
    while submitted < |batches|
      invariant submitted <= |batches| && writes.Valid()
      invariant SubmittedBatches(writes.capacity, |batches|, raisesAt, queues, submitted)
                == SubmittedBatches(writes.capacity, |batches|, raisesAt, queues, 0)
      invariant AfterTries(writes.capacity, batches, queues, submitted, old(writes.requests), writes.requests)
      decreases |batches| - submitted
    {
      SubmittedUnfold(writes.capacity, |batches|, raisesAt, queues, submitted);
      if raisesAt == Some(submitted) {
        break;
      }
      var r := SubmitWriteWithRetry(writes, batches[submitted], queues[submitted]);
      NextTry(writes.capacity, batches, queues, submitted, old(writes.requests), writes.requests);
      if r.Err? {
        TriesLeave(writes.capacity, batches, raisesAt, queues, submitted, old(writes.requests), writes.requests);
        return;
      }
      submitted := submitted + 1;
    }
    SubmittedUnfold(writes.capacity, |batches|, raisesAt, queues, submitted);
    TriesLeave(writes.capacity, batches, raisesAt, queues, submitted, old(writes.requests), writes.requests);
  }

  /** What a worker sees of the date queue. */
  datatype Dates = Dates(waiting: seq<DateRange>, completedRanges: nat, deadLetters: seq<DateRange>)

  predicate Done(count: nat, raisesAt: Option<nat>, submitted: nat) {
    submitted == count && raisesAt != Some(count)
  }

  /** The range ends in exactly one of three ways: completed when all of its batches were submitted and
      nothing raised; otherwise requeued with one more retry; or dead-lettered when its retries are used up. */
  function AfterRange(d: Dates, range: DateRange, error: string, maxRetries: nat, done: bool): Dates {
    if done then
      d.(completedRanges := d.completedRanges + 1)
    else if range.retryCount < maxRetries then
      d.(waiting := d.waiting + [range.(retryCount := range.retryCount + 1, lastError := Some(error))])
    else
      d.(deadLetters := BoundedAppend(d.deadLetters, range))
  }

  /** others: what the other workers have left of the date queue when this one comes back to it. */
  method ProcessRange(dates: DateRangeQueue.Queue, writes: W.Queue<Store>, range: DateRange, batches: seq<Store>,
                      raisesAt: Option<nat>, error: string, queues: seq<seq<seq<Store>>>, maxRetries: nat,
                      others: Dates)
    returns (submitted: nat)
    requires |queues| == |batches| && writes.Valid()
    requires forall b :: 0 <= b < |queues| ==> Fitting(writes.capacity, queues[b])
    modifies dates, writes`requests
    ensures submitted == SubmittedBatches(writes.capacity, |batches|, raisesAt, queues, 0)
    ensures LeftBehind(writes.capacity, batches, raisesAt, queues, submitted, old(writes.requests), writes.requests)
    ensures Dates(dates.waiting, dates.completedRanges, dates.deadLetters)
            == AfterRange(others, range, error, maxRetries, Done(|batches|, raisesAt, submitted))
    ensures dates.totalRanges == old(dates.totalRanges)
  {
    hide LeftBehind, SubmittedBatches;
    submitted := SubmitBatches(writes, batches, raisesAt, queues);
    dates.waiting, dates.completedRanges := others.waiting, others.completedRanges;
    dates.deadLetters := others.deadLetters;
    if submitted == |batches| && raisesAt != Some(|batches|) {
      dates.MarkCompleted();
    } else if range.retryCount < maxRetries {
      dates.RequeueFailed(range, error);
    } else {
      dates.MoveToDeadLetter(range);
    }
  }

  /** The check of a worker that got no range: it leaves only when all ranges completed and none waits. */
  method ShouldLeave(dates: DateRangeQueue.Queue) returns (leave: bool)
    ensures leave <==> dates.completedRanges >= dates.totalRanges && dates.waiting == []
  {
    leave := dates.IsComplete();
    if leave {
      leave := dates.IsEmpty();
    }
  }

  // ---------------------------------------------------------------- the worker's moves are protocol steps

  /** The state in which worker w makes try t at batch b of its range, with the requests it then finds. */
  ghost predicate Finds(c: Config, s: State, w: nat, item: Item, b: nat, t: nat, requests: seq<Store>) {
    && w < |s.workers| && s.workers[w] == Holding(item, b, t) && s.requests == requests
    && item.range < Total(c) && b < |c.batches[item.range]|
  }

  /** The step of a try. */
  function TryAction(c: Config, requests: seq<Store>): WorkerAction {
    if W.HasRoom(c.capacity, requests) then Submit else SubmitTimesOut
  }

  /** The action is a step of the protocol in s and takes worker w to y. */
  ghost predicate Moves(c: Config, s: State, w: nat, action: WorkerAction, y: Worker) {
    && Enabled(c, s, Work(w, action))
    && w < |s.workers| && Next(c, s, Work(w, action)).workers == s.workers[w := y]
  }

  /** A try that finds room submits the batch once and turns to the next; one that finds the queue full leaves
      it and is counted, and the last one allowed fails the range. */
  lemma TryIsStep(c: Config, s: State, w: nat, item: Item, b: nat, t: nat, requests: seq<Store>)
    requires Finds(c, s, w, item, b, t, requests)
    ensures var accepted := W.HasRoom(c.capacity, requests);
            && Moves(c, s, w, TryAction(c, requests),
                     if accepted then Holding(item, b + 1, 0)
                     else if t + 1 < FCD_MAX_WRITE_RETRIES then Holding(item, b, t + 1) else Failing(item))
            && Next(c, s, Work(w, TryAction(c, requests))).requests
               == requests + if accepted then [c.batches[item.range][b]] else []
  {
  }

  /** The tries at one batch up to t, each in the state it finds, are steps of the protocol. The last of them
      leaves the write queue as the method does, whether it finds room or is the last one allowed. */
  lemma SubmissionIsSteps(c: Config, w: nat, item: Item, b: nat, seen: seq<State>, queues: seq<seq<Store>>, t: nat)
    requires item.range < Total(c) && b < |c.batches[item.range]|
    requires Fitting(c.capacity, queues) && |seen| == |queues| && t < |queues|
    requires forall u :: 0 <= u <= t ==> Finds(c, seen[u], w, item, b, u, queues[u])
    requires forall u :: 0 <= u < t ==> !W.HasRoom(c.capacity, queues[u])
    ensures forall u :: 0 <= u < t ==> Moves(c, seen[u], w, SubmitTimesOut, Holding(item, b, u + 1))
    ensures var accepted := W.HasRoom(c.capacity, queues[t]);
            accepted || t == FCD_MAX_WRITE_RETRIES - 1 ==>
              && (accepted <==> Accepted(c.capacity, queues))
              && Moves(c, seen[t], w, TryAction(c, queues[t]),
                       if accepted then Holding(item, b + 1, 0) else Failing(item))
              && AfterSubmit(c.capacity, queues, c.batches[item.range][b],
                             Next(c, seen[t], Work(w, TryAction(c, queues[t]))).requests)
  {
    hide Next, Enabled;
    forall u | 0 <= u < t
      ensures Moves(c, seen[u], w, SubmitTimesOut, Holding(item, b, u + 1))
    {
      TryIsStep(c, seen[u], w, item, b, u, queues[u]);
    }
    TryIsStep(c, seen[t], w, item, b, t, queues[t]);
    if W.HasRoom(c.capacity, queues[t]) {
      assert AcceptedAt(c.capacity, queues, t);
      assert forall u: nat :: AcceptedAt(c.capacity, queues, u) ==> !(u < t) && !(t < u);
    }
  }

  /** The protocol's item is the i-th chunk of the period, with the retries counted so far. */
  ghost predicate Stands(chunks: seq<DateRange>, item: Item, range: DateRange) {
    && item.range < |chunks| && item.retries == range.retryCount
    && range.start == chunks[item.range].start && range.end == chunks[item.range].end
  }

  ghost predicate AllStand(chunks: seq<DateRange>, items: seq<Item>, ranges: seq<DateRange>) {
    |items| == |ranges| && forall i :: 0 <= i < |items| ==> Stands(chunks, items[i], ranges[i])
  }

  ghost predicate Mirrors(chunks: seq<DateRange>, s: State, d: Dates) {
    && AllStand(chunks, s.waiting, d.waiting) && AllStand(chunks, s.deadLetters, d.deadLetters)
    && s.completedRanges == d.completedRanges
  }

  /** Whatever raises while a range is held, after any number of its batches, is a Fail step. */
  lemma RaiseIsStep(c: Config, s: State, w: nat, item: Item, next: nat, tries: nat)
    requires w < |s.workers| && s.workers[w] == Holding(item, next, tries)
    ensures Moves(c, s, w, Fail, Failing(item))
  {
  }

  /** The outcome of a range is a Finish step, or, after the failure, a Requeue or a DeadLetter step, which
      leaves the date queue as the method does. */
  lemma OutcomeIsStep(c: Config, s: State, w: nat, item: Item, chunks: seq<DateRange>, range: DateRange,
                      error: string, others: Dates, done: bool)
    requires Mirrors(chunks, s, others) && Stands(chunks, item, range) && item.range < Total(c)
    requires w < |s.workers|
    requires s.workers[w] == if done then Holding(item, |c.batches[item.range]|, 0) else Failing(item)
    ensures var action := if done then Finish else if item.retries < c.maxRetries then Requeue else DeadLetter;
            && Moves(c, s, w, action, AtTop)
            && Mirrors(chunks, Next(c, s, Work(w, action)), AfterRange(others, range, error, c.maxRetries, done))
  {
  }
}
