/**
 What every run of the backfill guarantees, whatever the interleaving, the failures and the retries:
 no range is lost or counted twice, attempts run out, workers leave when all is done, and a completed
 backfill has the store of the sequential one.
 */
module BackfillProperties {
  import opened SegmentStore
  import opened DateRangeQueue
  import opened Backfill

  ghost predicate Inv(c: Config, start: Store, s: State) {
    && Conserved(c, s) && AttemptsCounted(c, s) && LeavesWhenDone(c, s)
    && WritesCounted(c, s) && StoreFromPlan(c, start, s) && NothingLost(c, s)
  }

  lemma InitialInv(c: Config, s: State)
    requires Initial(c, s)
    ensures Inv(c, s.store, s)
  {
    InitialConserved(c, s);
  }

  lemma StepInv(c: Config, start: Store, s: State, step: Step)
    requires Inv(c, start, s) && Enabled(c, s, step)
    ensures Inv(c, start, Next(c, s, step))
  {
    StepConserved(c, s, step);
    StepCounts(c, s, step);
    StepLeavesWhenDone(c, s, step);
    StepWritesCounted(c, s, step);
    StepStoreFromPlan(c, start, s, step);
    StepNothingLost(c, s, step);
    hide *;
  }

  /** The invariant holds in every state of every run. */
  lemma {:induction false} RunInv(c: Config, states: seq<State>, steps: seq<Step>, i: nat)
    requires IsRun(c, states, steps) && i < |states|
    ensures Inv(c, states[0].store, states[i])
    decreases i
  {
    if i == 0 {
      InitialInv(c, states[0]);
    } else {
      RunInv(c, states, steps, i - 1);
      StepInv(c, states[0].store, states[i - 1], steps[i - 1]);
    }
  }

  // ---------------------------------------------------------------- ranges

  lemma SizesAddUp(c: Config, s: State)
    requires Conserved(c, s)
    ensures Total(c) == |s.waiting| + |InFlight(s.workers)| + |s.completed| + |s.dead|
  {
    assert |Everywhere(s)| == |s.waiting| + |s.completed| + |s.dead| + |InFlight(s.workers)|;
  }

  /** In every state of every run each range is in exactly one place: waiting, in flight, completed or
      dead-lettered. The counters show it exactly as long as the dead-letter list has not overflowed. */
  lemma RangesAreConserved(c: Config, states: seq<State>, steps: seq<Step>, i: nat)
    requires IsRun(c, states, steps) && i < |states|
    ensures var s := states[i];
            && (forall r: nat :: Everywhere(s)[r] == if r < Total(c) then 1 else 0)
            && (Total(c) == |s.waiting| + |InFlight(s.workers)| + s.completedRanges + |s.deadLetters|
                <==> |s.dead| <= 1000)
  {
    RunInv(c, states, steps, i);
    SizesAddUp(c, states[i]);
    forall r: nat
      ensures Everywhere(states[i])[r] == if r < Total(c) then 1 else 0
    {
      CountingOnce(Total(c), r);
    }
  }

  /** No range is taken more than maxRetries + 1 times, and a dead-lettered one exactly that often. */
  lemma AttemptsAreBounded(c: Config, states: seq<State>, steps: seq<Step>, i: nat, r: nat)
    requires IsRun(c, states, steps) && i < |states| && r < Total(c)
    ensures |states[i].attempts| == Total(c) && states[i].attempts[r] <= c.maxRetries + 1
    ensures forall x :: x in states[i].dead && x.range == r ==> states[i].attempts[r] == c.maxRetries + 1
  {
    RunInv(c, states, steps, i);
    var s := states[i];
    CountingOnce(Total(c), r);
    assert r in Everywhere(s);
    assert r in Listed(s.waiting, s.completed, s.dead) || r in Names(InFlight(s.workers));
    hide Names, InFlight, Inv, Conserved, Everywhere, Counting;
    if r in Names(s.waiting) {
      var x := ItemOf(s.waiting, r);
      assert Fits(c, s.attempts, x, x.retries);
    } else if r in Names(InFlight(s.workers)) {
      var x := ItemOf(InFlight(s.workers), r);
      assert Fits(c, s.attempts, x, x.retries + 1);
    } else if r in Names(s.dead) {
      var x := ItemOf(s.dead, r);
      assert Fits(c, s.attempts, x, c.maxRetries + 1);
    } else {
      assert DoneFits(c, s.attempts, r);
    }
  }

  lemma ItemOf(items: seq<Item>, r: nat) returns (x: Item)
    requires r in Names(items)
    ensures x in items && x.range == r
  {
    assert r in Ranges(items);
    var i :| 0 <= i < |items| && Ranges(items)[i] == r;
    x := items[i];
  }

  function Outcomes(steps: seq<Step>): nat {
    if steps == [] then 0 else Outcomes(steps[..|steps| - 1]) + (if IsOutcome(steps[|steps| - 1]) then 1 else 0)
  }

  lemma {:induction false} InitialCost(m: nat, items: seq<Item>)
    requires forall x :: x in items ==> x.retries == 0
    ensures Cost(m, items) == |items| * (m + 1)
  {
    if items != [] {
      InitialCost(m, items[1..]);
      assert |items| * (m + 1) == (|items| - 1) * (m + 1) + (m + 1);
    }
  }

  lemma PrefixIsRun(c: Config, states: seq<State>, steps: seq<Step>)
    requires IsRun(c, states, steps) && steps != []
    ensures IsRun(c, states[..|steps|], steps[..|steps| - 1])
  {
    hide Next, Enabled, Initial;
  }

  /** The outcomes of a run and the attempts still open never exceed maxRetries + 1 for each range. */
  lemma {:induction false} OutcomesAreBounded(c: Config, states: seq<State>, steps: seq<Step>)
    requires IsRun(c, states, steps)
    ensures Outcomes(steps) + Remaining(c, states[|steps|]) <= Total(c) * (c.maxRetries + 1)
    decreases |steps|
  {
    var n := |steps|;
    if n == 0 {
      InitialCost(c.maxRetries, states[0].waiting);
      InitialConserved(c, states[0]);
    } else {
      PrefixIsRun(c, states, steps);
      OutcomesAreBounded(c, states[..n], steps[..n - 1]);
      RunInv(c, states, steps, n - 1);
      OutcomeUsesAnAttempt(c, states[n - 1], steps[n - 1]);
    }
  }

  // ---------------------------------------------------------------- leaving

  /** The completion counter is full exactly when every range was completed, each once, and none waits, is
      in flight or was dead-lettered. */
  lemma CompleteMeansAll(c: Config, states: seq<State>, steps: seq<Step>, i: nat)
    requires IsRun(c, states, steps) && i < |states|
    ensures var s := states[i];
            s.completedRanges >= Total(c) <==>
              && multiset(s.completed) == multiset(Counting(Total(c)))
              && s.waiting == [] && InFlight(s.workers) == [] && s.dead == []
  {
    RunInv(c, states, steps, i);
    var s := states[i];
    SizesAddUp(c, s);
    if s.completedRanges >= Total(c) {
      NamesOfNone();
      assert Everywhere(s) == multiset(s.completed);
    }
    assert |multiset(s.completed)| == |s.completed| && |multiset(Counting(Total(c)))| == Total(c);
  }

  /** A worker leaves without a shutdown only when every range was completed; once a range has been
      dead-lettered no worker ever leaves without one. */
  lemma WorkersLeaveOnlyWhenDone(c: Config, states: seq<State>, steps: seq<Step>, i: nat, w: nat)
    requires IsRun(c, states, steps) && i < |states|
    requires w < |states[i].workers| && states[i].workers[w].Left? && !states[i].shutdown
    ensures multiset(states[i].completed) == multiset(Counting(Total(c)))
    ensures states[i].waiting == [] && InFlight(states[i].workers) == [] && states[i].dead == []
  {
    RunInv(c, states, steps, i);
    CompleteMeansAll(c, states, steps, i);
  }

  // ---------------------------------------------------------------- the store

  /** What merging leaves at a key whose values all agree. */
  lemma {:induction false} ApplyAt(db: Store, effects: seq<Store>, k: Key, v: Value)
    requires forall e :: e in effects && k in e ==> e[k] == v
    ensures var r := Apply(db, effects);
            if exists e :: e in effects && k in e then k in r && r[k] == v
            else (k in r <==> k in db) && (k in db ==> r[k] == db[k])
    decreases |effects|
  {
    if effects != [] {
      var front, last := effects[..|effects| - 1], effects[|effects| - 1];
      ApplyAt(db, front, k, v);
      assert forall e :: e in effects <==> e in front || e == last;
    }
  }

  /** Everything completed and the write queue drained. */
  ghost predicate Finished(c: Config, s: State) {
    s.completedRanges >= Total(c) && s.requests == [] && !s.writer.Writing?
  }

  /** With nothing lost, everything completed and everything written, every batch of the plan was tried. */
  lemma AllBatchesTried(c: Config, start: Store, s: State, b: Store)
    requires Inv(c, start, s) && Finished(c, s)
    requires b in Flatten(c.batches)
    ensures b in s.tried
  {
    SizesAddUp(c, s);
    NamesOfNone();
    assert Everywhere(s) == multiset(s.completed);
    var r, j := PlannedBatchIsIn(c.batches, b);
    CountingOnce(Total(c), r);
    assert r in s.completed;
    assert RangeAccounted(c, s, r);
    assert Accounted(s, c.batches[r][j]);
  }

  /** The i-th write that was tried left the key out of the store. */
  predicate LeftOut(s: State, i: nat, k: Key) {
    i < |s.tried| && i < |s.effects| && k in s.tried[i] && k !in s.effects[i]
  }

  /** Another write stored the key, or the store had the value from the start. */
  ghost predicate MadeUpFor(start: Store, s: State, k: Key, v: Value) {
    (exists e :: e in s.effects && k in e) || (k in start && start[k] == v)
  }

  ghost predicate NothingMissing(start: Store, s: State) {
    forall i: nat, k :: LeftOut(s, i, k) ==> MadeUpFor(start, s, k, s.tried[i][k])
  }

  lemma EffectsAgree(c: Config, start: Store, s: State, b: Store, k: Key)
    requires Inv(c, start, s) && Compatible(c) && b in Flatten(c.batches) && k in b
    ensures forall e :: e in s.effects && k in e ==> e[k] == b[k]
  {
    forall e | e in s.effects && k in e
      ensures e[k] == b[k]
    {
      assert FromPlan(c, e);
    }
  }

  /** A planned key has its planned value in the store exactly if some write stored it or it was there. */
  lemma PlannedKeyIsRightIff(c: Config, start: Store, s: State, b: Store, k: Key)
    requires Inv(c, start, s) && Compatible(c) && b in Flatten(c.batches) && k in b
    ensures k in Sequential(c, start) && Sequential(c, start)[k] == b[k]
    ensures (k in s.store && s.store[k] == b[k]) <==> MadeUpFor(start, s, k, b[k])
  {
    EffectsAgree(c, start, s, b, k);
    ApplyAt(start, s.effects, k, b[k]);
    ApplyAt(start, Flatten(c.batches), k, b[k]);
  }

  lemma UnplannedKeyIsUntouched(c: Config, start: Store, s: State, k: Key)
    requires Inv(c, start, s) && forall b :: b in Flatten(c.batches) ==> k !in b
    ensures k in s.store <==> k in Sequential(c, start)
    ensures k in s.store ==> s.store[k] == Sequential(c, start)[k]
  {
    var v: Value :| true;
    forall e | e in s.effects
      ensures k !in e
    {
      assert FromPlan(c, e);
    }
    ApplyAt(start, s.effects, k, v);
    ApplyAt(start, Flatten(c.batches), k, v);
  }

  lemma NothingMissingAt(c: Config, start: Store, s: State, b: Store, k: Key)
    requires Inv(c, start, s) && Finished(c, s) && NothingMissing(start, s)
    requires b in Flatten(c.batches) && k in b
    ensures MadeUpFor(start, s, k, b[k])
  {
    AllBatchesTried(c, start, s, b);
    var i :| 0 <= i < |s.tried| && s.tried[i] == b;
    assert TriedParts(s.effects, s.tried);
    if k in s.effects[i] {
      assert s.effects[i] in s.effects;
    } else {
      assert LeftOut(s, i, k);
    }
  }

  lemma FinishedStoreAt(c: Config, start: Store, s: State, k: Key)
    requires Inv(c, start, s) && Compatible(c) && Finished(c, s) && NothingMissing(start, s)
    ensures k in s.store <==> k in Sequential(c, start)
    ensures k in s.store ==> s.store[k] == Sequential(c, start)[k]
  {
    hide Inv, Finished, NothingMissing, Compatible, Sequential;
    if exists b :: b in Flatten(c.batches) && k in b {
      var b :| b in Flatten(c.batches) && k in b;
      NothingMissingAt(c, start, s, b, k);
      PlannedKeyIsRightIff(c, start, s, b, k);
    } else {
      UnplannedKeyIsUntouched(c, start, s, k);
    }
  }

  lemma MissingShows(c: Config, start: Store, s: State, i: nat, k: Key)
    requires Inv(c, start, s) && Compatible(c) && s.store == Sequential(c, start) && LeftOut(s, i, k)
    ensures MadeUpFor(start, s, k, s.tried[i][k])
  {
    assert s.tried[i] in s.tried;
    PlannedKeyIsRightIff(c, start, s, s.tried[i], k);
  }

  /** What a completed and drained backfill leaves, exactly: the store of the sequential one if and only if every
      key that some write left out was stored by another write or was there with its value from the start. */
  lemma FinishedBackfillIsSequentialIff(c: Config, states: seq<State>, steps: seq<Step>, i: nat)
    requires IsRun(c, states, steps) && i < |states| && Compatible(c) && Finished(c, states[i])
    ensures states[i].store == Sequential(c, states[0].store) <==> NothingMissing(states[0].store, states[i])
  {
    var start, s := states[0].store, states[i];
    RunInv(c, states, steps, i);
    hide Inv, Finished, Compatible, Sequential, IsRun, MadeUpFor, LeftOut;
    if NothingMissing(start, s) {
      forall k: Key
        ensures k in s.store <==> k in Sequential(c, start)
        ensures k in s.store ==> s.store[k] == Sequential(c, start)[k]
      {
        FinishedStoreAt(c, start, s, k);
      }
    }
    if s.store == Sequential(c, start) {
      forall j: nat, k | LeftOut(s, j, k)
        ensures MadeUpFor(start, s, k, s.tried[j][k])
      {
        MissingShows(c, start, s, j, k);
      }
    }
  }

  /** Concurrent backfill refines sequential backfill: whatever the interleaving, the retries and the
      batches submitted twice, once every range is completed, no write has failed and the write queue
      has drained, the store is the one that processing the ranges one by one leaves. */
  lemma CompletedBackfillIsSequential(c: Config, states: seq<State>, steps: seq<Step>, i: nat)
    requires IsRun(c, states, steps) && i < |states| && Compatible(c) && c.clientReady
    requires states[i].completedRanges >= Total(c) && states[i].failedWrites == 0
    requires states[i].requests == [] && !states[i].writer.Writing?
    ensures states[i].store == Sequential(c, states[0].store)
  {
    FinishedBackfillIsSequentialIff(c, states, steps, i);
    RunInv(c, states, steps, i);
    assert states[i].effects == states[i].tried;
  }

  /** Where a value in the store comes from. */
  ghost predicate Sourced(c: Config, start: Store, k: Key, v: Value) {
    || (k in start && start[k] == v)
    || exists b :: b in Flatten(c.batches) && k in b && b[k] == v
  }

  lemma {:induction false} AppliedIsSourced(c: Config, start: Store, effects: seq<Store>)
    requires forall e :: e in effects ==> FromPlan(c, e)
    ensures forall k :: k in Apply(start, effects) ==> Sourced(c, start, k, Apply(start, effects)[k])
    ensures forall k :: k in start ==> k in Apply(start, effects)
    decreases |effects|
  {
    if effects != [] {
      var last := effects[|effects| - 1];
      AppliedIsSourced(c, start, effects[..|effects| - 1]);
      assert FromPlan(c, last);
    }
  }

  /** In every state of every run the store holds what it held at the start, with values out of the
      plan over it and beside it, and nothing else; failed and repeated writes included. */
  lemma StoreStaysInsideThePlan(c: Config, states: seq<State>, steps: seq<Step>, i: nat)
    requires IsRun(c, states, steps) && i < |states|
    ensures forall k :: k in states[0].store ==> k in states[i].store
    ensures forall k :: k in states[i].store ==> Sourced(c, states[0].store, k, states[i].store[k])
  {
    RunInv(c, states, steps, i);
    AppliedIsSourced(c, states[0].store, states[i].effects);
  }

  /** Without a database client a run stores nothing and still counts every write as a success. */
  lemma {:induction false} NoClientStoresNothing(c: Config, states: seq<State>, steps: seq<Step>, i: nat)
    requires IsRun(c, states, steps) && i < |states| && !c.clientReady
    ensures states[i].store == states[0].store && states[i].failedWrites == 0
    decreases i
  {
    if i > 0 {
      NoClientStoresNothing(c, states, steps, i - 1);
      var s, step := states[i - 1], steps[i - 1];
      match step {
        case Work(w, action) => { WorkKeepsWriter(c, s, s.workers[w], action); }
        case _ => {}
      }
      hide WorkerAfter, QueuesAfter, CanWork;
    }
  }

  // ---------------------------------------------------------------- stopping

  /** How many ranges worker w takes from the i-th step on. */
  function Takes(steps: seq<Step>, w: nat, i: nat): nat
    requires i <= |steps|
    decreases |steps| - i
  {
    if i == |steps| then 0 else (if steps[i] == Work(w, Get) then 1 else 0) + Takes(steps, w, i + 1)
  }

  /** After a shutdown a worker takes at most one more range, and that only if it was asking for one already. */
  lemma {:induction false} ShutdownEndsTaking(c: Config, states: seq<State>, steps: seq<Step>, w: nat, i: nat)
    requires IsRun(c, states, steps) && i < |states| && states[i].shutdown && w < |states[i].workers|
    ensures Takes(steps, w, i) <= if states[i].workers[w].Asking? then 1 else 0
    decreases |steps| - i
  {
    if i < |steps| {
      StepUnderShutdown(c, states[i], steps[i], w);
      hide Next, Enabled;
      ShutdownEndsTaking(c, states, steps, w, i + 1);
    }
  }

  lemma {:induction false} StepUnderShutdown(c: Config, s: State, step: Step, w: nat)
    requires Enabled(c, s, step) && s.shutdown && w < |s.workers|
    ensures var t := Next(c, s, step);
            && t.shutdown && |t.workers| == |s.workers|
            && (step == Work(w, Get) ==> s.workers[w].Asking? && !t.workers[w].Asking?)
            && (t.workers[w].Asking? ==> s.workers[w].Asking?)
  {
    match step {
      case Work(v, action) =>
        hide QueuesAfter, Full;
        QueuesKeepFlags(c, s, s.workers[v], action);
      case Write(action) =>
      case Shutdown =>
      case ShutdownWriter =>
    }
  }

  lemma {:induction false} QueuesKeepFlags(c: Config, s: State, x: Worker, action: WorkerAction)
    requires CanWork(c, s, x, action)
    ensures var t := QueuesAfter(c, s, x, action); t.shutdown == s.shutdown && t.workers == s.workers
  {
  }

  /** The writer ends only when it was told to, and nobody tells it before the shutdown. */
  lemma {:induction false} WriterStopsOnlyWhenTold(c: Config, states: seq<State>, steps: seq<Step>, i: nat)
    requires IsRun(c, states, steps) && i < |states|
    requires !states[0].writeShutdown
    ensures states[i].writer.Stopped? ==> states[i].writeShutdown
    ensures states[i].writeShutdown ==> states[i].shutdown
    decreases i
  {
    if i > 0 {
      WriterStopsOnlyWhenTold(c, states, steps, i - 1);
      StepTellsWriter(c, states[i - 1], steps[i - 1]);
    }
    hide Next, Enabled;
  }

  lemma {:induction false} StepTellsWriter(c: Config, s: State, step: Step)
    requires Enabled(c, s, step)
    requires (s.writer.Stopped? ==> s.writeShutdown) && (s.writeShutdown ==> s.shutdown)
    ensures var t := Next(c, s, step); (t.writer.Stopped? ==> t.writeShutdown) && (t.writeShutdown ==> t.shutdown)
  {
  }

  /** What the shutdown waits for before it stops the writer. */
  ghost predicate Drained(s: State) {
    && (forall w :: 0 <= w < |s.workers| ==> s.workers[w].Left?)
    && s.requests == [] && !s.writer.Writing?
  }

  lemma StepStaysDrained(c: Config, s: State, step: Step)
    requires Drained(s) && Enabled(c, s, step)
    ensures Drained(Next(c, s, step)) && Next(c, s, step).submitted == s.submitted
    ensures Next(c, s, step).store == s.store
  {
  }

  lemma DrainedIsCounted(c: Config, start: Store, s: State)
    requires Inv(c, start, s) && Drained(s)
    ensures s.totalWrites == s.submitted
  {
  }

  /** Once the workers have left and the write queue has drained, every batch ever submitted was tried,
      and nothing is submitted, tried or stored any more: stopping the writer then loses no write. */
  lemma {:induction false} DrainedIsFinal(c: Config, states: seq<State>, steps: seq<Step>, i: nat, j: nat)
    requires IsRun(c, states, steps) && i <= j < |states| && Drained(states[i])
    ensures Drained(states[j]) && states[j].totalWrites == states[j].submitted == states[i].submitted
    ensures states[j].store == states[i].store
    decreases j - i
  {
    hide Drained, Enabled, Next, Initial, Inv;
    RunInv(c, states, steps, j);
    if i < j {
      DrainedIsFinal(c, states, steps, i, j - 1);
      StepStaysDrained(c, states[j - 1], steps[j - 1]);
    }
    DrainedIsCounted(c, states[0].store, states[j]);
  }

  // ---------------------------------------------------------------- a failed write

  /** The run in which one worker completes one range whose only write raises, and leaves. */
  function LossyStep(i: nat): Step {
    if i == 0 then Work(0, Ask)
    else if i == 1 then Work(0, Get)
    else if i == 2 then Work(0, Submit)
    else if i == 3 then Work(0, Finish)
    else if i == 4 then Write(Poll)
    else if i == 5 then Write(Take)
    else if i == 6 then Write(WriteFails(map[]))
    else if i == 7 then Work(0, Ask)
    else if i == 8 then Work(0, GetTimesOut)
    else if i == 9 then Work(0, CheckComplete)
    else Work(0, CheckEmpty)
  }

  function LossyWorker(i: nat): Worker {
    if i == 0 then AtTop
    else if i == 1 then Asking
    else if i == 2 then Holding(Item(0, 0), 0, 0)
    else if i == 3 then Holding(Item(0, 0), 1, 0)
    else if i <= 7 then AtTop
    else if i == 8 then Asking
    else if i == 9 then GotNone
    else if i == 10 then SawComplete
    else Left
  }

  function LossyWriter(b: Store, i: nat): Writer {
    if i == 5 then Polling else if i == 6 then Writing(b) else AtLoop
  }

  function LossyState(b: Store, i: nat): State {
    State(
      if i <= 1 then [Item(0, 0)] else [], if i <= 3 then 0 else 1, [], [LossyWorker(i)], false,
      if 3 <= i <= 5 then [b] else [], if i <= 6 then 0 else 1, if i <= 6 then 0 else 1, LossyWriter(b, i), false,
      map[],
      if i <= 3 then [] else [0], [], [if i <= 1 then 0 else 1],
      if i <= 2 then 0 else 1, if i <= 6 then [] else [map[]],
      if i <= 6 then [] else [b])
  }

  lemma LossyRunSteps(c: Config, b: Store, i: nat)
    requires c.batches == [[b]] && c.clientReady && c.capacity == 0 && i < 11
    ensures Enabled(c, LossyState(b, i), LossyStep(i))
    ensures LossyState(b, i + 1) == Next(c, LossyState(b, i), LossyStep(i))
  {
    hide *;
    if i < 2 {
      LossyRunStarts(c, b, i);
    } else if i < 4 {
      LossyRunSubmits(c, b, i);
    } else if i < 7 {
      LossyRunWrites(c, b, i);
    } else {
      LossyRunLeaves(c, b, i);
    }
  }

  lemma LossyRunStarts(c: Config, b: Store, i: nat)
    requires c.batches == [[b]] && c.capacity == 0 && i < 2
    ensures Enabled(c, LossyState(b, i), LossyStep(i))
    ensures LossyState(b, i + 1) == Next(c, LossyState(b, i), LossyStep(i))
  {
  }

  lemma LossyRunSubmits(c: Config, b: Store, i: nat)
    requires c.batches == [[b]] && c.capacity == 0 && 2 <= i < 4
    ensures Enabled(c, LossyState(b, i), LossyStep(i))
    ensures LossyState(b, i + 1) == Next(c, LossyState(b, i), LossyStep(i))
  {
  }

  lemma LossyRunWrites(c: Config, b: Store, i: nat)
    requires c.clientReady && 4 <= i < 7
    ensures Enabled(c, LossyState(b, i), LossyStep(i))
    ensures LossyState(b, i + 1) == Next(c, LossyState(b, i), LossyStep(i))
  {
  }

  lemma LossyRunLeaves(c: Config, b: Store, i: nat)
    requires |c.batches| == 1 && 7 <= i < 11
    ensures Enabled(c, LossyState(b, i), LossyStep(i))
    ensures LossyState(b, i + 1) == Next(c, LossyState(b, i), LossyStep(i))
  {
  }

  /** A write that fails is not tried again: there is a run that completes every range at the first
      attempt, drains the write queue and lets the worker leave, and whose store misses the whole plan. */
  lemma FailedWriteIsNotRetried(c: Config, b: Store) returns (states: seq<State>, steps: seq<Step>)
    requires c.batches == [[b]] && c.clientReady && c.capacity == 0
    ensures IsRun(c, states, steps) && |states| == 12
    ensures var s := states[11];
            && s.completedRanges == Total(c) && s.attempts == [1] && Drained(s) && !s.shutdown
            && s.failedWrites == 1 && s.store == map[]
    ensures Sequential(c, states[0].store) == b
  {
    states := seq(12, i requires 0 <= i => LossyState(b, i));
    steps := seq(11, i requires 0 <= i => LossyStep(i));
    forall i | 0 <= i < 11
      ensures Enabled(c, states[i], steps[i]) && states[i + 1] == Next(c, states[i], steps[i])
    {
      LossyRunSteps(c, b, i);
    }
    LossyEnds(c, b);
    OneBatch(b);
    hide Enabled, Next, LossyStep;
  }

  lemma LossyEnds(c: Config, b: Store)
    requires c.batches == [[b]]
    ensures Initial(c, LossyState(b, 0)) && LossyState(b, 0).store == map[]
    ensures var s := LossyState(b, 11);
            && s.completedRanges == Total(c) && s.attempts == [1] && Drained(s) && !s.shutdown
            && s.failedWrites == 1 && s.store == map[]
  {
  }

  lemma OneBatch(b: Store)
    ensures Apply(map[], Flatten([[b]])) == b
  {
    assert Flatten([[b]]) == [b] + Flatten([]);
    assert Apply(map[], []) + b == b;
  }
}
