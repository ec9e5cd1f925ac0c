/**
 The backfill as a protocol (threading/coordinator.py): N workers take date ranges from one queue,
 stream the batches of each into a bounded write queue and one writer thread stores them. Every step
 is one atomic action of one thread, in any interleaving.
 */
module Backfill {
  import opened SegmentStore
  import opened DateRangeQueue

  const FCD_MAX_WRITE_RETRIES := 5

  /** batches[r]: what processing range r yields, in order; capacity 0 means unbounded;
      clientReady: the writer has a database client. */
  datatype Config = Config(batches: seq<seq<Store>>, maxRetries: nat, capacity: nat, clientReady: bool)

  datatype Item = Item(range: nat, retries: nat)

  /** Asking: the loop has seen no shutdown and waits for a range, shutdown or not. Holding: `next` batches of the
      range are submitted, `tries` attempts at the following one failed. */
  datatype Worker =
    | AtTop
    | Asking
    | GotNone
    | SawComplete
    | Holding(item: Item, next: nat, tries: nat)
    | Failing(item: Item)
    | Left

  datatype Writer = AtLoop | Polling | Writing(batch: Store) | Stopped

  /** The last six fields are history: the ranges completed and dead-lettered in order, how often each
      range was taken, how much was submitted, what was merged into the store in order,
      and the batches that the writer tried to store. */
  datatype State = State(
    waiting: seq<Item>, completedRanges: nat, deadLetters: seq<Item>,
    workers: seq<Worker>, shutdown: bool,
    requests: seq<Store>, totalWrites: nat, failedWrites: nat,
    writer: Writer, writeShutdown: bool,
    store: Store,
    completed: seq<nat>, dead: seq<Item>, attempts: seq<nat>, submitted: nat,
    effects: seq<Store>, tried: seq<Store>)

  datatype WorkerAction =
    | Ask | Get | GetTimesOut | CheckComplete | CheckEmpty | LeaveOnShutdown
    | Submit | SubmitTimesOut | Finish | Fail | Requeue | DeadLetter

  datatype WriterAction = Poll | Take | PollEnds | WriteSucceeds | WriteFails(partial: Store) | StopWriter

  datatype Step = Work(w: nat, action: WorkerAction) | Write(write: WriterAction) | Shutdown | ShutdownWriter

  function Total(c: Config): nat { |c.batches| }

  predicate Full(c: Config, s: State) {
    c.capacity > 0 && |s.requests| >= c.capacity
  }

  predicate HasNextBatch(c: Config, x: Worker) {
    x.Holding? && x.item.range < Total(c) && x.next < |c.batches[x.item.range]|
  }

  predicate HasNoMoreBatches(c: Config, x: Worker) {
    x.Holding? && x.item.range < Total(c) && x.next == |c.batches[x.item.range]|
  }

  /** A write that raised may have stored any part of its batch. */
  ghost predicate Part(part: Store, whole: Store) {
    forall k :: k in part ==> k in whole && part[k] == whole[k]
  }

  predicate CanWork(c: Config, s: State, x: Worker, action: WorkerAction) {
    match action
    case Ask => x.AtTop? && !s.shutdown
    case Get => x.Asking? && s.waiting != [] && s.waiting[0].range < |s.attempts|
    case GetTimesOut => x.Asking? && s.waiting == []
    case CheckComplete => x.GotNone?
    case CheckEmpty => x.SawComplete?
    case LeaveOnShutdown => x.AtTop? && s.shutdown
    case Submit => HasNextBatch(c, x) && !Full(c, s)
    case SubmitTimesOut => HasNextBatch(c, x) && Full(c, s)
    case Finish => HasNoMoreBatches(c, x)
    case Fail => x.Holding?
    case Requeue => x.Failing? && x.item.retries < c.maxRetries
    case DeadLetter => x.Failing? && x.item.retries >= c.maxRetries
  }

  ghost predicate CanWrite(c: Config, s: State, action: WriterAction) {
    match action
    case Poll => s.writer.AtLoop? && !s.writeShutdown
    case Take => s.writer.Polling? && s.requests != []
    case PollEnds => s.writer.Polling? && (s.requests == [] || s.writeShutdown)
    case WriteSucceeds => s.writer.Writing?
    case WriteFails(partial) => s.writer.Writing? && c.clientReady && Part(partial, s.writer.batch)
    case StopWriter => s.writer.AtLoop? && s.writeShutdown
  }

  ghost predicate Enabled(c: Config, s: State, step: Step) {
    match step
    case Work(w, action) => w < |s.workers| && CanWork(c, s, s.workers[w], action)
    case Write(action) => CanWrite(c, s, action)
    case Shutdown => true
    case ShutdownWriter => s.shutdown
  }

  /** Where the worker is after its action. */
  function WorkerAfter(c: Config, s: State, x: Worker, action: WorkerAction): Worker
    requires CanWork(c, s, x, action)
  {
    match action
    case Ask => Asking
    case Get => Holding(s.waiting[0], 0, 0)
    case GetTimesOut => GotNone
    case CheckComplete => if s.completedRanges >= Total(c) then SawComplete else AtTop
    case CheckEmpty => if s.waiting == [] then Left else AtTop
    case LeaveOnShutdown => Left
    case Submit => Holding(x.item, x.next + 1, 0)
    case SubmitTimesOut =>
      if x.tries + 1 >= FCD_MAX_WRITE_RETRIES then Failing(x.item) else x.(tries := x.tries + 1)
    case Finish => AtTop
    case Fail => Failing(x.item)
    case Requeue => AtTop
    case DeadLetter => AtTop
  }

  /** The two queues after a worker's action. */
  function QueuesAfter(c: Config, s: State, x: Worker, action: WorkerAction): State
    requires CanWork(c, s, x, action)
  {
    match action
    case Get =>
      var r := s.waiting[0].range;
      s.(waiting := s.waiting[1..], attempts := s.attempts[r := s.attempts[r] + 1])
    case Submit => s.(requests := s.requests + [c.batches[x.item.range][x.next]], submitted := s.submitted + 1)
    case Finish => s.(completedRanges := s.completedRanges + 1, completed := s.completed + [x.item.range])
    case Requeue => s.(waiting := s.waiting + [Item(x.item.range, x.item.retries + 1)])
    case DeadLetter => s.(deadLetters := BoundedAppend(s.deadLetters, x.item), dead := s.dead + [x.item])
    case _ => s
  }

  ghost function WriterAfter(c: Config, s: State, action: WriterAction): State
    requires CanWrite(c, s, action)
  {
    match action
    case Poll => s.(writer := Polling)
    case Take => s.(writer := Writing(s.requests[0]), requests := s.requests[1..])
    case PollEnds => s.(writer := AtLoop)
    case WriteSucceeds =>
      var effect := if c.clientReady then s.writer.batch else map[];
      s.(writer := AtLoop, totalWrites := s.totalWrites + 1,
         store := s.store + effect, effects := s.effects + [effect], tried := s.tried + [s.writer.batch])
    case WriteFails(partial) =>
      s.(writer := AtLoop, totalWrites := s.totalWrites + 1, failedWrites := s.failedWrites + 1,
         store := s.store + partial, effects := s.effects + [partial], tried := s.tried + [s.writer.batch])
    case StopWriter => s.(writer := Stopped)
  }

  ghost function Next(c: Config, s: State, step: Step): State
    requires Enabled(c, s, step)
  {
    match step
    case Work(w, action) =>
      var x := s.workers[w];
      QueuesAfter(c, s, x, action).(workers := s.workers[w := WorkerAfter(c, s, x, action)])
    case Write(action) => WriterAfter(c, s, action)
    case Shutdown => s.(shutdown := true)
    case ShutdownWriter => s.(writeShutdown := true)
  }

  /** The state in which the threads start: every range waiting once, nothing done. */
  ghost predicate Initial(c: Config, s: State) {
    && |s.waiting| == Total(c) && (forall i :: 0 <= i < Total(c) ==> s.waiting[i] == Item(i, 0))
    && s.completedRanges == 0 && s.deadLetters == [] && s.completed == [] && s.dead == []
    && (forall w :: 0 <= w < |s.workers| ==> s.workers[w] == AtTop)
    && s.requests == [] && s.totalWrites == 0 && s.failedWrites == 0 && s.writer == AtLoop
    && |s.attempts| == Total(c) && (forall r :: 0 <= r < Total(c) ==> s.attempts[r] == 0)
    && s.submitted == 0 && s.effects == [] && s.tried == []
  }

  ghost predicate IsRun(c: Config, states: seq<State>, steps: seq<Step>) {
    && |states| == |steps| + 1
    && Initial(c, states[0])
    && forall i :: 0 <= i < |steps| ==>
         Enabled(c, states[i], steps[i]) && states[i + 1] == Next(c, states[i], steps[i])
  }

  // ---------------------------------------------------------------- items in flight

  function HeldBy(x: Worker): seq<Item> {
    if x.Holding? || x.Failing? then [x.item] else []
  }

  function InFlight(workers: seq<Worker>): seq<Item> {
    if workers == [] then [] else HeldBy(workers[0]) + InFlight(workers[1..])
  }

  lemma Associative(a: seq<Item>, b: seq<Item>, c: seq<Item>)
    ensures (a + b) + c == a + (b + c)
  {
  }

  lemma {:induction false} InFlightConcat(a: seq<Worker>, b: seq<Worker>)
    ensures InFlight(a + b) == InFlight(a) + InFlight(b)
  {
    if a == [] {
      assert a + b == b;
    } else {
      InFlightConcat(a[1..], b);
      assert (a + b)[0] == a[0] && (a + b)[1..] == a[1..] + b;
      Associative(HeldBy(a[0]), InFlight(a[1..]), InFlight(b));
    }
  }

  /** Putting x in the place of worker w replaces its item and leaves the others. */
  lemma InFlightSplit(workers: seq<Worker>, w: nat, x: Worker)
    requires w < |workers|
    ensures InFlight(workers) == InFlight(workers[..w]) + HeldBy(workers[w]) + InFlight(workers[w + 1..])
    ensures InFlight(workers[w := x]) == InFlight(workers[..w]) + HeldBy(x) + InFlight(workers[w + 1..])
  {
    InFlightAt(workers, w);
    InFlightAt(workers[w := x], w);
    assert workers[w := x][..w] == workers[..w];
    assert workers[w := x][w + 1..] == workers[w + 1..];
  }

  lemma InFlightAt(workers: seq<Worker>, w: nat)
    requires w < |workers|
    ensures InFlight(workers) == InFlight(workers[..w]) + HeldBy(workers[w]) + InFlight(workers[w + 1..])
  {
    var front, back := workers[..w], workers[w..];
    assert workers == front + back;
    InFlightConcat(front, back);
    assert back[0] == workers[w] && back[1..] == workers[w + 1..];
    Associative(InFlight(front), HeldBy(workers[w]), InFlight(workers[w + 1..]));
    assert InFlight(back) == HeldBy(workers[w]) + InFlight(workers[w + 1..]);
    hide *;
  }

  lemma {:induction false} IdleHoldNothing(workers: seq<Worker>)
    requires forall w :: 0 <= w < |workers| ==> workers[w] == AtTop
    ensures InFlight(workers) == []
  {
    if workers != [] {
      IdleHoldNothing(workers[1..]);
    }
  }

  // ---------------------------------------------------------------- conservation of ranges

  function Ranges(items: seq<Item>): (r: seq<nat>)
    ensures |r| == |items|
  {
    seq(|items|, i requires 0 <= i < |items| => items[i].range)
  }

  function Names(items: seq<Item>): multiset<nat> { multiset(Ranges(items)) }

  lemma NamesConcat(a: seq<Item>, b: seq<Item>)
    ensures Names(a + b) == Names(a) + Names(b)
  {
    assert Ranges(a + b) == Ranges(a) + Ranges(b);
  }

  lemma NamesOfOne(x: Item)
    ensures Names([x]) == multiset{x.range}
  {
    assert Ranges([x]) == [x.range];
  }

  lemma Named(x: Item, items: seq<Item>)
    requires x in items
    ensures x.range in Names(items)
  {
    var i :| 0 <= i < |items| && items[i] == x;
    assert Ranges(items)[i] == x.range;
  }

  /** The ranges named outside the workers' hands. */
  function Listed(waiting: seq<Item>, completed: seq<nat>, dead: seq<Item>): multiset<nat> {
    Names(waiting) + multiset(completed) + Names(dead)
  }

  /** Every range named anywhere: waiting, completed, dead-lettered, in flight. */
  function Everywhere(s: State): multiset<nat> {
    Listed(s.waiting, s.completed, s.dead) + Names(InFlight(s.workers))
  }

  function Counting(n: nat): seq<nat> { seq(n, i => i) }

  lemma {:induction false} CountingOnce(n: nat, r: nat)
    ensures multiset(Counting(n))[r] == if r < n then 1 else 0
  {
    if n == 0 {
      assert Counting(0) == [];
    } else {
      CountingOnce(n - 1, r);
      assert Counting(n) == Counting(n - 1) + [n - 1];
    }
  }

  ghost predicate Conserved(c: Config, s: State) {
    && Everywhere(s) == multiset(Counting(Total(c)))
    && s.completedRanges == |s.completed|
    && |s.attempts| == Total(c)
    && s.deadLetters == Newest(s.dead)
  }

  /** What a bounded list keeps of everything ever appended to it. */
  function Newest(dead: seq<Item>): seq<Item> {
    if |dead| > DEAD_LETTER_QUEUE_MAX_SIZE then dead[|dead| - DEAD_LETTER_QUEUE_MAX_SIZE..] else dead
  }

  lemma NewestAppend(dead: seq<Item>, x: Item)
    ensures BoundedAppend(Newest(dead), x) == Newest(dead + [x])
  {
  }

  lemma InitialConserved(c: Config, s: State)
    requires Initial(c, s)
    ensures Conserved(c, s) && InFlight(s.workers) == []
  {
    IdleHoldNothing(s.workers);
    assert Ranges(s.waiting) == Counting(Total(c));
    assert Ranges(s.dead) == [];
    assert Ranges(InFlight(s.workers)) == [];
  }

  lemma InFlightNames(workers: seq<Worker>, w: nat, y: Worker) returns (others: multiset<nat>)
    requires w < |workers|
    ensures Names(InFlight(workers)) == others + Names(HeldBy(workers[w]))
    ensures Names(InFlight(workers[w := y])) == others + Names(HeldBy(y))
  {
    var a, b := InFlight(workers[..w]), InFlight(workers[w + 1..]);
    InFlightSplit(workers, w, y);
    hide *;
    others := Names(a) + Names(b);
    NamesConcat(a + HeldBy(workers[w]), b);
    NamesConcat(a, HeldBy(workers[w]));
    NamesConcat(a + HeldBy(y), b);
    NamesConcat(a, HeldBy(y));
  }

  lemma NamesOfNone()
    ensures Names([]) == multiset{}
  {
    assert Ranges([]) == [];
  }

  lemma TakeMoves(waiting: seq<Item>, completed: seq<nat>, dead: seq<Item>)
    requires waiting != []
    ensures Listed(waiting[1..], completed, dead) + Names([waiting[0]]) == Listed(waiting, completed, dead)
  {
    assert waiting == [waiting[0]] + waiting[1..];
    NamesConcat([waiting[0]], waiting[1..]);
    hide Names;
  }

  lemma PutBackMoves(waiting: seq<Item>, completed: seq<nat>, dead: seq<Item>, x: Item, y: Item)
    requires x.range == y.range
    ensures Listed(waiting + [y], completed, dead) == Listed(waiting, completed, dead) + Names([x])
    ensures Listed(waiting, completed + [x.range], dead) == Listed(waiting, completed, dead) + Names([x])
    ensures Listed(waiting, completed, dead + [x]) == Listed(waiting, completed, dead) + Names([x])
  {
    NamesConcat(waiting, [y]);
    NamesConcat(dead, [x]);
    NamesOfOne(x);
    NamesOfOne(y);
    hide Names;
  }

  /** What a worker holds and what is listed elsewhere, before and after its action, name the same ranges. */
  lemma ActionMoves(c: Config, s: State, x: Worker, action: WorkerAction)
    requires CanWork(c, s, x, action)
    ensures var t := QueuesAfter(c, s, x, action);
            Listed(t.waiting, t.completed, t.dead) + Names(HeldBy(WorkerAfter(c, s, x, action)))
            == Listed(s.waiting, s.completed, s.dead) + Names(HeldBy(x))
  {
    NamesOfNone();
    hide Names, Listed;
    if action.Get? {
      TakeMoves(s.waiting, s.completed, s.dead);
    } else if action.Finish? || action.DeadLetter? {
      PutBackMoves(s.waiting, s.completed, s.dead, x.item, x.item);
    } else if action.Requeue? {
      PutBackMoves(s.waiting, s.completed, s.dead, x.item, Item(x.item.range, x.item.retries + 1));
    }
  }

  lemma Exchange(others: multiset<nat>, held: multiset<nat>, held': multiset<nat>, listed: multiset<nat>,
                 listed': multiset<nat>)
    requires listed' + held' == listed + held
    ensures listed' + (others + held') == listed + (others + held)
  {
    forall r: nat
      ensures (listed' + (others + held'))[r] == (listed + (others + held))[r]
    {
      assert (listed' + held')[r] == (listed + held)[r];
    }
  }

  lemma WorkKeepsNames(c: Config, s: State, w: nat, action: WorkerAction)
    requires Enabled(c, s, Work(w, action))
    ensures Everywhere(Next(c, s, Work(w, action))) == Everywhere(s)
  {
    var x := s.workers[w];
    var y, q, t := WorkerAfter(c, s, x, action), QueuesAfter(c, s, x, action), Next(c, s, Work(w, action));
    assert t == q.(workers := s.workers[w := y]);
    ActionMoves(c, s, x, action);
    hide WorkerAfter, QueuesAfter, Names, HeldBy, InFlight, Next, Enabled, CanWork;
    var others := InFlightNames(s.workers, w, y);
    Exchange(others, Names(HeldBy(x)), Names(HeldBy(y)), Listed(s.waiting, s.completed, s.dead),
             Listed(q.waiting, q.completed, q.dead));
    assert Everywhere(t) == Listed(q.waiting, q.completed, q.dead) + (others + Names(HeldBy(y)));
  }

  lemma WriterKeepsWorkers(c: Config, s: State, action: WriterAction)
    requires CanWrite(c, s, action)
    ensures var t := WriterAfter(c, s, action);
            && t.waiting == s.waiting && t.completedRanges == s.completedRanges && t.deadLetters == s.deadLetters
            && t.workers == s.workers && t.completed == s.completed && t.dead == s.dead && t.attempts == s.attempts
            && t.shutdown == s.shutdown && t.submitted == s.submitted
  {
  }

  lemma ActionKeepsCounts(c: Config, s: State, x: Worker, action: WorkerAction)
    requires CanWork(c, s, x, action)
    requires s.completedRanges == |s.completed| && s.deadLetters == Newest(s.dead)
    ensures var t := QueuesAfter(c, s, x, action);
            && t.completedRanges == |t.completed| && |t.attempts| == |s.attempts|
            && t.deadLetters == Newest(t.dead)
  {
    if action.DeadLetter? {
      NewestAppend(s.dead, x.item);
    }
  }

  lemma StepConserved(c: Config, s: State, step: Step)
    requires Conserved(c, s) && Enabled(c, s, step)
    ensures Conserved(c, Next(c, s, step))
  {
    match step {
      case Work(w, action) => {
        WorkKeepsNames(c, s, w, action);
        ActionKeepsCounts(c, s, s.workers[w], action);
        hide Everywhere, Newest, WorkerAfter, QueuesAfter, Counting;
      }
      case Write(action) => {
        WriterKeepsWorkers(c, s, action);
        hide Names, InFlight, WriterAfter, Counting, Newest;
      }
      case _ => {}
    }
  }

  // ---------------------------------------------------------------- attempts

  predicate Fits(c: Config, attempts: seq<nat>, x: Item, taken: int) {
    x.range < Total(c) == |attempts| && x.retries <= c.maxRetries && attempts[x.range] == taken
  }

  predicate DoneFits(c: Config, attempts: seq<nat>, r: nat) {
    r < Total(c) == |attempts| && 1 <= attempts[r] <= c.maxRetries + 1
  }

  /** How often each range was taken, read off its item: an item waiting for its k-th retry was taken
      k times, one in flight once more. */
  ghost predicate ListsFit(c: Config, s: State) {
    && |s.attempts| == Total(c)
    && (forall x :: x in s.waiting ==> Fits(c, s.attempts, x, x.retries))
    && (forall x :: x in s.dead ==> Fits(c, s.attempts, x, c.maxRetries + 1) && x.retries == c.maxRetries)
    && (forall r :: r in s.completed ==> DoneFits(c, s.attempts, r))
  }

  ghost predicate HeldFit(c: Config, attempts: seq<nat>, held: seq<Item>) {
    forall x :: x in held ==> Fits(c, attempts, x, x.retries + 1)
  }

  ghost predicate AttemptsCounted(c: Config, s: State) {
    ListsFit(c, s) && HeldFit(c, s.attempts, InFlight(s.workers))
  }

  lemma HeldIsInFlight(workers: seq<Worker>, w: nat)
    requires w < |workers| && HeldBy(workers[w]) != []
    ensures HeldBy(workers[w])[0] in InFlight(workers)
  {
    InFlightAt(workers, w);
  }

  lemma InFlightMembers(workers: seq<Worker>, w: nat, y: Worker)
    requires w < |workers|
    ensures forall x :: x in InFlight(workers[w := y]) ==> x in InFlight(workers) || x in HeldBy(y)
  {
    InFlightSplit(workers, w, y);
    hide *;
  }

  /** The range at the head of the queue is named nowhere else. */
  lemma HeadIsNamedOnce(c: Config, s: State)
    requires Conserved(c, s) && s.waiting != []
    ensures var r := s.waiting[0].range;
            && r < Total(c)
            && (forall x :: x in s.waiting[1..] || x in InFlight(s.workers) || x in s.dead ==> x.range != r)
            && r !in s.completed
  {
    var r := s.waiting[0].range;
    var rest := s.waiting[1..];
    TakeMoves(s.waiting, s.completed, s.dead);
    NamesOfOne(s.waiting[0]);
    CountingOnce(Total(c), r);
    assert Everywhere(s)[r] <= 1;
    assert (Listed(rest, s.completed, s.dead) + Names(InFlight(s.workers)))[r] + 1 == Everywhere(s)[r];
    forall x | x in rest || x in InFlight(s.workers) || x in s.dead
      ensures x.range != r
    {
      if x in rest { Named(x, rest); }
      if x in InFlight(s.workers) { Named(x, InFlight(s.workers)); }
      if x in s.dead { Named(x, s.dead); }
    }
  }

  lemma GetCounts(c: Config, s: State, w: nat)
    requires Conserved(c, s) && AttemptsCounted(c, s) && Enabled(c, s, Work(w, Get))
    ensures AttemptsCounted(c, Next(c, s, Work(w, Get)))
  {
    HeadIsNamedOnce(c, s);
    InFlightMembers(s.workers, w, Holding(s.waiting[0], 0, 0));
    hide InFlight, Conserved;
  }

  lemma ActionFits(c: Config, s: State, x: Worker, action: WorkerAction)
    requires CanWork(c, s, x, action) && !action.Get?
    requires ListsFit(c, s) && HeldFit(c, s.attempts, HeldBy(x))
    ensures var t := QueuesAfter(c, s, x, action);
            && t.attempts == s.attempts && ListsFit(c, t)
            && HeldFit(c, t.attempts, HeldBy(WorkerAfter(c, s, x, action)))
  {
    if HeldBy(x) != [] {
      assert Fits(c, s.attempts, x.item, x.item.retries + 1);
    }
    hide BoundedAppend, HasNextBatch, Full;
  }

  lemma HeldFitUpdates(c: Config, attempts: seq<nat>, workers: seq<Worker>, w: nat, y: Worker)
    requires w < |workers| && HeldFit(c, attempts, InFlight(workers))
    ensures HeldFit(c, attempts, HeldBy(workers[w]))
    ensures HeldFit(c, attempts, HeldBy(y)) ==> HeldFit(c, attempts, InFlight(workers[w := y]))
  {
    InFlightMembers(workers, w, y);
    InFlightAt(workers, w);
    hide InFlight, HeldBy, Fits;
  }

  lemma ListsFitIgnoresWorkers(c: Config, s: State, workers: seq<Worker>)
    requires ListsFit(c, s)
    ensures ListsFit(c, s.(workers := workers))
  {
    hide Fits, DoneFits;
  }

  lemma WorkCounts(c: Config, s: State, w: nat, action: WorkerAction)
    requires AttemptsCounted(c, s) && Enabled(c, s, Work(w, action)) && !action.Get?
    ensures AttemptsCounted(c, Next(c, s, Work(w, action)))
  {
    var x := s.workers[w];
    var y, q := WorkerAfter(c, s, x, action), QueuesAfter(c, s, x, action);
    HeldFitUpdates(c, s.attempts, s.workers, w, y);
    ActionFits(c, s, x, action);
    ListsFitIgnoresWorkers(c, q, s.workers[w := y]);
    assert Next(c, s, Work(w, action)) == q.(workers := s.workers[w := y]);
    hide InFlight, WorkerAfter, QueuesAfter, CanWork, HeldBy, ListsFit, HeldFit;
  }

  lemma StepCounts(c: Config, s: State, step: Step)
    requires Conserved(c, s) && AttemptsCounted(c, s) && Enabled(c, s, step)
    ensures AttemptsCounted(c, Next(c, s, step))
  {
    match step {
      case Work(w, action) => {
        if action.Get? { GetCounts(c, s, w); } else { WorkCounts(c, s, w, action); }
      }
      case Write(action) => {
        WriterKeepsWorkers(c, s, action);
        hide WriterAfter, InFlight;
      }
      case _ => {}
    }
  }

  // ---------------------------------------------------------------- attempts run out

  /** The attempts that open items still have, the current one included. */
  function Cost(maxRetries: nat, items: seq<Item>): nat {
    if items == [] then 0 else
      var left := if items[0].retries <= maxRetries then maxRetries + 1 - items[0].retries else 0;
      left + Cost(maxRetries, items[1..])
  }

  lemma {:induction false} CostConcat(m: nat, a: seq<Item>, b: seq<Item>)
    ensures Cost(m, a + b) == Cost(m, a) + Cost(m, b)
  {
    if a == [] {
      assert a + b == b;
    } else {
      CostConcat(m, a[1..], b);
      assert (a + b)[0] == a[0] && (a + b)[1..] == a[1..] + b;
    }
  }

  function Remaining(c: Config, s: State): nat {
    Cost(c.maxRetries, s.waiting) + Cost(c.maxRetries, InFlight(s.workers))
  }

  /** The end of an attempt. */
  predicate IsOutcome(step: Step) {
    step.Work? && (step.action.Finish? || step.action.Requeue? || step.action.DeadLetter?)
  }

  lemma InFlightCost(m: nat, workers: seq<Worker>, w: nat, y: Worker) returns (others: nat)
    requires w < |workers|
    ensures Cost(m, InFlight(workers)) == others + Cost(m, HeldBy(workers[w]))
    ensures Cost(m, InFlight(workers[w := y])) == others + Cost(m, HeldBy(y))
  {
    var a, b := InFlight(workers[..w]), InFlight(workers[w + 1..]);
    InFlightSplit(workers, w, y);
    hide *;
    others := Cost(m, a) + Cost(m, b);
    CostConcat(m, a + HeldBy(workers[w]), b);
    CostConcat(m, a, HeldBy(workers[w]));
    CostConcat(m, a + HeldBy(y), b);
    CostConcat(m, a, HeldBy(y));
  }

  lemma ActionCost(c: Config, s: State, x: Worker, action: WorkerAction)
    requires CanWork(c, s, x, action) && (x.Holding? || x.Failing? ==> x.item.retries <= c.maxRetries)
    ensures var m := c.maxRetries;
            var was := Cost(m, s.waiting) + Cost(m, HeldBy(x));
            var left := Cost(m, QueuesAfter(c, s, x, action).waiting) + Cost(m, HeldBy(WorkerAfter(c, s, x, action)));
            if action.Finish? || action.Requeue? || action.DeadLetter? then left < was else left == was
  {
    if action.Get? {
      assert s.waiting == [s.waiting[0]] + s.waiting[1..];
      CostConcat(c.maxRetries, [s.waiting[0]], s.waiting[1..]);
    } else if action.Requeue? {
      CostConcat(c.maxRetries, s.waiting, [Item(x.item.range, x.item.retries + 1)]);
    }
  }

  /** Every outcome uses up at least one remaining attempt; no other step changes their number. */
  lemma OutcomeUsesAnAttempt(c: Config, s: State, step: Step)
    requires AttemptsCounted(c, s) && Enabled(c, s, step)
    ensures IsOutcome(step) ==> Remaining(c, Next(c, s, step)) < Remaining(c, s)
    ensures !IsOutcome(step) ==> Remaining(c, Next(c, s, step)) == Remaining(c, s)
  {
    match step {
      case Work(w, action) => {
        var x := s.workers[w];
        if HeldBy(x) != [] {
          HeldIsInFlight(s.workers, w);
        }
        ActionCost(c, s, x, action);
        var y, q := WorkerAfter(c, s, x, action), QueuesAfter(c, s, x, action);
        assert Next(c, s, step) == q.(workers := s.workers[w := y]);
        var others := InFlightCost(c.maxRetries, s.workers, w, y);
        hide InFlight, HeldBy, Cost, WorkerAfter, QueuesAfter, CanWork;
      }
      case Write(action) => {
        WriterKeepsWorkers(c, s, action);
      }
      case _ => {}
    }
  }

  // ---------------------------------------------------------------- leaving and writing

  /** A worker that saw the completion counter full, or left without shutdown, left nothing undone. */
  ghost predicate LeavesWhenDone(c: Config, s: State) {
    forall w :: 0 <= w < |s.workers| ==>
      && (s.workers[w].SawComplete? ==> s.completedRanges >= Total(c))
      && (s.workers[w].Left? ==> s.shutdown || s.completedRanges >= Total(c))
  }

  /** Every submitted batch is queued, being written, or counted as a write. */
  ghost predicate WritesCounted(c: Config, s: State) {
    && s.submitted == |s.requests| + (if s.writer.Writing? then 1 else 0) + s.totalWrites
    && s.totalWrites == |s.effects| && s.failedWrites <= s.totalWrites
    && (c.capacity > 0 ==> |s.requests| <= c.capacity)
  }

  lemma StepLeavesWhenDone(c: Config, s: State, step: Step)
    requires LeavesWhenDone(c, s) && Enabled(c, s, step)
    ensures LeavesWhenDone(c, Next(c, s, step))
  {
    if step.Write? {
      WriterKeepsWorkers(c, s, step.write);
      hide WriterAfter;
    }
    hide BoundedAppend, HasNextBatch, HasNoMoreBatches;
  }

  lemma WorkKeepsWriter(c: Config, s: State, x: Worker, action: WorkerAction)
    requires CanWork(c, s, x, action)
    ensures var t := QueuesAfter(c, s, x, action);
            && t.writer == s.writer && t.store == s.store && t.effects == s.effects && t.tried == s.tried
            && t.totalWrites == s.totalWrites && t.failedWrites == s.failedWrites
            && if action.Submit? then
                 && !Full(c, s) && HasNextBatch(c, x) && t.submitted == s.submitted + 1
                 && t.requests == s.requests + [c.batches[x.item.range][x.next]]
               else
                 t.submitted == s.submitted && t.requests == s.requests
  {
  }

  lemma StepWritesCounted(c: Config, s: State, step: Step)
    requires WritesCounted(c, s) && Enabled(c, s, step)
    ensures WritesCounted(c, Next(c, s, step))
  {
    match step {
      case Work(w, action) => {
        WorkKeepsWriter(c, s, s.workers[w], action);
        hide WorkerAfter, QueuesAfter, CanWork;
      }
      case _ => {}
    }
  }

  // ---------------------------------------------------------------- the store

  function Flatten(batches: seq<seq<Store>>): seq<Store> {
    if batches == [] then [] else batches[0] + Flatten(batches[1..])
  }

  /** Merging batches into a store one after the other, later values winning. */
  function Apply(db: Store, effects: seq<Store>): Store {
    if effects == [] then db else Apply(db, effects[..|effects| - 1]) + effects[|effects| - 1]
  }

  /** The store after processing the ranges one by one, in order, each once. */
  function Sequential(c: Config, db: Store): Store {
    Apply(db, Flatten(c.batches))
  }

  /** Equal keys have equal values in all batches. */
  ghost predicate Compatible(c: Config) {
    forall b, d, k :: b in Flatten(c.batches) && d in Flatten(c.batches) && k in b && k in d ==> b[k] == d[k]
  }

  lemma {:induction false} BatchIsPlanned(batches: seq<seq<Store>>, r: nat, j: nat)
    requires r < |batches| && j < |batches[r]|
    ensures batches[r][j] in Flatten(batches)
  {
    if r > 0 {
      BatchIsPlanned(batches[1..], r - 1, j);
    }
  }

  lemma {:induction false} PlannedBatchIsIn(batches: seq<seq<Store>>, b: Store) returns (r: nat, j: nat)
    requires b in Flatten(batches)
    ensures r < |batches| && j < |batches[r]| && batches[r][j] == b
  {
    if b in batches[0] {
      r := 0;
      j :| 0 <= j < |batches[0]| && batches[0][j] == b;
    } else {
      r, j := PlannedBatchIsIn(batches[1..], b);
      r := r + 1;
    }
  }

  ghost predicate FromPlan(c: Config, e: Store) {
    exists b :: b in Flatten(c.batches) && Part(e, b)
  }

  /** Of every batch tried, the store got a part. */
  ghost predicate TriedParts(effects: seq<Store>, tried: seq<Store>) {
    |effects| == |tried| && forall i :: 0 <= i < |tried| ==> Part(effects[i], tried[i])
  }

  /** The store is what the writer merged into it, all of it out of the plan. */
  ghost predicate StoreFromPlan(c: Config, start: Store, s: State) {
    && s.store == Apply(start, s.effects)
    && (forall e :: e in s.effects ==> FromPlan(c, e))
    && TriedParts(s.effects, s.tried) && (forall b :: b in s.tried ==> b in Flatten(c.batches))
    && (c.clientReady && s.failedWrites == 0 ==> s.effects == s.tried)
    && (forall q :: q in s.requests ==> q in Flatten(c.batches))
    && (s.writer.Writing? ==> s.writer.batch in Flatten(c.batches))
  }

  lemma ApplySnoc(db: Store, effects: seq<Store>, e: Store)
    ensures Apply(db, effects + [e]) == Apply(db, effects) + e
  {
    assert (effects + [e])[..|effects|] == effects;
  }

  lemma TriedPartsSnoc(effects: seq<Store>, tried: seq<Store>, e: Store, b: Store)
    requires TriedParts(effects, tried) && Part(e, b)
    ensures TriedParts(effects + [e], tried + [b])
  {
    hide Part;
  }

  /** A write, whole or in part, of the batch in hand. */
  ghost predicate Wrote(c: Config, s: State, t: State, e: Store) {
    && s.writer.Writing? && Part(e, s.writer.batch)
    && t.store == s.store + e && t.effects == s.effects + [e] && t.tried == s.tried + [s.writer.batch]
    && t.requests == s.requests && t.writer == AtLoop
    && (c.clientReady && t.failedWrites == 0 ==> s.failedWrites == 0 && e == s.writer.batch)
  }

  lemma WriteIsWrote(c: Config, s: State, action: WriterAction) returns (e: Store)
    requires CanWrite(c, s, action) && (action.WriteSucceeds? || action.WriteFails?)
    ensures Wrote(c, s, WriterAfter(c, s, action), e)
  {
    e := if action.WriteFails? then action.partial else if c.clientReady then s.writer.batch else map[];
  }

  lemma WroteFromPlan(c: Config, start: Store, s: State, t: State, e: Store)
    requires StoreFromPlan(c, start, s) && Wrote(c, s, t, e)
    ensures StoreFromPlan(c, start, t)
  {
    assert FromPlan(c, e);
    hide Part, Flatten, FromPlan, Apply, TriedParts;
    ApplySnoc(start, s.effects, e);
    TriedPartsSnoc(s.effects, s.tried, e, s.writer.batch);
  }

  lemma WriterStoreFromPlan(c: Config, start: Store, s: State, action: WriterAction)
    requires StoreFromPlan(c, start, s) && CanWrite(c, s, action)
    ensures StoreFromPlan(c, start, WriterAfter(c, s, action))
  {
    hide Part, Flatten, FromPlan, Apply, TriedParts;
    if action.WriteSucceeds? || action.WriteFails? {
      var e := WriteIsWrote(c, s, action);
      WroteFromPlan(c, start, s, WriterAfter(c, s, action), e);
    }
  }

  lemma StepStoreFromPlan(c: Config, start: Store, s: State, step: Step)
    requires StoreFromPlan(c, start, s) && Enabled(c, s, step)
    ensures StoreFromPlan(c, start, Next(c, s, step))
  {
    match step {
      case Work(w, action) => {
        WorkKeepsWriter(c, s, s.workers[w], action);
        if action.Submit? {
          BatchIsPlanned(c.batches, s.workers[w].item.range, s.workers[w].next);
        }
        hide Flatten, FromPlan, Apply, WorkerAfter, QueuesAfter, CanWork;
      }
      case Write(action) => {
        WriterStoreFromPlan(c, start, s, action);
      }
      case _ => {}
    }
  }

  /** Queued, being written, or tried. */
  ghost predicate Accounted(s: State, b: Store) {
    b in s.requests || s.writer == Writing(b) || b in s.tried
  }

  ghost predicate WorkerAccounted(c: Config, s: State, x: Worker) {
    x.Holding? ==>
      x.item.range < Total(c) && x.next <= |c.batches[x.item.range]|
      && forall j :: 0 <= j < x.next ==> Accounted(s, c.batches[x.item.range][j])
  }

  ghost predicate RangeAccounted(c: Config, s: State, r: nat) {
    r < Total(c) && forall j :: 0 <= j < |c.batches[r]| ==> Accounted(s, c.batches[r][j])
  }

  /** Nothing submitted is lost before the writer has tried to store it. */
  ghost predicate NothingLost(c: Config, s: State) {
    && (forall w :: 0 <= w < |s.workers| ==> WorkerAccounted(c, s, s.workers[w]))
    && (forall r :: r in s.completed ==> RangeAccounted(c, s, r))
  }

  lemma AccountedWhenWorking(c: Config, s: State, w: nat, action: WorkerAction, b: Store)
    requires Enabled(c, s, Work(w, action)) && Accounted(s, b)
    ensures Accounted(Next(c, s, Work(w, action)), b)
  {
    WorkKeepsWriter(c, s, s.workers[w], action);
    hide WorkerAfter, QueuesAfter, CanWork;
  }

  lemma AccountedWhenWriting(c: Config, s: State, action: WriterAction, b: Store)
    requires CanWrite(c, s, action) && Accounted(s, b)
    ensures Accounted(WriterAfter(c, s, action), b)
  {
    if action.Take? && b in s.requests && b != s.requests[0] {
      assert b in s.requests[1..];
    }
    hide Part;
  }

  lemma AccountedStays(c: Config, s: State, step: Step, b: Store)
    requires Enabled(c, s, step) && Accounted(s, b)
    ensures Accounted(Next(c, s, step), b)
  {
    match step {
      case Work(w, action) => { AccountedWhenWorking(c, s, w, action, b); }
      case Write(action) => { AccountedWhenWriting(c, s, action, b); }
      case _ => {}
    }
    hide WorkerAfter, QueuesAfter, CanWork, WriterAfter, CanWrite;
  }

  lemma WorkerStaysAccounted(c: Config, s: State, w: nat, action: WorkerAction)
    requires Enabled(c, s, Work(w, action)) && AttemptsCounted(c, s)
    requires WorkerAccounted(c, s, s.workers[w])
    requires forall b :: Accounted(s, b) ==> Accounted(Next(c, s, Work(w, action)), b)
    ensures WorkerAccounted(c, Next(c, s, Work(w, action)), Next(c, s, Work(w, action)).workers[w])
  {
    var x, t := s.workers[w], Next(c, s, Work(w, action));
    if action.Submit? {
      assert Accounted(t, c.batches[x.item.range][x.next]);
    }
    hide Accounted;
  }

  lemma WorkersStayAccounted(c: Config, s: State, step: Step, w: nat)
    requires NothingLost(c, s) && AttemptsCounted(c, s) && Enabled(c, s, step)
    requires w < |s.workers|
    requires forall b :: Accounted(s, b) ==> Accounted(Next(c, s, step), b)
    ensures w < |Next(c, s, step).workers| && WorkerAccounted(c, Next(c, s, step), Next(c, s, step).workers[w])
  {
    assert WorkerAccounted(c, s, s.workers[w]);
    if step.Work? && step.w == w {
      WorkerStaysAccounted(c, s, w, step.action);
    } else if step.Write? {
      WriterKeepsWorkers(c, s, step.write);
    }
    hide Accounted, WorkerAfter, QueuesAfter, CanWork, WriterAfter, CanWrite;
  }

  lemma RangesStayAccounted(c: Config, s: State, step: Step, r: nat)
    requires NothingLost(c, s) && Enabled(c, s, step)
    requires forall b :: Accounted(s, b) ==> Accounted(Next(c, s, step), b)
    requires r in Next(c, s, step).completed
    ensures RangeAccounted(c, Next(c, s, step), r)
  {
    hide Accounted;
    if r in s.completed {
      assert RangeAccounted(c, s, r);
    } else {
      if step.Write? {
        WriterKeepsWorkers(c, s, step.write);
      }
      assert WorkerAccounted(c, s, s.workers[step.w]);
    }
  }

  lemma StepNothingLost(c: Config, s: State, step: Step)
    requires NothingLost(c, s) && AttemptsCounted(c, s) && Enabled(c, s, step)
    ensures NothingLost(c, Next(c, s, step))
  {
    var t := Next(c, s, step);
    WorkersRemain(c, s, step);
    forall b | Accounted(s, b)
      ensures Accounted(t, b)
    {
      AccountedStays(c, s, step, b);
    }
    forall w | 0 <= w < |t.workers|
      ensures WorkerAccounted(c, t, t.workers[w])
    {
      WorkersStayAccounted(c, s, step, w);
    }
    forall r | r in t.completed
      ensures RangeAccounted(c, t, r)
    {
      RangesStayAccounted(c, s, step, r);
    }
    hide Next, Enabled, Accounted, WorkerAccounted, RangeAccounted;
  }

  lemma WorkersRemain(c: Config, s: State, step: Step)
    requires Enabled(c, s, step)
    ensures |s.workers| == |Next(c, s, step).workers|
  {
    match step {
      case Work(w, action) => { WorkKeepsWriter(c, s, s.workers[w], action); }
      case Write(action) => { WriterKeepsWorkers(c, s, action); }
      case _ => {}
    }
    hide WorkerAfter, QueuesAfter, CanWork, Part;
  }
}
