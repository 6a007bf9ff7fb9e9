/**
 The deferred batch processor as a step system: several batches, one shared queue, a pool of
 workers in explicit program positions, and a possible failure at every await. One step is what
 runs between two awaits; delivering a result is part of one step.
 */
module BatchModel {
  import opened Wrappers
  import Tokens = ChunkSemaphore

  type DocId = nat

  datatype DocumentResult = DocumentResult(doc: DocId, success: bool, skipped: bool)

  /** One call of a batch's result callback. */
  datatype Delivery = Delivery(completed: int, total: int, result: DocumentResult)

  /**
   A batch handle together with its registration. `docs` are the documents counted in the batch,
   `stranded` those a failed submission never queued, `permits` what is left of its own semaphore.
   */
  datatype Batch = Batch(
    docs: multiset<DocId>,
    stranded: multiset<DocId>,
    total: int,
    completed: int,
    failed: int,
    remaining: int,
    done: bool,
    seen: seq<Delivery>,
    maxConcurrent: int,
    permits: int)

  /**
   How a document will be processed: the sizes of its chunk windows, and whether its parameters limit
   the chunks in flight.
   */
  datatype Plan = Plan(windows: seq<nat>, limited: bool)

  /** A queued document identity; orphans belong to no batch. */
  datatype Item = Item(doc: DocId, batch: Option<nat>, plan: Plan)

  /**
   Where a worker is. All but the first hold an item; within the engine `rest` are the windows still
   to process, the first of them being the current one while tokens are awaited or held, and `guarded`
   says whether the engine was handed the chunk semaphore.
   */
  datatype Worker =
    | Idle
    | Loading(item: Item)
    | AwaitingPermit(item: Item)
    | Preparing(item: Item)
    | Processing(item: Item, rest: seq<nat>, guarded: bool)
    | AwaitingTokens(item: Item, rest: seq<nat>)
    | InWindow(item: Item, rest: seq<nat>, guarded: bool, tokens: nat)
    | RecordingFailure(item: Item)
    | FallingBack(item: Item)

  /** `capacity` is that of the chunk semaphore, if one has been created, `inFlight` the tokens it has out. */
  datatype State = State(batches: seq<Batch>, queue: seq<Item>, workers: seq<Worker>, capacity: Option<nat>, inFlight: int)

  // ---------------------------------------------------------------------
  // Delivering a result
  // ---------------------------------------------------------------------

  /** Counts the result, calls back, counts down, and marks the handle done at the end. */
  function Fire(b: Batch, r: DocumentResult): Batch {
    b.(completed := b.completed + 1,
       failed := if r.success then b.failed else b.failed + 1,
       seen := b.seen + [Delivery(b.completed + 1, b.total, r)],
       remaining := b.remaining - 1,
       done := b.done || b.remaining - 1 <= 0)
  }

  function FireAll(b: Batch, docs: seq<DocId>, success: bool, skipped: bool): Batch
    decreases |docs|
  {
    if docs == [] then b
    else Fire(FireAll(b, docs[..|docs| - 1], success, skipped), DocumentResult(docs[|docs| - 1], success, skipped))
  }

  // ---------------------------------------------------------------------
  // Steps
  // ---------------------------------------------------------------------

  datatype Step =
    | Submit(pending: seq<DocId>, preFailed: seq<DocId>, preCompleted: seq<DocId>, maxConcurrent: int, running: bool,
             maxChunks: Option<nat>, plans: DocId -> Plan)
    | Orphan(doc: DocId, plan: Plan)
    | Dequeue(w: nat)
    | LoadFault(w: nat)
    | LoadMissing(w: nat)
    | LoadOk(w: nat)
    | TakePermit(w: nat)
    | EngineUnsupported(w: nat)
    | StartEngine(w: nat)
    | EnterWindow(w: nat)
    | TakeTokens(w: nat)
    | LeaveWindow(w: nat)
    | WindowFault(w: nat)
    | ProcessOk(w: nat)
    | ProcessFault(w: nat)
    | EscapedFault(w: nat)
    | FailureRecorded(w: nat)
    | FallbackRecorded(w: nat)

  /** A step of the worker pool, as opposed to one of its environment. */
  predicate IsPoolStep(step: Step) {
    !step.Submit? && !step.Orphan?
  }

  /** A step that delivers a worker's result. */
  predicate Delivers(step: Step) {
    step.LoadFault? || step.LoadMissing? || step.ProcessOk? || step.FailureRecorded? || step.FallbackRecorded?
  }

  /** A step that takes a worker to another position without delivering anything. */
  predicate Moves(step: Step) {
    IsPoolStep(step) && !step.Dequeue? && !Delivers(step)
  }

  /** A missing row is a skip, reported as success. */
  predicate Succeeds(step: Step) {
    step.ProcessOk? || step.LoadMissing?
  }

  predicate HoldsPermit(p: Worker) {
    p.Preparing? || p.Processing? || p.AwaitingTokens? || p.InWindow? || p.RecordingFailure?
  }

  /** The batch whose permit a worker holds. */
  function PermitOf(p: Worker): Option<nat> {
    if HoldsPermit(p) then p.item.batch else None
  }

  function AddPermit(batches: seq<Batch>, i: Option<nat>, delta: int): seq<Batch> {
    if i.Some? && i.value < |batches|
    then batches[i.value := batches[i.value].(permits := batches[i.value].permits + delta)]
    else batches
  }

  /** The tokens a worker holds. */
  function TokensOf(p: Worker): nat {
    if p.InWindow? then p.tokens else 0
  }

  /**
   Worker w goes to position p, taking or giving back a permit as it enters or leaves the guarded part
   and tokens as it enters or leaves a window.
   */
  function Goto(s: State, w: nat, p: Worker): State
    requires w < |s.workers|
  {
    s.(batches := AddPermit(AddPermit(s.batches, PermitOf(s.workers[w]), 1), PermitOf(p), -1),
       workers := s.workers[w := p],
       inFlight := s.inFlight - TokensOf(s.workers[w]) + TokensOf(p))
  }

  function Deliver(batches: seq<Batch>, item: Item, success: bool, skipped: bool): seq<Batch> {
    if item.batch.Some? && item.batch.value < |batches|
    then batches[item.batch.value := Fire(batches[item.batch.value], DocumentResult(item.doc, success, skipped))]
    else batches
  }

  /** Worker w delivers its item's result, if there is a batch to deliver to, and becomes idle. */
  function Finish(s: State, w: nat, success: bool, skipped: bool): State
    requires w < |s.workers| && !s.workers[w].Idle?
  {
    Goto(s.(batches := Deliver(s.batches, s.workers[w].item, success, skipped)), w, Idle)
  }

  function Items(docs: seq<DocId>, batch: nat, plans: DocId -> Plan): seq<Item> {
    seq(|docs|, k requires 0 <= k < |docs| => Item(docs[k], Some(batch), plans(docs[k])))
  }

  function NewBatch(step: Step): Batch
    requires step.Submit?
  {
    var total := |step.pending| + |step.preFailed| + |step.preCompleted|;
    Batch(multiset(step.pending) + multiset(step.preFailed) + multiset(step.preCompleted),
          if step.running then multiset{} else multiset(step.pending),
          total, 0, 0, total, false, [], step.maxConcurrent, step.maxConcurrent)
  }

  /** The batch once the results known at submission have been delivered. */
  function SubmittedBatch(step: Step): Batch
    requires step.Submit?
  {
    var b := FireAll(FireAll(NewBatch(step), step.preFailed, false, false), step.preCompleted, true, true);
    if b.total == 0 then b.(done := true) else b
  }

  predicate HasWorker(s: State, w: nat) {
    w < |s.workers|
  }

  ghost predicate CanTake(s: State, step: Step) {
    match step
    case Submit(_, _, _, maxConcurrent, _, _, _) => maxConcurrent >= 1
    case Orphan(_, _) => true
    case Dequeue(w) => HasWorker(s, w) && s.workers[w].Idle? && s.queue != []
    case LoadFault(w) => HasWorker(s, w) && s.workers[w].Loading?
    case LoadMissing(w) => HasWorker(s, w) && s.workers[w].Loading?
    case LoadOk(w) => HasWorker(s, w) && s.workers[w].Loading?
    case TakePermit(w) => HasWorker(s, w) && s.workers[w].AwaitingPermit? && PermitFree(s, s.workers[w].item)
    case EngineUnsupported(w) => HasWorker(s, w) && s.workers[w].Preparing?
    case StartEngine(w) => HasWorker(s, w) && s.workers[w].Preparing?
    case EnterWindow(w) => HasWorker(s, w) && s.workers[w].Processing? && s.workers[w].rest != []
    case TakeTokens(w) => HasWorker(s, w) && s.workers[w].AwaitingTokens? && TokensFree(s, s.workers[w])
    case LeaveWindow(w) => HasWorker(s, w) && s.workers[w].InWindow? && s.workers[w].rest != []
    case WindowFault(w) => HasWorker(s, w) && s.workers[w].InWindow?
    case ProcessOk(w) => HasWorker(s, w) && s.workers[w].Processing? && s.workers[w].rest == []
    case ProcessFault(w) => HasWorker(s, w) && s.workers[w].Processing?
    case EscapedFault(w) =>
      HasWorker(s, w) && (s.workers[w].Preparing? || s.workers[w].Processing? || s.workers[w].InWindow?)
    case FailureRecorded(w) => HasWorker(s, w) && s.workers[w].RecordingFailure?
    case FallbackRecorded(w) => HasWorker(s, w) && s.workers[w].FallingBack?
  }

  predicate PermitFree(s: State, item: Item) {
    item.batch.Some? ==> item.batch.value < |s.batches| && s.batches[item.batch.value].permits > 0
  }

  /** The semaphore's wait loop lets the worker's current window through. */
  predicate TokensFree(s: State, p: Worker) {
    p.AwaitingTokens? && p.rest != [] && s.capacity.Some?
    && s.inFlight + Tokens.Clamp(p.rest[0], s.capacity.value) <= s.capacity.value
  }

  /** Where a moving step takes its worker. */
  function Target(s: State, step: Step): Worker
    requires Moves(step) && CanTake(s, step)
  {
    var p := s.workers[step.w];
    match step
    // only batch items queue for a permit
    case LoadOk(_) => if p.item.batch.Some? then AwaitingPermit(p.item) else Preparing(p.item)
    case TakePermit(_) => Preparing(p.item)
    case EngineUnsupported(_) => if p.item.batch.Some? then RecordingFailure(p.item) else Idle
    // the semaphore is looked up once per document, and only for one that limits its chunks
    case StartEngine(_) => Processing(p.item, p.item.plan.windows, p.item.plan.limited && s.capacity.Some?)
    case EnterWindow(_) => if p.guarded then AwaitingTokens(p.item, p.rest) else InWindow(p.item, p.rest, false, 0)
    case TakeTokens(_) => InWindow(p.item, p.rest, true, Tokens.Clamp(p.rest[0], s.capacity.value))
    case LeaveWindow(_) => Processing(p.item, p.rest[1..], p.guarded)
    // tokens are given back on the way out of a failed window
    case WindowFault(_) => RecordingFailure(p.item)
    // the status update is awaited before the failure is delivered
    case ProcessFault(_) => RecordingFailure(p.item)
    // raised outside the inner handler: the permit is given back and the outer handler takes over
    case EscapedFault(_) => if p.item.batch.Some? then FallingBack(p.item) else Idle
  }

  function Take(s: State, step: Step): State
    requires CanTake(s, step)
  {
    if step.Submit? then
      s.(batches := s.batches + [SubmittedBatch(step)],
         queue := if step.running then s.queue + Items(step.pending, |s.batches|, step.plans) else s.queue,
         // the first submission that sets a limit creates the semaphore
         capacity := if s.capacity.Some? then s.capacity else step.maxChunks)
    else if step.Orphan? then s.(queue := s.queue + [Item(step.doc, None, step.plan)])
    else if step.Dequeue? then s.(queue := s.queue[1..], workers := s.workers[step.w := Loading(s.queue[0])])
    else if Delivers(step) then Finish(s, step.w, Succeeds(step), step.LoadMissing?)
    else Goto(s, step.w, Target(s, step))
  }

  function Init(workers: nat): State {
    State([], [], seq(workers, k => Idle), None, 0)
  }

  /** A run: any interleaving of the pool's and the environment's steps. */
  ghost predicate Run(workers: nat, states: seq<State>, steps: seq<Step>) {
    |states| == |steps| + 1 && states[0] == Init(workers)
    && forall k | 0 <= k < |steps| :: CanTake(states[k], steps[k]) && states[k + 1] == Take(states[k], steps[k])
  }
}
