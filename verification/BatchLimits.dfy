/**
 The limits a batch processor works under: what the windows of documents that limit their chunks hold,
 who is blocked and by what, and what a submission settles once and for all.
 */
module BatchLimits {
  import opened Wrappers
  import opened BatchModel
  import opened BatchProcessor

  // ---------------------------------------------------------------------
  // Documents that limit their chunks
  // ---------------------------------------------------------------------

  /** A submission that asks for a limit sets one. */
  ghost predicate Declares(step: Step) {
    step.Submit? ==> forall d | d in step.pending && step.plans(d).limited :: step.maxChunks.Some?
  }

  ghost predicate Backed(s: State, item: Item) {
    item.batch.Some? && item.plan.limited ==> s.capacity.Some?
  }

  /** What a worker in the engine knows of the semaphore and holds of it. */
  ghost predicate Guarded(s: State, p: Worker) {
    (!p.Idle? ==> Backed(s, p.item))
    && ((p.Processing? || p.InWindow?) && p.guarded ==> p.item.plan.limited && s.capacity.Some?)
    && ((p.Processing? || p.InWindow?) && p.item.batch.Some? && p.item.plan.limited ==> p.guarded)
    && (p.AwaitingTokens? ==> p.item.plan.limited)
    && (p.InWindow? ==> p.rest != [])
    && (p.InWindow? && !p.guarded ==> p.tokens == 0)
    && (p.InWindow? && p.guarded ==> p.tokens == if p.rest[0] <= s.capacity.value then p.rest[0] else s.capacity.value)
  }

  ghost predicate AllGuarded(s: State) {
    (forall j | 0 <= j < |s.queue| :: Backed(s, s.queue[j])) && forall w | 0 <= w < |s.workers| :: Guarded(s, s.workers[w])
  }

  lemma PoolStepGuarded(s: State, step: Step)
    requires AllGuarded(s) && CanTake(s, step) && IsPoolStep(step)
    ensures step.w < |Take(s, step).workers| && Guarded(s, Take(s, step).workers[step.w])
  {
    hide SubmittedBatch, AddPermit, Deliver, PermitFree;
    assert Guarded(s, s.workers[step.w]);
    if step.Dequeue? {
      assert Backed(s, s.queue[0]);
    }
  }

  lemma StepGuarded(s: State, step: Step)
    requires AllGuarded(s) && CanTake(s, step) && Declares(step)
    ensures AllGuarded(Take(s, step))
  {
    var t := Take(s, step);
    if IsPoolStep(step) {
      PoolStepGuarded(s, step);
      PoolStepRank(s, step);
      assert t.capacity == s.capacity by {
        hide Target, AddPermit, Deliver;
      }
      hide Take, CanTake;
      forall w | 0 <= w < |t.workers| ensures Guarded(t, t.workers[w]) {
        assert Guarded(s, t.workers[w]);
      }
    } else {
      hide SubmittedBatch;
      forall w | 0 <= w < |t.workers| ensures Guarded(t, t.workers[w]) {
        assert Guarded(s, s.workers[w]);
      }
    }
  }

  lemma {:induction false} RunGuarded(workers: nat, states: seq<State>, steps: seq<Step>, k: nat)
    requires Run(workers, states, steps) && k < |states| && forall j | 0 <= j < |steps| :: Declares(steps[j])
    ensures AllGuarded(states[k])
  {
    hide Take, CanTake, AllGuarded, Declares;
    if k == 0 {
      InitGuarded(workers);
    } else {
      RunGuarded(workers, states, steps, k - 1);
      StepGuarded(states[k - 1], steps[k - 1]);
    }
  }

  lemma InitGuarded(workers: nat)
    ensures AllGuarded(Init(workers))
  {
  }

  /** The chunks of a window of a batch document that limits them, as far as the semaphore counts them. */
  ghost function LimitedChunks(capacity: nat, p: Worker): nat {
    if p.InWindow? && p.rest != [] && p.item.batch.Some? && p.item.plan.limited
    then (if p.rest[0] <= capacity then p.rest[0] else capacity) else 0
  }

  ghost function AllLimitedChunks(capacity: nat, workers: seq<Worker>): nat {
    if workers == [] then 0
    else AllLimitedChunks(capacity, workers[..|workers| - 1]) + LimitedChunks(capacity, workers[|workers| - 1])
  }

  lemma {:induction false} LimitedBelowTokens(s: State, workers: seq<Worker>)
    requires s.capacity.Some? && forall w | 0 <= w < |workers| :: Guarded(s, workers[w])
    ensures AllLimitedChunks(s.capacity.value, workers) <= TokenSum(workers)
  {
    if workers != [] {
      LimitedBelowTokens(s, workers[..|workers| - 1]);
      assert Guarded(s, workers[|workers| - 1]);
    }
  }

  /**
   The bound on chunks in flight, at every point of every run whose submissions set a limit when they
   ask for one: a worker in a window of a batch document that limits its chunks holds exactly the
   window's size in tokens, capped at the capacity, one whose document does not limit them holds none,
   and the limited windows of all batches together never exceed the capacity.
   */
  lemma LimitedWindowsBounded(workers: nat, states: seq<State>, steps: seq<Step>, k: nat)
    requires Run(workers, states, steps) && k < |states| && forall j | 0 <= j < |steps| :: Declares(steps[j])
    ensures var s := states[k];
            forall w | 0 <= w < |s.workers| && s.workers[w].InWindow? ::
              var p := s.workers[w];
              (!p.item.plan.limited ==> p.tokens == 0)
              && (p.item.plan.limited && p.item.batch.Some? ==>
                    s.capacity.Some? && p.rest != []
                    && p.tokens == if p.rest[0] <= s.capacity.value then p.rest[0] else s.capacity.value)
    ensures states[k].capacity.Some? ==>
              AllLimitedChunks(states[k].capacity.value, states[k].workers) <= states[k].inFlight <= states[k].capacity.value
  {
    var s := states[k];
    RunGuarded(workers, states, steps, k);
    TokensBounded(workers, states, steps, k);
    hide Run, TokenSum, AllLimitedChunks;
    if s.capacity.Some? {
      LimitedBelowTokens(s, s.workers);
    }
    forall w | 0 <= w < |s.workers| && s.workers[w].InWindow?
      ensures Guarded(s, s.workers[w])
    {
    }
  }

  // ---------------------------------------------------------------------
  // Permits
  // ---------------------------------------------------------------------

  /** A worker waiting for a permit may go on exactly if its batch has fewer documents in flight than it allows. */
  lemma PermitExactly(s: State, w: nat)
    requires Inv(s) && w < |s.workers| && s.workers[w].AwaitingPermit?
    ensures s.workers[w].item.batch.Some? && s.workers[w].item.batch.value < |s.batches|
    ensures var i := s.workers[w].item.batch.value;
            CanTake(s, TakePermit(w)) <==> |InFlight(s, i)| < s.batches[i].maxConcurrent
  {
    hide Accounts, InFlight, Queued, Held, Delivered;
    assert KnownItem(s, s.workers[w].item);
    assert Conserved(s, s.workers[w].item.batch.value);
  }

  /**
   A document whose processing fails keeps its permit until the failure has been recorded; a fault that
   escapes the inner handler gives the permit back first.
   */
  lemma FaultPermits(s: State, step: Step, i: nat)
    requires CanTake(s, step) && i < |s.batches|
    requires step.WindowFault? || step.ProcessFault? || step.EscapedFault? || step.FailureRecorded? || step.FallbackRecorded?
    requires s.workers[step.w].item.batch == Some(i)
    ensures |Take(s, step).batches| == |s.batches|
    ensures Take(s, step).batches[i].permits
         == s.batches[i].permits + if step.EscapedFault? || step.FailureRecorded? then 1 else 0
  {
    hide Goto, Finish, Fire;
    if Delivers(step) {
      FinishBatch(s, step.w, Succeeds(step), step.LoadMissing?, i);
      FireFields(s.batches[i], DocumentResult(s.workers[step.w].item.doc, Succeeds(step), step.LoadMissing?));
    } else {
      GotoBatch(s, step.w, Target(s, step), i);
    }
  }

  // ---------------------------------------------------------------------
  // When a worker is blocked
  // ---------------------------------------------------------------------

  ghost predicate CanStep(s: State, w: nat) {
    exists step :: IsPoolStep(step) && step.w == w && CanTake(s, step)
  }

  lemma Steps(s: State, step: Step)
    requires IsPoolStep(step) && CanTake(s, step)
    ensures CanStep(s, step.w)
  {
  }

  /**
   A worker is blocked exactly if it is idle and the queue is empty, waits for a permit while its batch
   has as many documents in flight as it allows, or waits for tokens and its window, capped at the
   capacity, does not fit. Everyone else can always go on.
   */
  lemma BlockedExactly(s: State, w: nat)
    requires Inv(s) && TokenInv(s) && w < |s.workers|
    ensures var p := s.workers[w];
            CanStep(s, w) <==>
              if p.Idle? then s.queue != []
              else if p.AwaitingPermit? then
                p.item.batch.Some? && p.item.batch.value < |s.batches|
                && |InFlight(s, p.item.batch.value)| < s.batches[p.item.batch.value].maxConcurrent
              else if p.AwaitingTokens? then
                p.rest != [] && s.capacity.Some?
                && s.inFlight + (if p.rest[0] <= s.capacity.value then p.rest[0] else s.capacity.value) <= s.capacity.value
              else true
  {
    var p := s.workers[w];
    assert WindowKnown(s, p);
    hide Inv, TokenInv, InFlight;
    if p.AwaitingPermit? {
      PermitExactly(s, w);
    }
    if p.Idle? || p.AwaitingPermit? || p.AwaitingTokens? {
      WaitingSteps(s, w);
    } else {
      GoesOn(s, w);
    }
  }

  /** There is one step a waiting worker can take. */
  lemma WaitingSteps(s: State, w: nat)
    requires w < |s.workers|
    ensures s.workers[w].Idle? ==> (CanStep(s, w) <==> s.queue != [])
    ensures s.workers[w].AwaitingPermit? ==> (CanStep(s, w) <==> CanTake(s, TakePermit(w)))
    ensures s.workers[w].AwaitingTokens? ==> (CanStep(s, w) <==> TokensFree(s, s.workers[w]))
  {
    hide PermitFree, TokensFree;
    if s.workers[w].Idle? && s.queue != [] {
      Steps(s, Dequeue(w));
    } else if s.workers[w].AwaitingPermit? && CanTake(s, TakePermit(w)) {
      Steps(s, TakePermit(w));
    } else if s.workers[w].AwaitingTokens? && TokensFree(s, s.workers[w]) {
      Steps(s, TakeTokens(w));
    }
  }

  lemma GoesOn(s: State, w: nat)
    requires w < |s.workers| && WindowKnown(s, s.workers[w])
    requires !s.workers[w].Idle? && !s.workers[w].AwaitingPermit? && !s.workers[w].AwaitingTokens?
    ensures CanStep(s, w)
  {
    hide CanStep;
    match s.workers[w]
    case Loading(_) => Steps(s, LoadOk(w));
    case Preparing(_) => Steps(s, StartEngine(w));
    case Processing(_, rest, _) => Steps(s, if rest == [] then ProcessOk(w) else EnterWindow(w));
    case InWindow(_, _, _, _) => Steps(s, LeaveWindow(w));
    case RecordingFailure(_) => Steps(s, FailureRecorded(w));
    case FallingBack(_) => Steps(s, FallbackRecorded(w));
  }

  // ---------------------------------------------------------------------
  // What a submission settles
  // ---------------------------------------------------------------------

  /** The limit of the first submission, among the first k steps, that sets one. */
  ghost function FirstLimit(steps: seq<Step>, k: nat): Option<nat>
    requires k <= |steps|
  {
    if k == 0 then None
    else if FirstLimit(steps, k - 1).Some? then FirstLimit(steps, k - 1)
    else if steps[k - 1].Submit? then steps[k - 1].maxChunks
    else None
  }

  lemma CapacityStep(s: State, step: Step)
    requires CanTake(s, step)
    ensures Take(s, step).capacity == if s.capacity.None? && step.Submit? then step.maxChunks else s.capacity
  {
    hide Target, SubmittedBatch, AddPermit, Deliver;
  }

  /** The first limit wins: it is the capacity of the chunk semaphore from then on. */
  lemma {:induction false} FirstLimitWins(workers: nat, states: seq<State>, steps: seq<Step>, k: nat)
    requires Run(workers, states, steps) && k < |states|
    ensures states[k].capacity == FirstLimit(steps, k)
  {
    hide Take, CanTake;
    if k > 0 {
      FirstLimitWins(workers, states, steps, k - 1);
      CapacityStep(states[k - 1], steps[k - 1]);
    }
  }

  lemma StepKeepsSetup(s: State, step: Step, i: nat)
    requires CanTake(s, step) && i < |s.batches|
    ensures i < |Take(s, step).batches|
    ensures var b, c := s.batches[i], Take(s, step).batches[i];
            c.docs == b.docs && c.total == b.total && c.maxConcurrent == b.maxConcurrent
  {
    BatchCount(s, step);
    if Delivers(step) {
      FinishBatch(s, step.w, Succeeds(step), step.LoadMissing?, i);
    } else if Moves(step) {
      GotoBatch(s, step.w, Target(s, step), i);
    }
    hide Goto, Finish, SubmittedBatch, Target;
  }

  /** Throughout a run a batch has the documents, the total and the cap it was submitted with. */
  lemma {:induction false} SetupSinceSubmission(workers: nat, states: seq<State>, steps: seq<Step>, j: nat, k: nat)
    requires Run(workers, states, steps) && j < |steps| && steps[j].Submit? && j < k < |states|
    ensures |states[j].batches| < |states[k].batches|
    ensures var step, b := steps[j], states[k].batches[|states[j].batches|];
            b.docs == multiset(step.pending) + multiset(step.preFailed) + multiset(step.preCompleted)
            && b.total == |step.pending| + |step.preFailed| + |step.preCompleted|
            && b.maxConcurrent == step.maxConcurrent
    decreases k
  {
    if k == j + 1 {
      assert CanTake(states[j], steps[j]);
      SubmittedSetup(steps[j]);
    } else {
      hide CanTake, Take;
      SetupSinceSubmission(workers, states, steps, j, k - 1);
      StepKeepsSetup(states[k - 1], steps[k - 1], |states[j].batches|);
    }
  }

  lemma {:induction false} FireAllSetup(b: Batch, docs: seq<DocId>, success: bool, skipped: bool)
    ensures var c := FireAll(b, docs, success, skipped);
            c.docs == b.docs && c.total == b.total && c.maxConcurrent == b.maxConcurrent
    decreases |docs|
  {
    if docs != [] {
      FireAllSetup(b, docs[..|docs| - 1], success, skipped);
    }
  }

  lemma SubmittedSetup(step: Step)
    requires step.Submit?
    ensures var b := SubmittedBatch(step);
            b.docs == multiset(step.pending) + multiset(step.preFailed) + multiset(step.preCompleted)
            && b.total == |step.pending| + |step.preFailed| + |step.preCompleted|
            && b.maxConcurrent == step.maxConcurrent
  {
    hide FireAll;
    FireAllSetup(NewBatch(step), step.preFailed, false, false);
    FireAllSetup(FireAll(NewBatch(step), step.preFailed, false, false), step.preCompleted, true, true);
  }
}
