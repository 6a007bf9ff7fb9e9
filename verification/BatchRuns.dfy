/**
 What happens over whole runs of the batch processor, step by step: which results a batch delivers and
 in which order, in which order documents are taken from the queue, and that every chunk window of a
 document is gone through.
 */
module BatchRuns {
  import opened Wrappers
  import opened BatchModel
  import opened BatchProcessor

  /** The steps of a history were all possible. */
  ghost predicate Taken(states: seq<State>, steps: seq<Step>, k: nat) {
    k <= |steps| < |states| && forall j | 0 <= j < |steps| :: CanTake(states[j], steps[j])
  }

  // ---------------------------------------------------------------------
  // The results delivered, in order
  // ---------------------------------------------------------------------

  ghost function Results(seen: seq<Delivery>): seq<DocumentResult> {
    seq(|seen|, j requires 0 <= j < |seen| => seen[j].result)
  }

  ghost function ResultsFor(docs: seq<DocId>, success: bool, skipped: bool): seq<DocumentResult> {
    seq(|docs|, j requires 0 <= j < |docs| => DocumentResult(docs[j], success, skipped))
  }

  /**
   The results one step delivers to batch i. At its submission: a failure for every document that could
   not be stored, then a skip for every one that needs no processing. Later: a failure when a row cannot be
   read or once a failure has been recorded, a skip when the row is gone, a success when processing ends.
   */
  ghost function ResultsAdded(s: State, step: Step, i: nat): seq<DocumentResult>
    requires CanTake(s, step)
  {
    match step
    case Submit(_, preFailed, preCompleted, _, _, _, _) =>
      if i == |s.batches| then ResultsFor(preFailed, false, false) + ResultsFor(preCompleted, true, true) else []
    case LoadFault(w) => Own(s, w, i, false, false)
    case LoadMissing(w) => Own(s, w, i, true, true)
    case ProcessOk(w) => Own(s, w, i, true, false)
    case FailureRecorded(w) => Own(s, w, i, false, false)
    case FallbackRecorded(w) => Own(s, w, i, false, false)
    case _ => []
  }

  ghost function Own(s: State, w: nat, i: nat, success: bool, skipped: bool): seq<DocumentResult>
    requires w < |s.workers| && !s.workers[w].Idle?
  {
    if s.workers[w].item.batch == Some(i) then [DocumentResult(s.workers[w].item.doc, success, skipped)] else []
  }

  ghost function ResultsIn(states: seq<State>, steps: seq<Step>, i: nat, k: nat): seq<DocumentResult>
    requires Taken(states, steps, k)
  {
    if k == 0 then [] else ResultsIn(states, steps, i, k - 1) + ResultsAdded(states[k - 1], steps[k - 1], i)
  }

  lemma {:induction false} FireAllResults(b: Batch, docs: seq<DocId>, success: bool, skipped: bool)
    ensures Results(FireAll(b, docs, success, skipped).seen) == Results(b.seen) + ResultsFor(docs, success, skipped)
    decreases |docs|
  {
    if docs == [] {
      assert ResultsFor(docs, success, skipped) == [];
    } else {
      var front, doc := docs[..|docs| - 1], docs[|docs| - 1];
      FireAllResults(b, front, success, skipped);
      FireResults(FireAll(b, front, success, skipped), DocumentResult(doc, success, skipped));
      assert ResultsFor(docs, success, skipped) == ResultsFor(front, success, skipped) + [DocumentResult(doc, success, skipped)];
    }
  }

  lemma FireResults(b: Batch, r: DocumentResult)
    ensures Results(Fire(b, r).seen) == Results(b.seen) + [r]
  {
  }

  lemma SubmitResults(step: Step)
    requires step.Submit?
    ensures Results(SubmittedBatch(step).seen)
         == ResultsFor(step.preFailed, false, false) + ResultsFor(step.preCompleted, true, true)
  {
    hide FireAll;
    var b := NewBatch(step);
    FireAllResults(b, step.preFailed, false, false);
    FireAllResults(FireAll(b, step.preFailed, false, false), step.preCompleted, true, true);
    assert Results(b.seen) == [];
  }

  lemma FinishResults(s: State, w: nat, success: bool, skipped: bool, i: nat)
    requires w < |s.workers| && !s.workers[w].Idle? && i < |s.batches|
    ensures |Finish(s, w, success, skipped).batches| == |s.batches|
    ensures Results(Finish(s, w, success, skipped).batches[i].seen) == Results(s.batches[i].seen) + Own(s, w, i, success, skipped)
  {
    FinishBatch(s, w, success, skipped, i);
    hide Finish;
    FireResults(s.batches[i], DocumentResult(s.workers[w].item.doc, success, skipped));
  }

  lemma StepResults(s: State, step: Step, i: nat)
    requires CanTake(s, step) && i < |Take(s, step).batches|
    ensures Results(Take(s, step).batches[i].seen)
         == (if i < |s.batches| then Results(s.batches[i].seen) else []) + ResultsAdded(s, step, i)
  {
    hide Goto, Finish, SubmittedBatch, Target, Own, Results, ResultsFor;
    BatchCount(s, step);
    if step.Submit? {
      SubmitResults(step);
    } else if Delivers(step) {
      FinishResults(s, step.w, Succeeds(step), step.LoadMissing?, i);
    } else if Moves(step) {
      GotoBatch(s, step.w, Target(s, step), i);
    }
  }

  /** At every point of every run the callback of a batch has seen exactly these results, in this order. */
  lemma {:induction false} ResultsDelivered(workers: nat, states: seq<State>, steps: seq<Step>, k: nat, i: nat)
    requires Run(workers, states, steps) && k < |states|
    ensures i >= |states[k].batches| ==> ResultsIn(states, steps, i, k) == []
    ensures i < |states[k].batches| ==> Results(states[k].batches[i].seen) == ResultsIn(states, steps, i, k)
  {
    hide Take, CanTake, ResultsAdded, Inv, Results;
    if k > 0 {
      ResultsDelivered(workers, states, steps, k - 1, i);
      RunKeepsInv(workers, states, steps, k - 1);
      BatchCount(states[k - 1], steps[k - 1]);
      if i < |states[k].batches| {
        StepResults(states[k - 1], steps[k - 1], i);
      } else {
        NoResultsYet(states[k - 1], steps[k - 1], i);
      }
    }
  }

  lemma NoResultsYet(s: State, step: Step, i: nat)
    requires Inv(s) && CanTake(s, step) && i >= |s.batches| + if step.Submit? then 1 else 0
    ensures ResultsAdded(s, step, i) == []
  {
    hide Accounts, Conserved;
    if Delivers(step) {
      assert KnownItem(s, s.workers[step.w].item);
    }
  }

  // ---------------------------------------------------------------------
  // The queue
  // ---------------------------------------------------------------------

  /** What a step puts in the queue: the pending documents of a submission, or an orphan. */
  ghost function Added(s: State, step: Step): seq<Item> {
    match step
    case Submit(pending, _, _, _, running, _, plans) =>
      if running
      then seq(|pending|, j requires 0 <= j < |pending| => Item(pending[j], Some(|s.batches|), plans(pending[j])))
      else []
    case Orphan(doc, plan) => [Item(doc, None, plan)]
    case _ => []
  }

  /** The item that a worker has in hand after taking one up. */
  ghost function TakenUp(after: State, step: Step): seq<Item> {
    if step.Dequeue? && step.w < |after.workers| && !after.workers[step.w].Idle? then [after.workers[step.w].item] else []
  }

  /** Everything put in the queue, in order. */
  ghost function AllAdded(states: seq<State>, steps: seq<Step>, k: nat): seq<Item>
    requires k <= |steps| < |states|
  {
    if k == 0 then [] else AllAdded(states, steps, k - 1) + Added(states[k - 1], steps[k - 1])
  }

  /** The items that workers took up, in order. */
  ghost function AllTakenUp(states: seq<State>, steps: seq<Step>, k: nat): seq<Item>
    requires k <= |steps| < |states|
  {
    if k == 0 then [] else AllTakenUp(states, steps, k - 1) + TakenUp(states[k], steps[k - 1])
  }

  lemma QueueStep(s: State, step: Step)
    requires CanTake(s, step)
    ensures s.queue + Added(s, step) == TakenUp(Take(s, step), step) + Take(s, step).queue
  {
    hide Target, SubmittedBatch, AddPermit, Deliver;
    if step.Submit? {
      assert step.running ==> Added(s, step) == Items(step.pending, |s.batches|, step.plans);
    }
  }

  /** First in, first out: what has been put in the queue is what was taken up, in order, followed by the queue. */
  lemma {:induction false} QueueInOrder(workers: nat, states: seq<State>, steps: seq<Step>, k: nat)
    requires Run(workers, states, steps) && k < |states|
    ensures AllAdded(states, steps, k) == AllTakenUp(states, steps, k) + states[k].queue
  {
    hide Take, CanTake, Added, TakenUp;
    if k > 0 {
      QueueInOrder(workers, states, steps, k - 1);
      QueueStep(states[k - 1], steps[k - 1]);
      Regroup(AllTakenUp(states, steps, k - 1), states[k - 1].queue, Added(states[k - 1], steps[k - 1]),
              TakenUp(states[k], steps[k - 1]), states[k].queue);
    }
  }

  lemma Regroup(before: seq<Item>, queue: seq<Item>, added: seq<Item>, taken: seq<Item>, queue': seq<Item>)
    requires queue + added == taken + queue'
    ensures before + queue + added == before + taken + queue'
  {
    assert before + queue + added == before + (queue + added);
    assert before + taken + queue' == before + (taken + queue');
  }

  // ---------------------------------------------------------------------
  // Every window of a document is gone through
  // ---------------------------------------------------------------------

  predicate InEngine(p: Worker) {
    p.Processing? || p.AwaitingTokens? || p.InWindow?
  }

  /** The sizes of the windows worker w has left since it last started the engine. */
  ghost function WindowsLeft(states: seq<State>, steps: seq<Step>, w: nat, k: nat): seq<nat>
    requires Taken(states, steps, k)
  {
    if k == 0 || steps[k - 1] == StartEngine(w) then []
    else
      WindowsLeft(states, steps, w, k - 1)
      + if steps[k - 1] == LeaveWindow(w) then [states[k - 1].workers[w].rest[0]] else []
  }

  lemma WindowStep(s: State, step: Step, w: nat)
    requires CanTake(s, step) && w < |s.workers|
    ensures |Take(s, step).workers| == |s.workers|
    ensures var p, q := s.workers[w], Take(s, step).workers[w];
            InEngine(q) ==>
              if step == StartEngine(w) then q.rest == q.item.plan.windows
              else if step == LeaveWindow(w) then InEngine(p) && p.item == q.item && p.rest != [] && p.rest == [p.rest[0]] + q.rest
              else InEngine(p) && p.item == q.item && p.rest == q.rest
  {
    WorkerAfter(s, step, w);
    hide Take;
  }

  /** A step takes its own worker along and leaves the others where they are. */
  lemma WorkerAfter(s: State, step: Step, w: nat)
    requires CanTake(s, step) && w < |s.workers|
    ensures |Take(s, step).workers| == |s.workers|
    ensures Take(s, step).workers[w] ==
              if !IsPoolStep(step) || step.w != w then s.workers[w]
              else if step.Dequeue? then Loading(s.queue[0])
              else if Delivers(step) then Idle
              else Target(s, step)
  {
    hide Target, SubmittedBatch, AddPermit, Deliver;
  }

  ghost predicate WindowsAddUp(p: Worker, left: seq<nat>) {
    InEngine(p) ==> left + p.rest == p.item.plan.windows
  }

  /** The windows left and those still to do make up the document's, before and after a step. */
  lemma WindowsCarryOn(s: State, step: Step, w: nat, left: seq<nat>)
    requires CanTake(s, step) && w < |s.workers| && WindowsAddUp(s.workers[w], left)
    ensures w < |Take(s, step).workers|
    ensures var p := s.workers[w];
            WindowsAddUp(Take(s, step).workers[w],
                         if step == StartEngine(w) then []
                         else left + if step == LeaveWindow(w) then [p.rest[0]] else [])
  {
    WindowStep(s, step, w);
    hide Take;
    var p, q := s.workers[w], Take(s, step).workers[w];
    if InEngine(q) && step == LeaveWindow(w) {
      assert left + [p.rest[0]] + q.rest == left + ([p.rest[0]] + q.rest);
    } else {
      assert left + [] == left;
    }
  }

  /** A worker in the engine has gone through its document's windows, in order, up to those it has left to do. */
  lemma {:induction false} WindowsInOrder(workers: nat, states: seq<State>, steps: seq<Step>, k: nat, w: nat)
    requires Run(workers, states, steps) && k < |states| && w < workers
    ensures w < |states[k].workers| && WindowsAddUp(states[k].workers[w], WindowsLeft(states, steps, w, k))
  {
    if k > 0 {
      RunKeepsWorkers(workers, states, steps, k - 1);
      hide Take, WindowsAddUp;
      WindowsInOrder(workers, states, steps, k - 1, w);
      WindowsCarryOn(states[k - 1], steps[k - 1], w, WindowsLeft(states, steps, w, k - 1));
    }
  }

  /** A document can be reported as processed only once all of its windows have been left. */
  lemma AllWindowsLeft(s: State, w: nat, left: seq<nat>)
    requires CanTake(s, ProcessOk(w)) && WindowsAddUp(s.workers[w], left)
    ensures !s.workers[w].Idle? && left == s.workers[w].item.plan.windows
  {
    assert left + [] == left;
  }
}
