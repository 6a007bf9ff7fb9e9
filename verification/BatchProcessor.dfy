/** Safety and progress of the deferred batch processor over all runs. */
module BatchProcessor {
  import opened Wrappers
  import opened BatchModel
  import Tokens = ChunkSemaphore

  // ---------------------------------------------------------------------
  // Adding up multisets over a list
  // ---------------------------------------------------------------------

  ghost function Collect<T>(s: seq<T>, f: T -> multiset<DocId>): multiset<DocId> {
    if s == [] then multiset{} else Collect(s[..|s| - 1], f) + f(s[|s| - 1])
  }

  lemma CollectPush<T>(s: seq<T>, x: T, f: T -> multiset<DocId>)
    ensures Collect(s + [x], f) == Collect(s, f) + f(x)
  {
    assert (s + [x])[..|s|] == s;
  }

  lemma {:induction false} CollectConcat<T>(s: seq<T>, t: seq<T>, f: T -> multiset<DocId>)
    ensures Collect(s + t, f) == Collect(s, f) + Collect(t, f)
    decreases |t|
  {
    if t == [] {
      assert s + t == s;
    } else {
      var front, x := t[..|t| - 1], t[|t| - 1];
      CollectConcat(s, front, f);
      assert s + t == (s + front) + [x];
      CollectPush(s + front, x, f);
    }
  }

  lemma CollectPop<T>(s: seq<T>, f: T -> multiset<DocId>)
    requires s != []
    ensures Collect(s, f) == f(s[0]) + Collect(s[1..], f)
  {
    assert s == [s[0]] + s[1..];
    CollectConcat([s[0]], s[1..], f);
    assert [s[0]][..0] == [];
    assert Collect([s[0]], f) == f(s[0]);
  }

  lemma {:induction false} CollectUpdate<T>(s: seq<T>, k: nat, x: T, f: T -> multiset<DocId>)
    requires k < |s|
    ensures Collect(s[k := x], f) + f(s[k]) == Collect(s, f) + f(x)
  {
    var t := s[k := x];
    var last := |s| - 1;
    if k == last {
      assert t[..last] == s[..last];
    } else {
      assert t[..last] == s[..last][k := x];
      CollectUpdate(s[..last], k, x, f);
      var before, after, end := Collect(s[..last], f), Collect(t[..last], f), f(s[last]);
      assert after + end + f(s[k]) == (after + f(s[k])) + end;
      assert before + end + f(x) == (before + f(x)) + end;
    }
  }

  lemma {:induction false} CollectMember<T>(s: seq<T>, k: nat, f: T -> multiset<DocId>)
    requires k < |s|
    ensures f(s[k]) <= Collect(s, f)
  {
    if k < |s| - 1 {
      CollectMember(s[..|s| - 1], k, f);
    }
  }

  lemma {:induction false} CollectNone<T>(s: seq<T>, f: T -> multiset<DocId>)
    requires forall x | x in s :: f(x) == multiset{}
    ensures Collect(s, f) == multiset{}
  {
    if s != [] {
      assert s[|s| - 1] in s;
      CollectNone(s[..|s| - 1], f);
    }
  }

  lemma Cancel(a: multiset<DocId>, b: multiset<DocId>, x: multiset<DocId>)
    requires a + x == b + x
    ensures a == b
  {
    forall d ensures a[d] == b[d] {
      assert (a + x)[d] == (b + x)[d];
    }
  }

  // ---------------------------------------------------------------------
  // Where the documents of batch i are
  // ---------------------------------------------------------------------

  ghost function DocIn(i: nat, item: Item): multiset<DocId> {
    if item.batch == Some(i) then multiset{item.doc} else multiset{}
  }

  ghost function InBatch(i: nat): Item -> multiset<DocId> {
    (item: Item) => DocIn(i, item)
  }

  ghost function HeldFor(i: nat): Worker -> multiset<DocId> {
    (p: Worker) => if p.Idle? then multiset{} else DocIn(i, p.item)
  }

  ghost function PermittedFor(i: nat): Worker -> multiset<DocId> {
    (p: Worker) => if HoldsPermit(p) then DocIn(i, p.item) else multiset{}
  }

  ghost function DeliveredDoc(): Delivery -> multiset<DocId> {
    (d: Delivery) => multiset{d.result.doc}
  }

  ghost function Queued(s: State, i: nat): multiset<DocId> {
    Collect(s.queue, InBatch(i))
  }

  ghost function Held(s: State, i: nat): multiset<DocId> {
    Collect(s.workers, HeldFor(i))
  }

  /** The documents of batch i that are being processed right now. */
  ghost function InFlight(s: State, i: nat): multiset<DocId> {
    Collect(s.workers, PermittedFor(i))
  }

  ghost function Delivered(b: Batch): multiset<DocId> {
    Collect(b.seen, DeliveredDoc())
  }

  ghost function Failures(seen: seq<Delivery>): nat {
    if seen == [] then 0 else Failures(seen[..|seen| - 1]) + if seen[|seen| - 1].result.success then 0 else 1
  }

  lemma {:induction false} DeliveredSize(seen: seq<Delivery>)
    ensures |Collect(seen, DeliveredDoc())| == |seen|
  {
    if seen != [] {
      DeliveredSize(seen[..|seen| - 1]);
    }
  }

  // ---------------------------------------------------------------------
  // The invariant
  // ---------------------------------------------------------------------

  /** The counters of a batch agree with what its callback has seen. */
  ghost predicate Accounts(b: Batch) {
    b.completed + b.remaining == b.total && b.remaining >= 0
    && b.total == |b.docs|
    && |b.seen| == b.completed
    && (forall k | 0 <= k < |b.seen| :: b.seen[k].completed == k + 1 && b.seen[k].total == b.total)
    && b.failed == Failures(b.seen)
    && (b.done <==> b.remaining == 0)
    && b.maxConcurrent >= 1
  }

  /** Every document of batch i is in exactly one place, and the permits match the documents in flight. */
  ghost predicate Conserved(s: State, i: nat)
    requires i < |s.batches|
  {
    var b := s.batches[i];
    b.docs == Delivered(b) + Queued(s, i) + Held(s, i) + b.stranded
    && b.permits >= 0 && b.permits + |InFlight(s, i)| == b.maxConcurrent
  }

  ghost predicate KnownItem(s: State, item: Item) {
    item.batch.Some? ==> item.batch.value < |s.batches|
  }

  ghost predicate KnownItems(s: State) {
    (forall k | 0 <= k < |s.queue| :: KnownItem(s, s.queue[k]))
    && (forall w | 0 <= w < |s.workers| && !s.workers[w].Idle? :: KnownItem(s, s.workers[w].item))
    && (forall w | 0 <= w < |s.workers| && s.workers[w].AwaitingPermit? :: s.workers[w].item.batch.Some?)
  }

  ghost predicate Inv(s: State) {
    KnownItems(s) && forall i | 0 <= i < |s.batches| :: Accounts(s.batches[i]) && Conserved(s, i)
  }

  // ---------------------------------------------------------------------
  // Delivering one result
  // ---------------------------------------------------------------------

  lemma FireAccounts(b: Batch, r: DocumentResult)
    requires Accounts(b) && b.remaining > 0
    ensures Accounts(Fire(b, r))
    ensures Delivered(Fire(b, r)) == Delivered(b) + multiset{r.doc}
  {
    var d := Delivery(b.completed + 1, b.total, r);
    CollectPush(b.seen, d, DeliveredDoc());
    assert (b.seen + [d])[..|b.seen|] == b.seen;
  }

  lemma {:induction false} FireAllAccounts(b: Batch, docs: seq<DocId>, success: bool, skipped: bool)
    requires Accounts(b) && b.remaining >= |docs|
    ensures var c := FireAll(b, docs, success, skipped);
            Accounts(c) && c.remaining == b.remaining - |docs| && Delivered(c) == Delivered(b) + multiset(docs)
            && c.docs == b.docs && c.stranded == b.stranded && c.total == b.total
            && c.maxConcurrent == b.maxConcurrent && c.permits == b.permits
    decreases |docs|
  {
    hide Delivered, Accounts;
    if docs != [] {
      var front, doc := docs[..|docs| - 1], docs[|docs| - 1];
      FireAllAccounts(b, front, success, skipped);
      FireAccounts(FireAll(b, front, success, skipped), DocumentResult(doc, success, skipped));
      assert docs == front + [doc];
    }
  }

  /** A document in the queue or in a worker's hands keeps its batch open. */
  lemma RemainingIsOutstanding(s: State, i: nat)
    requires i < |s.batches| && Accounts(s.batches[i]) && Conserved(s, i)
    ensures s.batches[i].remaining == |Queued(s, i)| + |Held(s, i)| + |s.batches[i].stranded|
  {
    hide Queued, Held, InFlight;
    DeliveredSize(s.batches[i].seen);
  }

  // ---------------------------------------------------------------------
  // Every step keeps the invariant
  // ---------------------------------------------------------------------

  lemma GotoBatch(s: State, w: nat, p: Worker, i: nat)
    requires w < |s.workers| && i < |s.batches|
    ensures |Goto(s, w, p).batches| == |s.batches|
    ensures Goto(s, w, p).batches[i]
         == s.batches[i].(permits := s.batches[i].permits + (if PermitOf(s.workers[w]) == Some(i) then 1 else 0)
                                                          - (if PermitOf(p) == Some(i) then 1 else 0))
  {
  }

  lemma PermitSize(p: Worker, i: nat)
    ensures |PermittedFor(i)(p)| == if PermitOf(p) == Some(i) then 1 else 0
  {
    if PermitOf(p) == Some(i) {
      assert PermittedFor(i)(p) == multiset{p.item.doc};
    } else {
      assert PermittedFor(i)(p) == multiset{};
    }
  }

  lemma PermitsAfterGoto(s: State, w: nat, p: Worker, i: nat)
    requires w < |s.workers| && i < |s.batches|
    ensures |InFlight(Goto(s, w, p), i)|
         == |InFlight(s, i)| - (if PermitOf(s.workers[w]) == Some(i) then 1 else 0)
                             + (if PermitOf(p) == Some(i) then 1 else 0)
  {
    hide Collect;
    var f := PermittedFor(i);
    CollectUpdate(s.workers, w, p, f);
    assert |Collect(s.workers[w := p], f) + f(s.workers[w])| == |Collect(s.workers, f) + f(p)|;
    PermitSize(p, i);
    PermitSize(s.workers[w], i);
  }

  /** A worker that keeps its item moves within the invariant. */
  lemma GotoKeepsInv(s: State, w: nat, p: Worker)
    requires Inv(s) && w < |s.workers| && !s.workers[w].Idle? && !p.Idle? && p.item == s.workers[w].item
    requires p.AwaitingPermit? ==> p.item.batch.Some?
    requires HoldsPermit(p) && !HoldsPermit(s.workers[w]) ==> PermitFree(s, p.item)
    ensures Inv(Goto(s, w, p))
  {
    hide Collect, Accounts, Delivered, InFlight;
    var t := Goto(s, w, p);
    forall i | 0 <= i < |t.batches| ensures Accounts(t.batches[i]) && Conserved(t, i) {
      GotoBatch(s, w, p, i);
      PermitsAfterGoto(s, w, p, i);
      SameAccounts(s.batches[i], t.batches[i]);
      CollectUpdate(s.workers, w, p, HeldFor(i));
      Cancel(Held(t, i), Held(s, i), HeldFor(i)(p));
    }
  }

  lemma SameAccounts(b: Batch, c: Batch)
    requires c == b.(permits := c.permits)
    ensures Accounts(b) ==> Accounts(c)
    ensures Delivered(c) == Delivered(b)
  {
  }

  /** What a held document of batch i contributes. */
  lemma HeldDoc(s: State, w: nat, i: nat)
    requires w < |s.workers| && !s.workers[w].Idle? && s.workers[w].item.batch == Some(i)
    ensures |Held(s, i)| >= 1
  {
    hide Collect;
    CollectMember(s.workers, w, HeldFor(i));
    assert HeldFor(i)(s.workers[w]) == multiset{s.workers[w].item.doc};
    assert s.workers[w].item.doc in Held(s, i);
    assert multiset{s.workers[w].item.doc} <= Held(s, i);
    SubsetSize(multiset{s.workers[w].item.doc}, Held(s, i));
  }

  lemma SubsetSize(a: multiset<DocId>, b: multiset<DocId>)
    requires a <= b
    ensures |a| <= |b|
  {
    assert b == a + (b - a);
  }

  /** The batch after the result of worker w's item has been delivered and its permit given back. */
  lemma FinishBatch(s: State, w: nat, success: bool, skipped: bool, i: nat)
    requires w < |s.workers| && !s.workers[w].Idle? && i < |s.batches|
    ensures |Finish(s, w, success, skipped).batches| == |s.batches|
    ensures var item := s.workers[w].item;
            var r := DocumentResult(item.doc, success, skipped);
            var b := if item.batch == Some(i) then Fire(s.batches[i], r) else s.batches[i];
            Finish(s, w, success, skipped).batches[i]
              == b.(permits := s.batches[i].permits + (if PermitOf(s.workers[w]) == Some(i) then 1 else 0))
  {
  }

  /** Delivering a result moves one document from the worker's hands to the delivered ones. */
  lemma FinishConserves(s: State, w: nat, success: bool, skipped: bool, i: nat)
    requires Inv(s) && w < |s.workers| && !s.workers[w].Idle? && i < |s.batches|
    ensures var t := Finish(s, w, success, skipped);
            i < |t.batches| && Accounts(t.batches[i]) && Conserved(t, i)
  {
    hide Collect, Accounts, Delivered, InFlight, KnownItems, Fire;
    var t := Finish(s, w, success, skipped);
    var b, item := s.batches[i], s.workers[w].item;
    FinishBatch(s, w, success, skipped, i);
    var delivered := Deliver(s.batches, item, success, skipped);
    PermitsAfterGoto(s.(batches := delivered), w, Idle, i);
    SameWorkers(s, delivered, i);
    CollectUpdate(s.workers, w, Idle, HeldFor(i));
    assert HeldFor(i)(Idle) == multiset{};
    if item.batch == Some(i) {
      var r := DocumentResult(item.doc, success, skipped);
      HeldDoc(s, w, i);
      RemainingIsOutstanding(s, i);
      FireAccounts(b, r);
      FireFields(b, r);
      SameAccounts(Fire(b, r), t.batches[i]);
      assert HeldFor(i)(s.workers[w]) == multiset{item.doc};
      assert Held(t, i) + multiset{item.doc} == Held(s, i);
      var d, q, st := Delivered(b), Queued(s, i), b.stranded;
      assert d + q + (Held(t, i) + multiset{item.doc}) + st == (d + multiset{item.doc}) + q + Held(t, i) + st;
    } else {
      assert HeldFor(i)(s.workers[w]) == multiset{};
      SameAccounts(b, t.batches[i]);
      Cancel(Held(t, i), Held(s, i), multiset{});
    }
  }

  lemma FireFields(b: Batch, r: DocumentResult)
    ensures var c := Fire(b, r);
            c.docs == b.docs && c.stranded == b.stranded && c.maxConcurrent == b.maxConcurrent && c.permits == b.permits
  {
  }

  lemma SameWorkers(s: State, batches: seq<Batch>, i: nat)
    ensures InFlight(s.(batches := batches), i) == InFlight(s, i)
  {
  }

  lemma FinishKeepsInv(s: State, w: nat, success: bool, skipped: bool)
    requires Inv(s) && w < |s.workers| && !s.workers[w].Idle?
    ensures Inv(Finish(s, w, success, skipped))
  {
    hide Accounts, Conserved, Fire;
    var t := Finish(s, w, success, skipped);
    assert |t.batches| == |s.batches|;
    forall i | 0 <= i < |t.batches| ensures Accounts(t.batches[i]) && Conserved(t, i) {
      FinishConserves(s, w, success, skipped, i);
    }
  }

  /** An orphan that is dropped without a delivery was counted in no batch. */
  lemma DropKeepsInv(s: State, w: nat)
    requires Inv(s) && w < |s.workers| && !s.workers[w].Idle? && s.workers[w].item.batch.None?
    ensures Goto(s, w, Idle) == Finish(s, w, false, false)
    ensures Inv(Goto(s, w, Idle))
  {
    hide Inv;
    FinishKeepsInv(s, w, false, false);
    assert s.(batches := s.batches) == s;
  }

  lemma Shuffle(d: multiset<DocId>, x: multiset<DocId>, q: multiset<DocId>, h: multiset<DocId>, st: multiset<DocId>)
    ensures d + (x + q) + h + st == d + q + (h + x) + st
  {
  }

  lemma DequeueConserves(s: State, w: nat, i: nat)
    requires Inv(s) && CanTake(s, Dequeue(w)) && i < |s.batches|
    ensures Conserved(Take(s, Dequeue(w)), i)
  {
    hide Collect, Accounts, Delivered, KnownItems;
    var t := Take(s, Dequeue(w));
    var item := s.queue[0];
    var x := InBatch(i)(item);
    CollectPop(s.queue, InBatch(i));
    CollectUpdate(s.workers, w, Loading(item), HeldFor(i));
    CollectUpdate(s.workers, w, Loading(item), PermittedFor(i));
    assert HeldFor(i)(Loading(item)) == x && HeldFor(i)(Idle) == multiset{};
    assert PermittedFor(i)(Loading(item)) == PermittedFor(i)(Idle) == multiset{};
    Cancel(InFlight(t, i), InFlight(s, i), multiset{});
    Cancel(Held(t, i), Held(s, i) + x, multiset{});
    Shuffle(Delivered(s.batches[i]), x, Queued(t, i), Held(s, i), s.batches[i].stranded);
  }

  lemma DequeueKeepsInv(s: State, w: nat)
    requires Inv(s) && CanTake(s, Dequeue(w))
    ensures Inv(Take(s, Dequeue(w)))
  {
    hide Accounts, Conserved;
    var t := Take(s, Dequeue(w));
    assert t.batches == s.batches;
    forall i | 0 <= i < |t.batches| ensures Accounts(t.batches[i]) && Conserved(t, i) {
      DequeueConserves(s, w, i);
    }
    assert KnownItem(s, s.queue[0]);
  }

  lemma OrphanKeepsInv(s: State, doc: DocId, plan: Plan)
    requires Inv(s)
    ensures Inv(Take(s, Orphan(doc, plan)))
  {
    hide Collect, Accounts, Delivered;
    var t := Take(s, Orphan(doc, plan));
    forall i | 0 <= i < |t.batches| ensures Accounts(t.batches[i]) && Conserved(t, i) {
      CollectPush(s.queue, Item(doc, None, plan), InBatch(i));
      assert InBatch(i)(Item(doc, None, plan)) == multiset{};
      assert Queued(t, i) == Queued(s, i) && Held(t, i) == Held(s, i) && InFlight(t, i) == InFlight(s, i);
    }
  }

  // ---------------------------------------------------------------------
  // Submission
  // ---------------------------------------------------------------------

  /** What a freshly submitted batch looks like once its early results are out. */
  lemma SubmittedAccounts(step: Step)
    requires step.Submit? && step.maxConcurrent >= 1
    ensures var b := SubmittedBatch(step);
            Accounts(b) && b.remaining == |step.pending|
            && b.docs == Delivered(b) + multiset(step.pending)
            && b.stranded == (if step.running then multiset{} else multiset(step.pending))
            && b.permits == b.maxConcurrent == step.maxConcurrent
  {
    var b := NewBatch(step);
    NewAccounts(step);
    hide Accounts, Delivered, FireAll;
    if b.total == 0 {
      assert step.pending == [] && step.preFailed == [] && step.preCompleted == [];
      FireNone(b);
    } else {
      FireAllAccounts(b, step.preFailed, false, false);
      FireAllAccounts(FireAll(b, step.preFailed, false, false), step.preCompleted, true, true);
      var f, c, p := multiset(step.preFailed), multiset(step.preCompleted), multiset(step.pending);
      assert multiset{} + f + c + p == p + f + c;
    }
  }

  lemma FireNone(b: Batch)
    ensures FireAll(FireAll(b, [], false, false), [], true, true) == b
  {
  }

  lemma NewAccounts(step: Step)
    requires step.Submit? && step.maxConcurrent >= 1
    ensures var b := NewBatch(step);
            Delivered(b) == multiset{} && b.total == |step.pending| + |step.preFailed| + |step.preCompleted|
            && Accounts(if b.total == 0 then b.(done := true) else b)
  {
    assert |multiset(step.pending)| == |step.pending|;
  }

  lemma {:induction false} ItemsOwn(docs: seq<DocId>, batch: nat, plans: DocId -> Plan)
    ensures Collect(Items(docs, batch, plans), InBatch(batch)) == multiset(docs)
    decreases |docs|
  {
    hide Collect;
    if docs == [] {
      EmptyCollect(InBatch(batch));
    } else {
      var front, doc := docs[..|docs| - 1], docs[|docs| - 1];
      var item := Item(doc, Some(batch), plans(doc));
      ItemsOwn(front, batch, plans);
      assert Items(docs, batch, plans) == Items(front, batch, plans) + [item];
      CollectPush(Items(front, batch, plans), item, InBatch(batch));
      assert docs == front + [doc];
    }
  }

  lemma ItemsOther(docs: seq<DocId>, batch: nat, plans: DocId -> Plan, i: nat)
    requires i != batch
    ensures Collect(Items(docs, batch, plans), InBatch(i)) == multiset{}
  {
    CollectNone(Items(docs, batch, plans), InBatch(i));
  }

  /** Nothing in the system belongs to a batch that does not exist yet. */
  lemma UnknownBatchEmpty(s: State)
    requires KnownItems(s)
    ensures Queued(s, |s.batches|) == Held(s, |s.batches|) == InFlight(s, |s.batches|) == multiset{}
  {
    CollectNone(s.queue, InBatch(|s.batches|));
    CollectNone(s.workers, HeldFor(|s.batches|));
    CollectNone(s.workers, PermittedFor(|s.batches|));
  }

  lemma SubmitKeepsInv(s: State, step: Step)
    requires Inv(s) && step.Submit? && CanTake(s, step)
    ensures Inv(Take(s, step))
  {
    hide Collect, Accounts, Delivered, SubmittedBatch;
    var t, n := Take(s, step), |s.batches|;
    var added := if step.running then Items(step.pending, n, step.plans) else [];
    SubmittedAccounts(step);
    UnknownBatchEmpty(s);
    assert t.queue == s.queue + added;
    forall i | 0 <= i < |t.batches| ensures Accounts(t.batches[i]) && Conserved(t, i) {
      CollectConcat(s.queue, added, InBatch(i));
      assert Held(t, i) == Held(s, i) && InFlight(t, i) == InFlight(s, i);
      if i < n {
        if step.running {
          ItemsOther(step.pending, n, step.plans, i);
        } else {
          EmptyCollect(InBatch(i));
        }
        assert Queued(t, i) == Queued(s, i);
      } else {
        if step.running {
          ItemsOwn(step.pending, n, step.plans);
        } else {
          EmptyCollect(InBatch(i));
        }
      }
    }
  }

  lemma EmptyCollect(f: Item -> multiset<DocId>)
    ensures Collect([], f) == multiset{}
  {
  }

  // ---------------------------------------------------------------------
  // All runs
  // ---------------------------------------------------------------------

  /** A step that moves a worker keeps its item, or drops one that belongs to no batch. */
  lemma MoveFacts(s: State, step: Step)
    requires Inv(s) && CanTake(s, step) && Moves(step)
    ensures var p, q := s.workers[step.w], Target(s, step);
            !p.Idle?
            && (if q.Idle? then p.item.batch.None? else q.item == p.item)
            && (q.AwaitingPermit? ==> q.item.batch.Some?)
            && (HoldsPermit(q) && !HoldsPermit(p) ==> PermitFree(s, q.item))
  {
    hide Accounts, Conserved;
  }

  lemma StepKeepsInv(s: State, step: Step)
    requires Inv(s) && CanTake(s, step)
    ensures Inv(Take(s, step))
  {
    hide Inv, Goto, Finish, Target;
    if step.Submit? {
      SubmitKeepsInv(s, step);
    } else if step.Orphan? {
      OrphanKeepsInv(s, step.doc, step.plan);
    } else if step.Dequeue? {
      DequeueKeepsInv(s, step.w);
    } else if Delivers(step) {
      FinishKeepsInv(s, step.w, Succeeds(step), step.LoadMissing?);
    } else {
      MoveFacts(s, step);
      if Target(s, step).Idle? {
        DropKeepsInv(s, step.w);
      } else {
        GotoKeepsInv(s, step.w, Target(s, step));
      }
    }
  }

  lemma {:induction false} RunKeepsInv(workers: nat, states: seq<State>, steps: seq<Step>, k: nat)
    requires Run(workers, states, steps) && k < |states|
    ensures Inv(states[k])
  {
    hide Inv, Take, CanTake;
    if k == 0 {
      InitInv(workers);
    } else {
      RunKeepsInv(workers, states, steps, k - 1);
      StepKeepsInv(states[k - 1], steps[k - 1]);
    }
  }

  lemma InitInv(workers: nat)
    ensures Inv(Init(workers))
  {
  }

  /**
   At every point of every run, for every batch: completed and remaining add up to the total; the
   callback has seen 1, 2, ... in order; the handle is done exactly when the last result is out;
   what remains is what is queued, in hand or was never queued; every document is accounted for
   exactly once; and no more than max_concurrent documents of the batch are in flight.
   */
  lemma ExactlyOnce(workers: nat, states: seq<State>, steps: seq<Step>, k: nat, i: nat)
    requires Run(workers, states, steps) && k < |states| && i < |states[k].batches|
    ensures var s := states[k];
            var b := s.batches[i];
            b.completed + b.remaining == b.total == |b.docs|
            && |b.seen| == b.completed
            && (forall j | 0 <= j < |b.seen| :: b.seen[j].completed == j + 1 && b.seen[j].total == b.total)
            && (b.done <==> b.completed == b.total)
            && b.remaining == |Queued(s, i)| + |Held(s, i)| + |b.stranded|
            && b.docs == Delivered(b) + Queued(s, i) + Held(s, i) + b.stranded
            && |InFlight(s, i)| <= b.maxConcurrent
  {
    hide Delivered, Queued, Held, InFlight, Run;
    RunKeepsInv(workers, states, steps, k);
    RemainingIsOutstanding(states[k], i);
  }

  /** A step that delivers a failure: the load failed, or the failure of processing has been recorded. */
  predicate DeliversFailure(step: Step) {
    step.LoadFault? || step.FailureRecorded? || step.FallbackRecorded?
  }

  /** Failures that one step adds to batch i: those known at its submission, or the one it delivers. */
  ghost function FailuresAdded(s: State, step: Step, i: nat): nat
    requires CanTake(s, step)
  {
    if step.Submit? then (if i == |s.batches| then |step.preFailed| else 0)
    else if DeliversFailure(step) && s.workers[step.w].item.batch == Some(i) then 1 else 0
  }

  ghost function FailuresIn(states: seq<State>, steps: seq<Step>, i: nat, k: nat): nat
    requires k <= |steps| < |states| && forall j | 0 <= j < |steps| :: CanTake(states[j], steps[j])
  {
    if k == 0 then 0 else FailuresIn(states, steps, i, k - 1) + FailuresAdded(states[k - 1], steps[k - 1], i)
  }

  lemma {:induction false} FireAllFailures(b: Batch, docs: seq<DocId>, success: bool, skipped: bool)
    ensures FireAll(b, docs, success, skipped).failed == b.failed + if success then 0 else |docs|
    decreases |docs|
  {
    if docs != [] {
      FireAllFailures(b, docs[..|docs| - 1], success, skipped);
    }
  }

  lemma SubmitFailures(s: State, step: Step)
    requires step.Submit? && CanTake(s, step)
    ensures SubmittedBatch(step).failed == |step.preFailed|
  {
    hide FireAll;
    FireAllFailures(NewBatch(step), step.preFailed, false, false);
    FireAllFailures(FireAll(NewBatch(step), step.preFailed, false, false), step.preCompleted, true, true);
  }

  lemma GotoOnBatch(s: State, w: nat, p: Worker, i: nat)
    requires w < |s.workers| && i < |Goto(s, w, p).batches|
    ensures |Goto(s, w, p).batches| == |s.batches| && Goto(s, w, p).batches[i].failed == s.batches[i].failed
    ensures Goto(s, w, p).batches[i].stranded == s.batches[i].stranded
  {
    if i < |s.batches| {
      GotoBatch(s, w, p, i);
    }
  }

  lemma FinishOnBatch(s: State, w: nat, success: bool, skipped: bool, i: nat)
    requires w < |s.workers| && !s.workers[w].Idle? && i < |Finish(s, w, success, skipped).batches|
    ensures var t := Finish(s, w, success, skipped);
            |t.batches| == |s.batches|
            && t.batches[i].stranded == s.batches[i].stranded
            && t.batches[i].failed == s.batches[i].failed + if !success && s.workers[w].item.batch == Some(i) then 1 else 0
  {
    if i < |s.batches| {
      FinishBatch(s, w, success, skipped, i);
    }
  }

  lemma BatchCount(s: State, step: Step)
    requires CanTake(s, step)
    ensures |Take(s, step).batches| == |s.batches| + if step.Submit? then 1 else 0
  {
    hide Target, SubmittedBatch, Fire;
  }

  lemma StepOnBatch(s: State, step: Step, i: nat)
    requires CanTake(s, step) && i < |Take(s, step).batches|
    ensures Take(s, step).batches[i].failed == (if i < |s.batches| then s.batches[i].failed else 0) + FailuresAdded(s, step, i)
    ensures i < |s.batches| ==> Take(s, step).batches[i].stranded == s.batches[i].stranded
  {
    hide Goto, Finish, SubmittedBatch, Target;
    if step.Submit? {
      SubmitFailures(s, step);
    } else if Delivers(step) {
      FinishOnBatch(s, step.w, Succeeds(step), step.LoadMissing?, i);
    } else if Moves(step) {
      GotoOnBatch(s, step.w, Target(s, step), i);
    }
  }

  /**
   A handle's failure count is exactly the number of documents that could not be stored at submission
   plus the number of load and processing failures delivered to it: skips and successes never count.
   */
  lemma {:induction false} FailedCountsFailures(workers: nat, states: seq<State>, steps: seq<Step>, k: nat, i: nat)
    requires Run(workers, states, steps) && k < |states|
    ensures i >= |states[k].batches| ==> FailuresIn(states, steps, i, k) == 0
    ensures i < |states[k].batches| ==> states[k].batches[i].failed == FailuresIn(states, steps, i, k)
  {
    hide Take, CanTake, FailuresAdded, Inv;
    if k > 0 {
      FailedCountsFailures(workers, states, steps, k - 1, i);
      RunKeepsInv(workers, states, steps, k - 1);
      BatchCount(states[k - 1], steps[k - 1]);
      if i < |states[k].batches| {
        StepOnBatch(states[k - 1], steps[k - 1], i);
      } else {
        NoFailuresYet(states[k - 1], steps[k - 1], i);
      }
    }
  }

  /** Nothing can fail for a batch that no step has created. */
  lemma NoFailuresYet(s: State, step: Step, i: nat)
    requires Inv(s) && CanTake(s, step) && i >= |Take(s, step).batches|
    ensures FailuresAdded(s, step, i) == 0
  {
    hide Accounts, Conserved;
    if DeliversFailure(step) {
      assert KnownItem(s, s.workers[step.w].item);
    }
  }

  // ---------------------------------------------------------------------
  // The chunk semaphore shared by all batches
  // ---------------------------------------------------------------------

  ghost function TokenSum(workers: seq<Worker>): nat {
    if workers == [] then 0 else TokenSum(workers[..|workers| - 1]) + TokensOf(workers[|workers| - 1])
  }

  lemma {:induction false} TokenUpdate(workers: seq<Worker>, w: nat, p: Worker)
    requires w < |workers|
    ensures TokenSum(workers[w := p]) == TokenSum(workers) - TokensOf(workers[w]) + TokensOf(p)
  {
    var last := |workers| - 1;
    if w == last {
      assert workers[w := p][..last] == workers[..last];
    } else {
      assert workers[w := p][..last] == workers[..last][w := p];
      TokenUpdate(workers[..last], w, p);
    }
  }

  lemma {:induction false} TokensBelowSum(workers: seq<Worker>, w: nat)
    requires w < |workers|
    ensures TokensOf(workers[w]) <= TokenSum(workers)
  {
    if w < |workers| - 1 {
      TokensBelowSum(workers[..|workers| - 1], w);
    }
  }

  /**
   A worker that waits for tokens or is in a window has that window before it; one that was handed the
   semaphore has one; one that was not holds no tokens.
   */
  ghost predicate WindowKnown(s: State, p: Worker) {
    (p.AwaitingTokens? || p.InWindow? ==> p.rest != [])
    && (p.AwaitingTokens? || ((p.Processing? || p.InWindow?) && p.guarded) ==> s.capacity.Some?)
    && (p.InWindow? && !p.guarded ==> p.tokens == 0)
  }

  /** The tokens out are those held by workers, within the capacity, and none without a semaphore. */
  ghost predicate TokenInv(s: State) {
    s.inFlight == TokenSum(s.workers)
    && s.inFlight <= (if s.capacity.Some? then s.capacity.value else 0)
    && forall w | 0 <= w < |s.workers| :: WindowKnown(s, s.workers[w])
  }

  lemma GotoKeepsTokens(s: State, w: nat, p: Worker)
    requires TokenInv(s) && w < |s.workers| && WindowKnown(s, p)
    requires s.inFlight - TokensOf(s.workers[w]) + TokensOf(p) <= if s.capacity.Some? then s.capacity.value else 0
    ensures TokenInv(Goto(s, w, p))
  {
    hide TokenSum;
    TokenUpdate(s.workers, w, p);
  }

  lemma FinishKeepsTokens(s: State, w: nat, success: bool, skipped: bool)
    requires TokenInv(s) && w < |s.workers| && !s.workers[w].Idle?
    ensures TokenInv(Finish(s, w, success, skipped))
  {
    hide TokenSum;
    var t := s.(batches := Deliver(s.batches, s.workers[w].item, success, skipped));
    assert TokenInv(t) by {
      assert forall v | 0 <= v < |s.workers| :: WindowKnown(s, s.workers[v]) && WindowKnown(t, s.workers[v]);
    }
    GotoKeepsTokens(t, w, Idle);
  }

  lemma EnvironmentKeepsTokens(s: State, step: Step)
    requires TokenInv(s) && CanTake(s, step) && (step.Submit? || step.Orphan? || step.Dequeue?)
    ensures TokenInv(Take(s, step))
  {
    hide TokenSum, SubmittedBatch;
    var t := Take(s, step);
    if step.Dequeue? {
      TokenUpdate(s.workers, step.w, Loading(s.queue[0]));
    }
    assert forall w | 0 <= w < |s.workers| :: WindowKnown(s, s.workers[w]) && WindowKnown(t, s.workers[w]);
  }

  lemma MoveKeepsTokens(s: State, step: Step)
    requires TokenInv(s) && CanTake(s, step) && Moves(step)
    ensures TokenInv(Goto(s, step.w, Target(s, step)))
  {
    hide TokenSum, Goto;
    var p, q := s.workers[step.w], Target(s, step);
    assert WindowKnown(s, p);
    assert TokensOf(p) <= s.inFlight by {
      TokensBelowSum(s.workers, step.w);
    }
    GotoKeepsTokens(s, step.w, q);
  }

  lemma StepKeepsTokens(s: State, step: Step)
    requires TokenInv(s) && CanTake(s, step)
    ensures TokenInv(Take(s, step))
  {
    hide TokenInv, Goto, Finish, Target;
    if Delivers(step) {
      FinishKeepsTokens(s, step.w, Succeeds(step), step.LoadMissing?);
    } else if Moves(step) {
      MoveKeepsTokens(s, step);
    } else {
      EnvironmentKeepsTokens(s, step);
    }
  }

  /**
   At every point of every run the chunk tokens out are exactly those held by workers in a window, of
   whatever batch, and never exceed the capacity; giving them back never underflows.
   */
  lemma {:induction false} TokensBounded(workers: nat, states: seq<State>, steps: seq<Step>, k: nat)
    requires Run(workers, states, steps) && k < |states|
    ensures TokenInv(states[k])
    ensures forall w | 0 <= w < |states[k].workers| :: TokensOf(states[k].workers[w]) <= states[k].inFlight
  {
    hide Take, CanTake, TokenInv, TokenSum;
    if k == 0 {
      InitTokens(workers);
    } else {
      TokensBounded(workers, states, steps, k - 1);
      StepKeepsTokens(states[k - 1], steps[k - 1]);
    }
    forall w | 0 <= w < |states[k].workers| ensures TokensOf(states[k].workers[w]) <= states[k].inFlight {
      HeldTokensOut(states[k], w);
    }
  }

  lemma HeldTokensOut(s: State, w: nat)
    requires TokenInv(s) && w < |s.workers|
    ensures TokensOf(s.workers[w]) <= s.inFlight
  {
    TokensBelowSum(s.workers, w);
  }

  lemma {:induction false} IdleTokens(workers: seq<Worker>)
    requires forall w | 0 <= w < |workers| :: !workers[w].InWindow?
    ensures TokenSum(workers) == 0
  {
    if workers != [] {
      IdleTokens(workers[..|workers| - 1]);
    }
  }

  lemma InitTokens(workers: nat)
    ensures TokenInv(Init(workers))
  {
    IdleTokens(Init(workers).workers);
  }

  // ---------------------------------------------------------------------
  // Progress
  // ---------------------------------------------------------------------

  ghost predicate Quiescent(s: State) {
    s.queue == [] && forall w | 0 <= w < |s.workers| :: s.workers[w].Idle?
  }

  ghost predicate PoolCanStep(s: State) {
    exists step :: IsPoolStep(step) && CanTake(s, step)
  }

  lemma Enables(s: State, step: Step)
    requires IsPoolStep(step) && CanTake(s, step)
    ensures PoolCanStep(s)
  {
  }

  /** If nothing is being processed for a batch, all its permits are free. */
  lemma PermitsFree(s: State, i: nat)
    requires Inv(s) && i < |s.batches|
    requires forall w | 0 <= w < |s.workers| :: !HoldsPermit(s.workers[w])
    ensures s.batches[i].permits >= 1
  {
    CollectNone(s.workers, PermittedFor(i));
    assert Accounts(s.batches[i]) && Conserved(s, i);
  }

  /** If no worker is in a window, every worker that waits for tokens may have them, however many it needs. */
  lemma TokensAvailable(s: State, w: nat)
    requires TokenInv(s) && w < |s.workers| && s.workers[w].AwaitingTokens?
    requires forall v | 0 <= v < |s.workers| :: !s.workers[v].InWindow?
    ensures TokensFree(s, s.workers[w])
  {
    IdleTokens(s.workers);
    assert WindowKnown(s, s.workers[w]);
  }

  /**
   A pool with at least one worker is never stuck before everything has been processed, although its
   workers block on per-batch permits and, while holding them, on chunk tokens shared by all batches.
   */
  lemma NeverStuck(s: State)
    requires Inv(s) && TokenInv(s) && |s.workers| > 0 && !Quiescent(s)
    ensures PoolCanStep(s)
  {
    hide Accounts, Conserved, PoolCanStep, TokenSum;
    if w :| 0 <= w < |s.workers| && s.workers[w].Loading? {
      Enables(s, LoadOk(w));
    } else if w :| 0 <= w < |s.workers| && s.workers[w].Preparing? {
      Enables(s, StartEngine(w));
    } else if w :| 0 <= w < |s.workers| && s.workers[w].Processing? {
      Enables(s, if s.workers[w].rest == [] then ProcessOk(w) else EnterWindow(w));
    } else if w :| 0 <= w < |s.workers| && s.workers[w].InWindow? {
      assert WindowKnown(s, s.workers[w]);
      Enables(s, LeaveWindow(w));
    } else if w :| 0 <= w < |s.workers| && s.workers[w].AwaitingTokens? {
      TokensAvailable(s, w);
      Enables(s, TakeTokens(w));
    } else if w :| 0 <= w < |s.workers| && s.workers[w].RecordingFailure? {
      Enables(s, FailureRecorded(w));
    } else if w :| 0 <= w < |s.workers| && s.workers[w].FallingBack? {
      Enables(s, FallbackRecorded(w));
    } else if w :| 0 <= w < |s.workers| && s.workers[w].AwaitingPermit? {
      PermitsFree(s, s.workers[w].item.batch.value);
      Enables(s, TakePermit(w));
    } else {
      assert s.workers[0].Idle?;
      Enables(s, Dequeue(0));
    }
  }

  /** Steps a worker can still take with what it has in hand; a window takes three. */
  function Rank(p: Worker): nat {
    match p
    case Idle => 0
    case RecordingFailure(_) => 1
    case FallingBack(_) => 1
    case InWindow(_, rest, _, _) => 2 + 3 * |rest|
    case AwaitingTokens(_, rest) => 3 + 3 * |rest|
    case Processing(_, rest, _) => 4 + 3 * |rest|
    case Preparing(item) => 5 + 3 * |item.plan.windows|
    case AwaitingPermit(item) => 6 + 3 * |item.plan.windows|
    case Loading(item) => 7 + 3 * |item.plan.windows|
  }

  ghost function RankSum(workers: seq<Worker>): nat {
    if workers == [] then 0 else RankSum(workers[..|workers| - 1]) + Rank(workers[|workers| - 1])
  }

  ghost function QueueWork(queue: seq<Item>): nat {
    if queue == [] then 0 else 8 + 3 * |queue[0].plan.windows| + QueueWork(queue[1..])
  }

  /** An upper bound on the steps the pool can still take. */
  ghost function Work(s: State): nat {
    QueueWork(s.queue) + RankSum(s.workers)
  }

  lemma {:induction false} RankUpdate(workers: seq<Worker>, w: nat, p: Worker)
    requires w < |workers|
    ensures RankSum(workers[w := p]) == RankSum(workers) - Rank(workers[w]) + Rank(p)
  {
    hide Rank;
    var last := |workers| - 1;
    if w == last {
      assert workers[w := p][..last] == workers[..last];
    } else {
      assert workers[w := p][..last] == workers[..last][w := p];
      RankUpdate(workers[..last], w, p);
    }
  }

  /** A pool step takes a worker to a position of lower rank; only taking from the queue raises it, by less than the item was worth. */
  lemma PoolStepRank(s: State, step: Step)
    requires IsPoolStep(step) && CanTake(s, step)
    ensures var t := Take(s, step);
            step.w < |s.workers| && t.workers == s.workers[step.w := t.workers[step.w]]
            && if step.Dequeue? then t.queue == s.queue[1..] && Rank(t.workers[step.w]) == 7 + 3 * |s.queue[0].plan.windows|
               else t.queue == s.queue && Rank(t.workers[step.w]) < Rank(s.workers[step.w])
  {
    hide Target, SubmittedBatch, AddPermit, Deliver;
    if Moves(step) {
      hide Rank;
      TargetRank(s, step);
    }
  }

  lemma TargetRank(s: State, step: Step)
    requires Moves(step) && CanTake(s, step)
    ensures Rank(Target(s, step)) < Rank(s.workers[step.w])
  {
  }

  /** Every pool step leaves strictly less work. */
  lemma PoolStepWorks(s: State, step: Step)
    requires IsPoolStep(step) && CanTake(s, step)
    ensures Work(Take(s, step)) < Work(s)
  {
    PoolStepRank(s, step);
    hide RankSum, Rank, Take;
    var t := Take(s, step);
    RankUpdate(s.workers, step.w, t.workers[step.w]);
    if step.Dequeue? {
      IdleRank(s.workers[step.w]);
    }
  }

  lemma IdleRank(p: Worker)
    requires p.Idle?
    ensures Rank(p) == 0
  {
  }

  /** Without new submissions the pool takes at most as many steps as there is work. */
  lemma {:induction false} PoolRunBounded(states: seq<State>, steps: seq<Step>)
    requires |states| == |steps| + 1
    requires forall k | 0 <= k < |steps| ::
               IsPoolStep(steps[k]) && CanTake(states[k], steps[k]) && states[k + 1] == Take(states[k], steps[k])
    ensures |steps| + Work(states[|steps|]) <= Work(states[0])
    decreases |steps|
  {
    hide Work, CanTake, Take;
    if steps != [] {
      var n := |steps| - 1;
      PoolRunBounded(states[..n + 1], steps[..n]);
      PoolStepWorks(states[n], steps[n]);
    }
  }

  lemma QuiescentMeansDone(s: State, i: nat)
    requires Inv(s) && Quiescent(s) && i < |s.batches| && s.batches[i].stranded == multiset{}
    ensures s.batches[i].done && Delivered(s.batches[i]) == s.batches[i].docs
  {
    hide Delivered;
    CollectNone(s.queue, InBatch(i));
    CollectNone(s.workers, HeldFor(i));
    RemainingIsOutstanding(s, i);
    assert Accounts(s.batches[i]) && Conserved(s, i);
  }

  lemma TakeKeepsWorkers(s: State, step: Step)
    requires CanTake(s, step)
    ensures |Take(s, step).workers| == |s.workers|
  {
  }

  lemma {:induction false} RunKeepsWorkers(workers: nat, states: seq<State>, steps: seq<Step>, k: nat)
    requires Run(workers, states, steps) && k < |states|
    ensures |states[k].workers| == workers
  {
    hide CanTake, Take;
    if k > 0 {
      RunKeepsWorkers(workers, states, steps, k - 1);
      TakeKeepsWorkers(states[k - 1], steps[k - 1]);
    }
  }

  /** Where the pool cannot go on, everything has been processed. */
  lemma StoppedMeansQuiescent(workers: nat, states: seq<State>, steps: seq<Step>, k: nat)
    requires workers > 0 && Run(workers, states, steps) && k < |states| && !PoolCanStep(states[k])
    ensures Inv(states[k]) && Quiescent(states[k])
  {
    hide Inv, TokenInv, PoolCanStep, CanTake, Take;
    RunKeepsInv(workers, states, steps, k);
    TokensBounded(workers, states, steps, k);
    RunKeepsWorkers(workers, states, steps, k);
    if !Quiescent(states[k]) {
      NeverStuck(states[k]);
    }
  }

  // ---------------------------------------------------------------------
  // Waiting on a batch
  // ---------------------------------------------------------------------

  lemma TakeKeepsStranded(s: State, step: Step, i: nat)
    requires CanTake(s, step) && i < |s.batches|
    ensures i < |Take(s, step).batches| && Take(s, step).batches[i].stranded == s.batches[i].stranded
  {
    BatchCount(s, step);
    hide Take;
    StepOnBatch(s, step, i);
  }

  /** What a batch has stranded is settled by its submission and never changes. */
  lemma {:induction false} StrandedSinceSubmission(workers: nat, states: seq<State>, steps: seq<Step>, j: nat, k: nat)
    requires Run(workers, states, steps) && j < |steps| && steps[j].Submit? && j < k < |states|
    ensures var i := |states[j].batches|;
            i < |states[k].batches|
            && states[k].batches[i].stranded == (if steps[j].running then multiset{} else multiset(steps[j].pending))
    decreases k
  {
    var i := |states[j].batches|;
    if k == j + 1 {
      assert CanTake(states[j], steps[j]);
      hide Accounts, Delivered;
      SubmittedAccounts(steps[j]);
    } else {
      hide CanTake, Take;
      StrandedSinceSubmission(workers, states, steps, j, k - 1);
      TakeKeepsStranded(states[k - 1], steps[k - 1], i);
    }
  }

  /** A batch submitted while the processor runs, or with nothing pending, is done once the pool cannot go on. */
  lemma WaitReturns(workers: nat, states: seq<State>, steps: seq<Step>, j: nat, k: nat)
    requires workers > 0 && Run(workers, states, steps) && j < |steps| && j < k < |states|
    requires steps[j].Submit? && (steps[j].running || steps[j].pending == [])
    requires !PoolCanStep(states[k])
    ensures var i := |states[j].batches|;
            i < |states[k].batches|
            && states[k].batches[i].done && Delivered(states[k].batches[i]) == states[k].batches[i].docs
  {
    StrandedSinceSubmission(workers, states, steps, j, k);
    StoppedMeansQuiescent(workers, states, steps, k);
    hide Inv, Quiescent, Run, PoolCanStep, Delivered;
    assert steps[j].pending == [] ==> multiset(steps[j].pending) == multiset{};
    QuiescentMeansDone(states[k], |states[j].batches|);
  }

  /**
   A batch submitted with documents pending while the processor does not run is never done: the
   submission raises after its early results went out.
   */
  lemma StrandedNeverDone(workers: nat, states: seq<State>, steps: seq<Step>, j: nat, k: nat)
    requires Run(workers, states, steps) && j < |steps| && j < k < |states|
    requires steps[j].Submit? && !steps[j].running && steps[j].pending != []
    ensures var i := |states[j].batches|;
            i < |states[k].batches| && !states[k].batches[i].done && states[k].batches[i].remaining >= |steps[j].pending|
  {
    hide Run, Delivered, Queued, Held, InFlight;
    StrandedSinceSubmission(workers, states, steps, j, k);
    var i := |states[j].batches|;
    ExactlyOnce(workers, states, steps, k, i);
    assert |states[k].batches[i].stranded| == |steps[j].pending|;
  }

  /**
   Once the pool has done what it can, a batch is done exactly when the processor was running at its
   submission or nothing was pending. In the other case the submission has called back for the early
   results and then raised, so there is no handle to wait on.
   */
  lemma WaitReturnsExactly(workers: nat, states: seq<State>, steps: seq<Step>, j: nat, k: nat)
    requires workers > 0 && Run(workers, states, steps) && j < |steps| && j < k < |states|
    requires steps[j].Submit? && !PoolCanStep(states[k])
    ensures |states[j].batches| < |states[k].batches|
    ensures states[k].batches[|states[j].batches|].done <==> steps[j].running || steps[j].pending == []
  {
    hide Run, PoolCanStep;
    if steps[j].running || steps[j].pending == [] {
      WaitReturns(workers, states, steps, j, k);
    } else {
      StrandedNeverDone(workers, states, steps, j, k);
    }
  }

  // ---------------------------------------------------------------------
  // The registration object
  // ---------------------------------------------------------------------

  /** A handle and its registration; `calls` records the callback's invocations. */
  class Registration {
    const total: int
    var completed: int
    var failed: int
    var remaining: int
    var done: bool
    var calls: seq<Delivery>

    constructor (total: nat)
      ensures this.total == total && completed == failed == 0 && remaining == total && !done && calls == []
    {
      this.total := total;
      completed, failed, remaining, done, calls := 0, 0, total, false, [];
    }

    /** The counters of `b` are those of this object. */
    ghost predicate Mirrors(b: Batch)
      reads this
    {
      b.total == total && b.completed == completed && b.failed == failed && b.remaining == remaining
      && b.done == done && b.seen == calls
    }

    method RecordResult(r: DocumentResult)
      modifies this`completed, this`failed
      ensures completed == old(completed) + 1 && failed == old(failed) + if r.success then 0 else 1
    {
      completed := completed + 1;
      if !r.success {
        failed := failed + 1;
      }
    }

    /** Delivers one result: the object goes on mirroring the batch of the step system. */
    method FireResult(r: DocumentResult, ghost b: Batch)
      requires Mirrors(b)
      modifies this
      ensures Mirrors(Fire(b, r))
    {
      RecordResult(r);
      calls := calls + [Delivery(completed, total, r)];
      remaining := remaining - 1;
      if remaining <= 0 {
        done := true;
      }
    }
  }
}
