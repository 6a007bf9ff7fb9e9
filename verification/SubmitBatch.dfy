/**
 Submission: sorts the documents of a batch into those to process, those that failed to be stored and
 those that need no processing, updating the stored rows on the way.
 */
module SubmitBatch {
  import opened Wrappers
  import opened BatchModel

  datatype Status = Pending | InProgress | Completed | Failed | Archived

  datatype Row = Row(status: Status, content: string)

  /** A submitted document; an absent external id is the empty string. */
  datatype Document = Document(externalId: string, content: string)

  datatype Existing = Existing(id: DocId, status: Status)

  /**
   A submission and its environment: the rows found by external id (none if the lookup failed), the
   id a new row for each document would get, and whether storing each document succeeds.
   */
  datatype Request = Request(
    documents: seq<Document>,
    existing: map<string, Existing>,
    freshIds: seq<DocId>,
    stored: seq<bool>,
    reprocessArchived: bool)
  {
    ghost predicate Valid() {
      |freshIds| == |stored| == |documents|
      && (forall x, y | x in existing && y in existing && existing[x].id == existing[y].id :: x == y)
      && (forall j, k | 0 <= j < k < |freshIds| :: freshIds[j] != freshIds[k])
      && (forall x, k | x in existing && 0 <= k < |freshIds| :: existing[x].id != freshIds[k])
    }

    /** Document k is not a repetition of an earlier external id. */
    ghost predicate First(k: int)
      requires 0 <= k < |documents|
    {
      documents[k].externalId == "" || forall j | 0 <= j < k :: documents[j].externalId != documents[k].externalId
    }

    predicate Known(k: int)
      requires 0 <= k < |documents|
    {
      documents[k].externalId != "" && documents[k].externalId in existing
    }

    function DocOf(k: int): DocId
      requires Valid() && 0 <= k < |documents|
    {
      if Known(k) then existing[documents[k].externalId].id else freshIds[k]
    }

    /** The document exists and must be left alone. */
    predicate Untouchable(k: int)
      requires 0 <= k < |documents|
    {
      Known(k) &&
      var status := existing[documents[k].externalId].status;
      status == Completed || status == InProgress || (status == Archived && !reprocessArchived)
    }

    function Placement(k: int): Place
      requires Valid() && 0 <= k < |documents|
    {
      if Untouchable(k) then PreCompleted else if stored[k] then ToProcess else PreFailed
    }
  }

  datatype Place = ToProcess | PreFailed | PreCompleted

  /** A placed document: its position in the submission and its id. */
  datatype Placed = Placed(index: int, doc: DocId)

  // ---------------------------------------------------------------------
  // Specification
  // ---------------------------------------------------------------------

  /** The first occurrences below n that belong in a place, in submission order. */
  ghost function In(r: Request, place: Place, n: nat): seq<Placed>
    requires r.Valid() && n <= |r.documents|
  {
    if n == 0 then []
    else In(r, place, n - 1)
         + if r.First(n - 1) && r.Placement(n - 1) == place then [Placed(n - 1, r.DocOf(n - 1))] else []
  }

  /** The rows after the first n documents: only stored documents of the first place change a row. */
  ghost function RowsAfter(r: Request, rows: map<DocId, Row>, n: nat): map<DocId, Row>
    requires r.Valid() && n <= |r.documents|
  {
    if n == 0 then rows
    else
      var before := RowsAfter(r, rows, n - 1);
      if r.First(n - 1) && r.Placement(n - 1) == ToProcess
      then before[r.DocOf(n - 1) := Row(Pending, r.documents[n - 1].content)]
      else before
  }

  /** Re-queued documents whose earlier extraction must be cleared first. */
  ghost function ClearedAfter(r: Request, n: nat): set<DocId>
    requires r.Valid() && n <= |r.documents|
  {
    if n == 0 then {}
    else
      var k := n - 1;
      ClearedAfter(r, k)
      + if r.First(k) && r.Known(k) && !r.Untouchable(k)
           && (r.existing[r.documents[k].externalId].status == Failed || r.existing[r.documents[k].externalId].status == Archived)
        then {r.DocOf(k)} else {}
  }

  /** A place holds exactly the first occurrences that belong there, each once, in order. */
  lemma {:induction false} InMembers(r: Request, place: Place, n: nat)
    requires r.Valid() && n <= |r.documents|
    ensures forall p: Placed :: p in In(r, place, n) <==> Belongs(r, place, n, p)
    ensures forall a, b | 0 <= a < b < |In(r, place, n)| :: In(r, place, n)[a].index < In(r, place, n)[b].index
  {
    hide Request.First, Request.Placement, Request.DocOf, Request.Valid;
    if n > 0 {
      InMembers(r, place, n - 1);
      var before, k := In(r, place, n - 1), n - 1;
      assert forall a | 0 <= a < |before| :: before[a] in before;
      var here := r.First(k) && r.Placement(k) == place;
      forall p: Placed ensures p in In(r, place, n) <==> Belongs(r, place, n, p) {
        assert p in In(r, place, n) <==> p in before || (here && p == Placed(k, r.DocOf(k)));
      }
    }
  }

  ghost predicate Belongs(r: Request, place: Place, n: nat, p: Placed)
    requires r.Valid() && n <= |r.documents|
  {
    0 <= p.index < n && r.First(p.index) && r.Placement(p.index) == place && p.doc == r.DocOf(p.index)
  }

  /** How many first occurrences there are below n. */
  ghost function Firsts(r: Request, n: nat): nat
    requires n <= |r.documents|
  {
    if n == 0 then 0 else Firsts(r, n - 1) + if r.First(n - 1) then 1 else 0
  }

  /** The three places partition the first occurrences; a non-empty submission has at least one. */
  lemma {:induction false} PlacesPartition(r: Request, n: nat)
    requires r.Valid() && n <= |r.documents|
    ensures |In(r, ToProcess, n)| + |In(r, PreFailed, n)| + |In(r, PreCompleted, n)| == Firsts(r, n)
    ensures n > 0 ==> Firsts(r, n) > 0
  {
    if n > 0 {
      PlacesPartition(r, n - 1);
      assert r.First(0);
    }
  }

  /** Distinct first occurrences are distinct documents. */
  lemma FirstsDistinct(r: Request, j: int, k: int)
    requires r.Valid() && 0 <= j < k < |r.documents| && r.First(j) && r.First(k)
    ensures r.DocOf(j) != r.DocOf(k)
  {
  }

  /** Document k is due again although an earlier attempt at it failed or was archived, even if its row then cannot be updated. */
  ghost predicate Reattempted(r: Request, k: int)
    requires r.Valid() && 0 <= k < |r.documents|
  {
    r.First(k) && r.Known(k) && !r.Untouchable(k)
    && var status := r.existing[r.documents[k].externalId].status; status == Failed || status == Archived
  }

  /**
   Exactly the documents with leftovers of an earlier attempt are cleared before processing: those
   found failed, and those found archived if archived ones are reprocessed; never a skipped document.
   */
  lemma {:induction false} ClearedMeaning(r: Request, n: nat)
    requires r.Valid() && n <= |r.documents|
    ensures forall id :: id in ClearedAfter(r, n) <==> exists k :: 0 <= k < n && Reattempted(r, k) && r.DocOf(k) == id
  {
    if n > 0 {
      ClearedMeaning(r, n - 1);
      var before, k := ClearedAfter(r, n - 1), n - 1;
      var after := before + if Reattempted(r, k) then {r.DocOf(k)} else {};
      assert ClearedAfter(r, n) == after;
      hide Reattempted, ClearedAfter;
      forall id | id in after
        ensures exists j :: 0 <= j < n && Reattempted(r, j) && r.DocOf(j) == id
      {
        if id in before {
          var j :| 0 <= j < n - 1 && Reattempted(r, j) && r.DocOf(j) == id;
        }
      }
    }
  }

  lemma SkippedNeverCleared(r: Request, k: int)
    requires r.Valid() && 0 <= k < |r.documents| && r.Untouchable(k)
    ensures r.DocOf(k) !in ClearedAfter(r, |r.documents|)
  {
    ClearedMeaning(r, |r.documents|);
    forall j | 0 <= j < |r.documents| && Reattempted(r, j) ensures r.DocOf(j) != r.DocOf(k) {
    }
  }

  /**
   Where a first occurrence goes, by the status of the row found for it: completed and in-progress
   documents need no processing, archived ones neither unless they are to be reprocessed; everything else,
   new documents included, is processed if it can be stored and has failed otherwise. Known documents
   keep their id.
   */
  lemma PlacedByStatus(r: Request, k: int)
    requires r.Valid() && 0 <= k < |r.documents|
    requires r.documents[k].externalId == "" || forall j | 0 <= j < k :: r.documents[j].externalId != r.documents[k].externalId
    ensures var x, n := r.documents[k].externalId, |r.documents|;
            var id := if x != "" && x in r.existing then r.existing[x].id else r.freshIds[k];
            var place :=
              if x != "" && x in r.existing && r.existing[x].status == Completed then PreCompleted
              else if x != "" && x in r.existing && r.existing[x].status == InProgress then PreCompleted
              else if x != "" && x in r.existing && r.existing[x].status == Archived && !r.reprocessArchived then PreCompleted
              else if r.stored[k] then ToProcess else PreFailed;
            Placed(k, id) in In(r, place, n)
            && (forall other | other != place :: Placed(k, id) !in In(r, other, n))
            && (id in ClearedAfter(r, n) <==>
                  place != PreCompleted && x != "" && x in r.existing
                  && (r.existing[x].status == Failed || r.existing[x].status == Archived))
  {
    var n := |r.documents|;
    InMembers(r, ToProcess, n);
    InMembers(r, PreFailed, n);
    InMembers(r, PreCompleted, n);
    ClearedMeaning(r, n);
    hide In, ClearedAfter;
    assert r.First(k);
    if Reattempted(r, k) {
      assert r.DocOf(k) in ClearedAfter(r, n);
    }
  }

  /** A repetition of an earlier external id is placed nowhere. */
  lemma RepetitionsDropped(r: Request, j: int, k: int, place: Place)
    requires r.Valid() && 0 <= j < k < |r.documents|
    requires r.documents[j].externalId == r.documents[k].externalId != ""
    ensures forall p | p in In(r, place, |r.documents|) :: p.index != k
  {
    InMembers(r, place, |r.documents|);
  }

  /** The rows of completed and in-progress documents, and of archived ones not to be reprocessed, are as they were. */
  lemma RowsKeptByStatus(r: Request, rows: map<DocId, Row>, x: string)
    requires r.Valid() && x in r.existing
    requires r.existing[x].status == Completed || r.existing[x].status == InProgress
          || (r.existing[x].status == Archived && !r.reprocessArchived)
    ensures var id, after := r.existing[x].id, RowsAfter(r, rows, |r.documents|);
            (id in after <==> id in rows) && (id in rows ==> after[id] == rows[id])
  {
    forall k | 0 <= k < |r.documents| && r.First(k) && r.Placement(k) == ToProcess ensures r.DocOf(k) != r.existing[x].id {
    }
    RowElsewhere(r, rows, |r.documents|, r.existing[x].id);
  }

  lemma {:induction false} RowElsewhere(r: Request, rows: map<DocId, Row>, n: nat, id: DocId)
    requires r.Valid() && n <= |r.documents|
    requires forall k | 0 <= k < n && r.First(k) && r.Placement(k) == ToProcess :: r.DocOf(k) != id
    ensures id in RowsAfter(r, rows, n) <==> id in rows
    ensures id in rows ==> RowsAfter(r, rows, n)[id] == rows[id]
  {
    if n > 0 {
      RowElsewhere(r, rows, n - 1, id);
    }
  }

  /** Rows of completed, in-progress and (unless asked for) archived documents are left as they were. */
  lemma UntouchableRowsKept(r: Request, rows: map<DocId, Row>, k: int)
    requires r.Valid() && 0 <= k < |r.documents| && r.Untouchable(k)
    ensures var id := r.DocOf(k);
            (id in RowsAfter(r, rows, |r.documents|) <==> id in rows)
            && (id in rows ==> RowsAfter(r, rows, |r.documents|)[id] == rows[id])
  {
    forall j | 0 <= j < |r.documents| && r.First(j) && r.Placement(j) == ToProcess ensures r.DocOf(j) != r.DocOf(k) {
      if r.Known(j) {
        assert r.documents[j].externalId != r.documents[k].externalId;
      }
    }
    RowElsewhere(r, rows, |r.documents|, r.DocOf(k));
  }

  /** Every document to be processed has a PENDING row with the submitted content. */
  lemma {:induction false} PendingRowsStored(r: Request, rows: map<DocId, Row>, n: nat, k: int)
    requires r.Valid() && n <= |r.documents| && 0 <= k < n && r.First(k) && r.Placement(k) == ToProcess
    ensures r.DocOf(k) in RowsAfter(r, rows, n)
    ensures RowsAfter(r, rows, n)[r.DocOf(k)] == Row(Pending, r.documents[k].content)
  {
    if k < n - 1 {
      PendingRowsStored(r, rows, n - 1, k);
      if r.First(n - 1) {
        FirstsDistinct(r, k, n - 1);
      }
    }
  }

  function Docs(placed: seq<Placed>): seq<DocId> {
    seq(|placed|, k requires 0 <= k < |placed| => placed[k].doc)
  }

  /** The step of the batch processor that a submission amounts to. */
  ghost function AsStep(r: Request, maxConcurrent: int, running: bool, maxChunks: Option<nat>, plans: DocId -> Plan): Step
    requires r.Valid()
  {
    var n := |r.documents|;
    Submit(Docs(In(r, ToProcess, n)), Docs(In(r, PreFailed, n)), Docs(In(r, PreCompleted, n)),
           maxConcurrent, running, maxChunks, plans)
  }

  /** The ids in one place below n. */
  ghost function DocsIn(r: Request, place: Place, n: nat): multiset<DocId>
    requires r.Valid() && n <= |r.documents|
  {
    multiset(Docs(In(r, place, n)))
  }

  lemma DocsInStep(r: Request, place: Place, n: nat)
    requires r.Valid() && 0 < n <= |r.documents|
    ensures DocsIn(r, place, n) == DocsIn(r, place, n - 1)
              + if r.First(n - 1) && r.Placement(n - 1) == place then multiset{r.DocOf(n - 1)} else multiset{}
  {
    var before, k := In(r, place, n - 1), n - 1;
    if r.First(k) && r.Placement(k) == place {
      assert Docs(before + [Placed(k, r.DocOf(k))]) == Docs(before) + [r.DocOf(k)];
    } else {
      assert before + [] == before;
    }
  }

  ghost predicate Submitted(r: Request, n: nat, id: DocId)
    requires r.Valid() && n <= |r.documents|
  {
    exists k :: 0 <= k < n && r.First(k) && r.DocOf(k) == id
  }

  ghost function AllDocs(r: Request, n: nat): multiset<DocId>
    requires r.Valid() && n <= |r.documents|
  {
    DocsIn(r, ToProcess, n) + DocsIn(r, PreFailed, n) + DocsIn(r, PreCompleted, n)
  }

  lemma AllDocsStep(r: Request, n: nat)
    requires r.Valid() && 0 < n <= |r.documents|
    ensures AllDocs(r, n) == AllDocs(r, n - 1) + if r.First(n - 1) then multiset{r.DocOf(n - 1)} else multiset{}
  {
    hide DocsIn, Request.First, Request.Placement, Request.DocOf, Request.Valid;
    DocsInStep(r, ToProcess, n);
    DocsInStep(r, PreFailed, n);
    DocsInStep(r, PreCompleted, n);
  }

  lemma NoDocs(r: Request)
    requires r.Valid()
    ensures AllDocs(r, 0) == multiset{}
  {
    assert Docs(In(r, ToProcess, 0)) == Docs(In(r, PreFailed, 0)) == Docs(In(r, PreCompleted, 0)) == [];
  }

  lemma {:induction false} CountedOnce(r: Request, n: nat, id: DocId)
    requires r.Valid() && n <= |r.documents|
    ensures AllDocs(r, n)[id] == if Submitted(r, n, id) then 1 else 0
  {
    hide AllDocs, Request.First, Request.DocOf, Request.Valid;
    if n == 0 {
      NoDocs(r);
    } else {
      var k := n - 1;
      CountedOnce(r, k, id);
      AllDocsStep(r, n);
      if Submitted(r, k, id) {
        var j :| 0 <= j < k && r.First(j) && r.DocOf(j) == id;
        if r.First(k) {
          FirstsDistinct(r, j, k);
        }
      }
    }
  }

  /** A submitted batch counts each distinct document exactly once, and its total is their number. */
  lemma BatchCountsOnce(r: Request, step: Step)
    requires r.Valid() && step.Submit?
    requires step == AsStep(r, step.maxConcurrent, step.running, step.maxChunks, step.plans)
    ensures forall id :: NewBatch(step).docs[id] == if Submitted(r, |r.documents|, id) then 1 else 0
    ensures NewBatch(step).total == Firsts(r, |r.documents|)
  {
    var n := |r.documents|;
    PlacesPartition(r, n);
    forall id ensures NewBatch(step).docs[id] == if Submitted(r, n, id) then 1 else 0 {
      CountedOnce(r, n, id);
    }
  }

  // ---------------------------------------------------------------------
  // The program
  // ---------------------------------------------------------------------

  /** The classification loop. */
  method Classify(r: Request, rows: map<DocId, Row>)
    returns (pending: seq<Placed>, preFailed: seq<Placed>, preCompleted: seq<Placed>,
             rows': map<DocId, Row>, clearFirst: set<DocId>)
    requires r.Valid()
    ensures pending == In(r, ToProcess, |r.documents|)
    ensures preFailed == In(r, PreFailed, |r.documents|)
    ensures preCompleted == In(r, PreCompleted, |r.documents|)
    ensures rows' == RowsAfter(r, rows, |r.documents|)
    ensures clearFirst == ClearedAfter(r, |r.documents|)
  {
    pending, preFailed, preCompleted := [], [], [];
    rows', clearFirst := rows, {};
    var seen: set<string> := {};
    for k := 0 to |r.documents|
      invariant forall x :: x in seen <==> x != "" && exists j :: 0 <= j < k && r.documents[j].externalId == x
      invariant pending == In(r, ToProcess, k)
      invariant preFailed == In(r, PreFailed, k)
      invariant preCompleted == In(r, PreCompleted, k)
      invariant rows' == RowsAfter(r, rows, k)
      invariant clearFirst == ClearedAfter(r, k)
    {
      var doc := r.documents[k];
      var x := doc.externalId;
      assert r.First(k) <==> x == "" || x !in seen;
      if x != "" {
        if x in seen {
          continue;
        }
        seen := seen + {x};
      }
      if x != "" && x in r.existing {
        var existing := r.existing[x];
        if existing.status == Completed {
          preCompleted := preCompleted + [Placed(k, existing.id)];
          continue;
        }
        if existing.status == InProgress {
          preCompleted := preCompleted + [Placed(k, existing.id)];
          continue;
        }
        if existing.status == Archived && !r.reprocessArchived {
          preCompleted := preCompleted + [Placed(k, existing.id)];
          continue;
        }
        if existing.status == Failed || existing.status == Archived {
          clearFirst := clearFirst + {existing.id};
        }
        if r.stored[k] {
          rows' := rows'[existing.id := Row(Pending, doc.content)];
          pending := pending + [Placed(k, existing.id)];
        } else {
          preFailed := preFailed + [Placed(k, existing.id)];
        }
        continue;
      }
      if r.stored[k] {
        rows' := rows'[r.freshIds[k] := Row(Pending, doc.content)];
        pending := pending + [Placed(k, r.freshIds[k])];
      } else {
        preFailed := preFailed + [Placed(k, r.freshIds[k])];
      }
    }
  }
}
