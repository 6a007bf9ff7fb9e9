/**
 The vault indexer: a hash-gated cache over a document backend. Backend calls apply or fail as a
 whole, operations do not overlap, and re-indexing is never forced.
 */
module Indexer {
  import opened HashStore

  /** A note as the vault holds it. */
  datatype Note = Note(path: string, content: string)

  /** What an operation works under: the ignore rules and what counts as blank. */
  datatype Rules = Rules(ignored: string -> bool, blank: string -> bool)

  type Vault = seq<Note>

  ghost predicate DistinctPaths(vault: Vault) {
    forall i, j | 0 <= i < j < |vault| :: vault[i].path != vault[j].path
  }

  /** The paths of notes that are not ignored. */
  ghost predicate Eligible(rules: Rules, vault: Vault, path: string) {
    !rules.ignored(path) && exists i :: 0 <= i < |vault| && vault[i].path == path
  }

  /** The document store behind the sidecar: remember is an upsert, forget a delete. */
  class Backend {
    var docs: map<string, string>
    ghost var rememberFaults: nat
    ghost var forgetFaults: nat

    constructor ()
      ensures docs == map[] && rememberFaults == forgetFaults == 0
    {
      docs, rememberFaults, forgetFaults := map[], 0, 0;
    }

    method Remember(path: string, content: string) returns (ok: bool)
      modifies this
      ensures docs == if ok then old(docs)[path := content] else old(docs)
      ensures rememberFaults == old(rememberFaults) + if ok then 0 else 1
      ensures forgetFaults == old(forgetFaults)
    {
      ok := *;
      if ok {
        docs := docs[path := content];
      } else {
        rememberFaults := rememberFaults + 1;
      }
    }

    method Forget(path: string) returns (ok: bool)
      modifies this
      ensures docs == if ok then old(docs) - {path} else old(docs)
      ensures forgetFaults == old(forgetFaults) + if ok then 0 else 1
      ensures rememberFaults == old(rememberFaults)
    {
      ok := *;
      if ok {
        docs := docs - {path};
      } else {
        forgetFaults := forgetFaults + 1;
      }
    }
  }

  /** Every tracked path is stored in the backend, with content of the tracked hash. */
  ghost predicate InSync(hash: string -> string, entries: Entries, docs: map<string, string>) {
    forall p | p in entries :: p in docs && hash(docs[p]) == entries[p].hash
  }

  ghost predicate TrackedAt(hash: string -> string, entries: Entries, note: Note) {
    note.path in entries && entries[note.path].hash == hash(note.content)
  }

  /** `gone` is no longer tracked, and the backend no longer holds it either, except for `leaked`. */
  ghost predicate Dropped(entries0: Entries, docs0: map<string, string>, gone: set<string>, leaked: set<string>,
                          entries: Entries, docs: map<string, string>)
  {
    leaked <= gone && entries == entries0 - gone && docs == docs0 - (gone - leaked)
  }

  ghost predicate GoneSoFar(keys: set<string>, rest: set<string>, present: set<string>, gone: set<string>) {
    rest <= keys && gone == keys - rest - present
  }

  lemma GoneNone(keys: set<string>, present: set<string>)
    ensures GoneSoFar(keys, keys, present, {})
  {
  }

  lemma GoneStep(keys: set<string>, rest: set<string>, present: set<string>, gone: set<string>, k: string)
    requires GoneSoFar(keys, rest, present, gone) && k in rest
    ensures k !in gone
    ensures GoneSoFar(keys, rest - {k}, present, if k in present then gone else gone + {k})
  {
  }

  lemma GoneAll(keys: set<string>, present: set<string>, gone: set<string>)
    requires GoneSoFar(keys, {}, present, gone)
    ensures gone == keys - present
  {
  }

  lemma NothingDropped(entries: Entries, docs: map<string, string>)
    ensures Dropped(entries, docs, {}, {}, entries, docs)
  {
  }

  lemma DropOne(entries0: Entries, docs0: map<string, string>, gone: set<string>, leaked: set<string>,
                entries: Entries, docs: map<string, string>, path: string)
    requires Dropped(entries0, docs0, gone, leaked, entries, docs) && path !in gone
    ensures Dropped(entries0, docs0, gone + {path}, leaked, entries - {path}, docs - {path})
    ensures Dropped(entries0, docs0, gone + {path}, leaked + {path}, entries - {path}, docs)
  {
    assert gone + {path} - (leaked + {path}) == gone - leaked;
    assert gone + {path} - leaked == (gone - leaked) + {path};
  }

  /** Dropping from the backend nothing but what is no longer tracked keeps the two in step. */
  lemma DroppedKeepsSync(hash: string -> string, entries0: Entries, docs0: map<string, string>, gone: set<string>,
                         leaked: set<string>, entries: Entries, docs: map<string, string>)
    requires InSync(hash, entries0, docs0) && Dropped(entries0, docs0, gone, leaked, entries, docs)
    ensures InSync(hash, entries, docs)
  {
  }

  ghost function Paths(docs: seq<Note>): set<string> {
    set k | 0 <= k < |docs| :: docs[k].path
  }

  lemma PathsAt(docs: seq<Note>, k: nat)
    requires k < |docs|
    ensures docs[k].path in Paths(docs)
  {
  }

  ghost predicate SameEntry(a: Entries, b: Entries, p: string) {
    (p in a <==> p in b) && (p in a ==> a[p] == b[p])
  }

  ghost predicate SameDoc(a: map<string, string>, b: map<string, string>, p: string) {
    (p in a <==> p in b) && (p in a ==> a[p] == b[p])
  }

  /** Documents under other paths are as they were. */
  ghost predicate SameElsewhere(docs0: map<string, string>, docs: map<string, string>, paths: set<string>) {
    forall p | p !in paths :: SameDoc(docs0, docs, p)
  }

  lemma ElsewhereNext(docs0: map<string, string>, docs: map<string, string>, paths: set<string>, path: string, content: string)
    requires SameElsewhere(docs0, docs, paths) && path in paths
    ensures SameElsewhere(docs0, docs[path := content], paths)
  {
  }

  /** Of the notes in `docs`, all but the failed ones are tracked as sent, and nothing else changed. */
  ghost predicate Sent(hash: string -> string, entries0: Entries, entries: Entries, docs: seq<Note>, failed: set<string>) {
    failed <= Paths(docs)
    && (forall k | 0 <= k < |docs| && docs[k].path !in failed :: TrackedAt(hash, entries, docs[k]))
    && (forall p | p in failed || p !in Paths(docs) :: SameEntry(entries0, entries, p))
  }

  lemma SentKeys(hash: string -> string, entries0: Entries, entries: Entries, docs: seq<Note>, sent: nat, failed: set<string>)
    requires sent <= |docs| && Sent(hash, entries0, entries, docs[..sent], failed)
    ensures entries.Keys <= entries0.Keys + Paths(docs)
  {
    forall p | p in entries ensures p in entries0 || p in Paths(docs) {
      if p in Paths(docs[..sent]) {
        var k :| 0 <= k < sent && docs[..sent][k].path == p;
        assert docs[k].path == p;
      } else {
        assert SameEntry(entries0, entries, p);
      }
    }
  }

  lemma NothingSent(hash: string -> string, entries: Entries)
    ensures Sent(hash, entries, entries, [], {})
  {
  }

  lemma PathsPush(docs: seq<Note>, d: nat)
    requires d < |docs|
    ensures Paths(docs[..d + 1]) == Paths(docs[..d]) + {docs[d].path}
    ensures DistinctPaths(docs) ==> docs[d].path !in Paths(docs[..d])
  {
    var a, b := docs[..d], docs[..d + 1];
    forall p | p in Paths(a) + {docs[d].path} ensures p in Paths(b) {
      if p != docs[d].path {
        var k :| 0 <= k < d && a[k].path == p;
        assert b[k].path == p;
      } else {
        assert b[d].path == p;
      }
    }
    forall p | p in Paths(b) ensures p in Paths(a) + {docs[d].path} {
      var k :| 0 <= k < d + 1 && b[k].path == p;
      assert k < d ==> a[k].path == p;
    }
  }

  lemma SentNext(hash: string -> string, entries0: Entries, entries: Entries, docs: seq<Note>, d: nat,
                 failed: set<string>, after: Entries)
    requires d < |docs| && DistinctPaths(docs) && Sent(hash, entries0, entries, docs[..d], failed)
    requires docs[d].path in after && after == entries[docs[d].path := after[docs[d].path]]
    requires after[docs[d].path].hash == hash(docs[d].content)
    ensures Sent(hash, entries0, after, docs[..d + 1], failed)
  {
    hide Paths;
    PathsPush(docs, d);
    var next := docs[..d + 1];
    forall k | 0 <= k < |next| && next[k].path !in failed ensures TrackedAt(hash, after, next[k]) {
      if k < d {
        assert TrackedAt(hash, entries, docs[..d][k]);
      }
    }
  }

  lemma FailedNext(hash: string -> string, entries0: Entries, entries: Entries, docs: seq<Note>, d: nat, failed: set<string>)
    requires d < |docs| && DistinctPaths(docs) && Sent(hash, entries0, entries, docs[..d], failed)
    ensures Sent(hash, entries0, entries, docs[..d + 1], failed + {docs[d].path})
  {
    hide Paths;
    PathsPush(docs, d);
    var next := docs[..d + 1];
    forall k | 0 <= k < |next| && next[k].path !in failed + {docs[d].path} ensures TrackedAt(hash, entries, next[k]) {
      assert k < d;
      assert TrackedAt(hash, entries, docs[..d][k]);
    }
  }

  lemma FailedBefore(hash: string -> string, entries0: Entries, entries: Entries, docs: seq<Note>, d: nat, failed: set<string>)
    requires d < |docs| && DistinctPaths(docs) && Sent(hash, entries0, entries, docs[..d], failed)
    ensures docs[d].path !in failed
  {
    hide Paths;
    PathsPush(docs, d);
  }

  // ---------------------------------------------------------------------
  // How far the saved table may lag behind
  // ---------------------------------------------------------------------

  /** `tables` are the tables after 0, 1, ... of the notes: each note changes at most its own entry. */
  ghost predicate Recorded(entries0: Entries, entries: Entries, docs: seq<Note>, sent: nat, tables: seq<Entries>) {
    |tables| == sent + 1 && sent <= |docs| && tables[0] == entries0 && tables[sent] == entries
    && forall j | 0 <= j < sent ::
         tables[j + 1] == tables[j]
         || (docs[j].path in tables[j + 1] && tables[j + 1] == tables[j][docs[j].path := tables[j + 1][docs[j].path]])
  }

  lemma RecordNext(entries0: Entries, entries: Entries, next: Entries, docs: seq<Note>, sent: nat, tables: seq<Entries>)
    requires Recorded(entries0, entries, docs, sent, tables) && sent < |docs|
    requires next == entries || (docs[sent].path in next && next == entries[docs[sent].path := next[docs[sent].path]])
    ensures Recorded(entries0, next, docs, sent + 1, tables + [next])
  {
  }

  lemma RecordedLast(entries0: Entries, entries: Entries, docs: seq<Note>, sent: nat, tables: seq<Entries>)
    requires Recorded(entries0, entries, docs, sent, tables)
    ensures |tables| == sent + 1 && tables[sent] == entries
  {
  }

  /** How far the sending has come: what is tracked, what failed, and the tables on the way. */
  ghost predicate Progressed(hash: string -> string, entries0: Entries, entries: Entries, docs: seq<Note>, sent: nat,
                             failed: set<string>, tables: seq<Entries>)
  {
    sent <= |docs| && Sent(hash, entries0, entries, docs[..sent], failed) && Recorded(entries0, entries, docs, sent, tables)
  }

  lemma ProgressNext(hash: string -> string, entries0: Entries, before: Entries, after: Entries, docs: seq<Note>, sent: nat,
                     failed: set<string>, tables: seq<Entries>, ok: bool)
    requires Progressed(hash, entries0, before, docs, sent, failed, tables) && sent < |docs| && DistinctPaths(docs)
    requires if ok
             then docs[sent].path in after && after == before[docs[sent].path := after[docs[sent].path]]
                  && after[docs[sent].path].hash == hash(docs[sent].content)
             else after == before
    ensures var failed' := if ok then failed else failed + {docs[sent].path};
            Progressed(hash, entries0, after, docs, sent + 1, failed', tables + [after])
            && |failed'| == |failed| + if ok then 0 else 1
    ensures |tables| == sent + 1
  {
    hide Sent, DistinctPaths, Recorded;
    RecordedLast(entries0, before, docs, sent, tables);
    RecordNext(entries0, before, after, docs, sent, tables);
    FailedBefore(hash, entries0, before, docs, sent, failed);
    if ok {
      SentNext(hash, entries0, before, docs, sent, failed, after);
    } else {
      FailedNext(hash, entries0, before, docs, sent, failed);
    }
  }

  lemma NoProgress(hash: string -> string, entries: Entries, docs: seq<Note>, committed: File)
    ensures Progressed(hash, entries, entries, docs, 0, {}, [entries]) && SavedEveryTen(committed, committed, [entries])
  {
    NothingSent(hash, entries);
    assert docs[..0] == [];
  }

  lemma ProgressMade(hash: string -> string, entries0: Entries, entries: Entries, docs: seq<Note>, sent: nat,
                     failed: set<string>, tables: seq<Entries>)
    requires Progressed(hash, entries0, entries, docs, sent, failed, tables)
    ensures entries.Keys <= entries0.Keys + Paths(docs)
    ensures sent <= |docs| && |tables| == sent + 1 && tables[sent] == entries
    ensures sent == |docs| ==> Sent(hash, entries0, entries, docs, failed)
  {
    hide Sent;
    assert docs[..|docs|] == docs;
    SentKeys(hash, entries0, entries, docs, sent, failed);
  }

  /** The committed file once the table after k notes has been saved; none has if k is 0. */
  ghost function CommittedAfter(committed0: File, tables: seq<Entries>, k: nat): File
    requires k < |tables|
  {
    if k == 0 then committed0 else Complete(tables[k])
  }

  ghost predicate SavedEveryTen(committed0: File, committed: File, tables: seq<Entries>) {
    tables != [] && var sent := |tables| - 1; committed == CommittedAfter(committed0, tables, sent - sent % 10)
  }

  /** The committed table is the one after all but at most the last ten notes. */
  ghost predicate LagsBehind(committed0: File, committed: File, tables: seq<Entries>) {
    exists k: nat :: k < |tables| <= k + 11 && committed == CommittedAfter(committed0, tables, k)
  }

  lemma NextUnsaved(committed0: File, committed: File, tables: seq<Entries>, next: Entries)
    requires SavedEveryTen(committed0, committed, tables)
    ensures LagsBehind(committed0, committed, tables) && LagsBehind(committed0, committed, tables + [next])
    ensures |tables| % 10 != 0 ==> SavedEveryTen(committed0, committed, tables + [next])
  {
    var sent := |tables| - 1;
    var k := sent - sent % 10;
    assert committed == CommittedAfter(committed0, tables, k) == CommittedAfter(committed0, tables + [next], k);
  }

  lemma JustSaved(committed0: File, tables: seq<Entries>)
    requires tables != []
    ensures |tables| > 1 && (|tables| - 1) % 10 == 0 ==>
              SavedEveryTen(committed0, Complete(tables[|tables| - 1]), tables)
  {
  }

  function EligiblePaths(rules: Rules, vault: Vault): (present: set<string>)
    ensures forall p :: p in present <==> Eligible(rules, vault, p)
  {
    set i | 0 <= i < |vault| && !rules.ignored(vault[i].path) :: vault[i].path
  }

  lemma DroppedFacts(hash: string -> string, entries0: Entries, docs0: map<string, string>, present: set<string>,
                     leaked: set<string>, entries: Entries, docs: map<string, string>)
    requires Dropped(entries0, docs0, entries0.Keys - present, leaked, entries, docs)
    requires InSync(hash, entries0, docs0)
    ensures forall p | p in entries :: p in present
    ensures forall p | p in present :: SameEntry(entries0, entries, p)
    ensures forall p | p in entries0 && p !in present :: p in docs <==> p in leaked
  {
  }

  lemma FirstIn(docs: seq<Note>)
    ensures docs != [] ==> docs[0] in docs
  {
  }

  /** Every eligible, non-blank note is tracked at its current hash. */
  ghost predicate UpToDate(hash: string -> string, rules: Rules, entries: Entries, vault: Vault) {
    forall note | note in vault && !rules.ignored(note.path) && !rules.blank(note.content) :: TrackedAt(hash, entries, note)
  }

  lemma SameUpToDate(hash: string -> string, rules: Rules, vault: Vault, a: Entries, b: Entries)
    requires forall p | Eligible(rules, vault, p) :: SameEntry(a, b, p)
    ensures UpToDate(hash, rules, a, vault) <==> UpToDate(hash, rules, b, vault)
  {
    forall note | note in vault && !rules.ignored(note.path) ensures SameEntry(a, b, note.path) {
      var k :| 0 <= k < |vault| && vault[k] == note;
      assert Eligible(rules, vault, note.path);
    }
  }

  class VaultIndexer {
    const store: Store
    const backend: Backend
    const hash: string -> string
    var indexing: bool
    var cancelRequested: bool
    /** Stop requests, notes that could not be read, and saves that failed, so far. */
    ghost var stops: nat
    ghost var readFaults: nat
    ghost var saveFaults: nat

    constructor (store: Store, backend: Backend, hash: string -> string)
      requires InSync(hash, store.entries, backend.docs)
      ensures this.store == store && this.backend == backend && this.hash == hash
      ensures Valid() && !indexing
    {
      this.store, this.backend, this.hash := store, backend, hash;
      indexing, cancelRequested := false, false;
      stops, readFaults, saveFaults := 0, 0, 0;
    }

    ghost predicate Valid()
      reads store`entries, backend`docs
    {
      InSync(hash, store.entries, backend.docs)
    }

    /** A save either runs to its rename or stops at any earlier step; before the first load it does nothing. */
    method Save() returns (ok: bool)
      modifies this`saveFaults, store.disk
      ensures ok && store.loaded ==> store.disk.View() == Files(Complete(store.entries), Absent)
      ensures !ok ==> store.disk.View().committed == old(store.disk.View().committed)
      ensures !store.loaded ==> ok && store.disk.View() == old(store.disk.View())
      ensures saveFaults == old(saveFaults) + if ok then 0 else 1
    {
      var steps: nat := *;
      var flushed: bool := *;
      ok := store.SaveToDisk(steps, flushed);
      if !ok {
        saveFaults := saveFaults + 1;
      }
    }

    /** A stop may be requested at any await while indexing. */
    method AwaitStop()
      modifies this`cancelRequested, this`stops
      ensures stops >= old(stops) && (cancelRequested <==> old(cancelRequested) || stops > old(stops))
    {
      var stop: bool := *;
      if stop {
        cancelRequested := true;
        stops := stops + 1;
      }
    }

    /** Sends one note, trying at most three times; a stop request ends the attempts. */
    method RememberWithRetry(note: Note) returns (ok: bool)
      modifies this`cancelRequested, this`stops, backend
      ensures stops >= old(stops) && (cancelRequested <==> old(cancelRequested) || stops > old(stops))
      ensures backend.docs == if ok then old(backend.docs)[note.path := note.content] else old(backend.docs)
      ensures backend.forgetFaults == old(backend.forgetFaults)
      ensures old(backend.rememberFaults) <= backend.rememberFaults <= old(backend.rememberFaults) + 3
      ensures old(cancelRequested) ==> !ok && cancelRequested && backend.rememberFaults == old(backend.rememberFaults)
      ensures !ok && !old(cancelRequested) ==> backend.rememberFaults > old(backend.rememberFaults)
      ensures !ok && !cancelRequested ==> backend.rememberFaults == old(backend.rememberFaults) + 3
      ensures ok ==> backend.rememberFaults <= old(backend.rememberFaults) + 2
    {
      ok := false;
      for attempt := 0 to 3
        invariant stops >= old(stops) && (cancelRequested <==> old(cancelRequested) || stops > old(stops))
        invariant !ok && backend.docs == old(backend.docs)
        invariant backend.forgetFaults == old(backend.forgetFaults)
        invariant backend.rememberFaults == old(backend.rememberFaults) + attempt
        invariant old(cancelRequested) ==> attempt == 0 && cancelRequested
        invariant cancelRequested && !old(cancelRequested) ==> attempt > 0
      {
        if cancelRequested {
          return false;
        }
        ok := backend.Remember(note.path, note.content);
        if ok {
          return true;
        }
        if attempt < 2 {
          // the wait before the next attempt
          AwaitStop();
        }
      }
    }

    /** Forgets one path, and stops tracking it whether or not that worked. */
    method ForgetOne(path: string) returns (ok: bool)
      modifies this`cancelRequested, this`stops, store`entries, backend
      ensures store.entries == old(store.entries) - {path}
      ensures backend.docs == if ok then old(backend.docs) - {path} else old(backend.docs)
      ensures backend.forgetFaults == old(backend.forgetFaults) + if ok then 0 else 1
      ensures backend.rememberFaults == old(backend.rememberFaults)
      ensures stops >= old(stops) && (cancelRequested <==> old(cancelRequested) || stops > old(stops))
    {
      ok := backend.Forget(path);
      store.DeleteEntry(path);
      AwaitStop();
    }

    /**
     Forgets every tracked note that is no longer present, and stops tracking it whether or not that
     worked. `leaked` are the ones the backend still holds: one per failed call.
     */
    method ForgetMissing(present: set<string>) returns (ghost leaked: set<string>)
      requires Valid()
      modifies this`cancelRequested, this`stops, store`entries, backend
      ensures Valid()
      ensures stops >= old(stops) && (cancelRequested <==> old(cancelRequested) || stops > old(stops))
      ensures Dropped(old(store.entries), old(backend.docs), old(store.entries).Keys - present, leaked,
                      store.entries, backend.docs)
      ensures |leaked| == backend.forgetFaults - old(backend.forgetFaults)
      ensures backend.rememberFaults == old(backend.rememberFaults)
    {
      hide Dropped, InSync, GoneSoFar;
      leaked := {};
      ghost var gone: set<string> := {};
      ghost var entries0, docs0 := store.entries, backend.docs;
      var rest := store.entries.Keys;
      NothingDropped(entries0, docs0);
      GoneNone(entries0.Keys, present);
      while rest != {}
        invariant stops >= old(stops) && (cancelRequested <==> old(cancelRequested) || stops > old(stops))
        invariant GoneSoFar(entries0.Keys, rest, present, gone)
        invariant Dropped(entries0, docs0, gone, leaked, store.entries, backend.docs)
        invariant leaked <= gone && |leaked| == backend.forgetFaults - old(backend.forgetFaults)
        invariant backend.rememberFaults == old(backend.rememberFaults)
        decreases rest
      {
        var known :| known in rest;
        GoneStep(entries0.Keys, rest, present, gone, known);
        if known !in present {
          DropOne(entries0, docs0, gone, leaked, store.entries, backend.docs, known);
          var ok := ForgetOne(known);
          if !ok {
            leaked := leaked + {known};
          }
          gone := gone + {known};
        }
        rest := rest - {known};
      }
      GoneAll(entries0.Keys, present, gone);
      DroppedKeepsSync(hash, entries0, docs0, gone, leaked, store.entries, backend.docs);
    }

    /** The eligible notes that are not blank and not tracked at their current hash, in vault order. */
    ghost function Changed(rules: Rules, vault: Vault, entries: Entries, n: nat): seq<Note>
      requires n <= |vault|
    {
      if n == 0 then []
      else
        var note := vault[n - 1];
        Changed(rules, vault, entries, n - 1)
        + if !rules.ignored(note.path) && !rules.blank(note.content) && !TrackedAt(hash, entries, note) then [note] else []
    }

    lemma {:induction false} ChangedMembers(rules: Rules, vault: Vault, entries: Entries, n: nat)
      requires n <= |vault| && DistinctPaths(vault)
      ensures forall note :: note in Changed(rules, vault, entries, n) <==>
                note in vault[..n] && !rules.ignored(note.path) && !rules.blank(note.content) && !TrackedAt(hash, entries, note)
      ensures DistinctPaths(Changed(rules, vault, entries, n))
    {
      if n > 0 {
        ChangedMembers(rules, vault, entries, n - 1);
        var before := Changed(rules, vault, entries, n - 1);
        assert vault[..n] == vault[..n - 1] + [vault[n - 1]];
        forall i | 0 <= i < |before| ensures before[i].path != vault[n - 1].path {
          assert before[i] in before;
        }
      }
    }

    /** Reads the eligible notes and keeps those that need sending; reading may fail. */
    method CollectChanged(rules: Rules, vault: Vault) returns (ok: bool, docs: seq<Note>)
      modifies this`cancelRequested, this`stops, this`readFaults
      ensures stops >= old(stops) && (cancelRequested <==> old(cancelRequested) || stops > old(stops))
      ensures readFaults == old(readFaults) + if ok then 0 else 1
      ensures ok ==> docs == Changed(rules, vault, store.entries, |vault|)
    {
      docs := [];
      for k := 0 to |vault|
        invariant docs == Changed(rules, vault, store.entries, k) && readFaults == old(readFaults)
        invariant stops >= old(stops) && (cancelRequested <==> old(cancelRequested) || stops > old(stops))
      {
        var note := vault[k];
        if rules.ignored(note.path) {
          continue;
        }
        AwaitStop();
        var readFault: bool := *;
        if readFault {
          readFaults := readFaults + 1;
          return false, [];
        }
        if rules.blank(note.content) {
          continue;
        }
        if note.path in store.entries && store.entries[note.path].hash == hash(note.content) {
          continue;
        }
        docs := docs + [note];
      }
      ok := true;
    }

    /** Sends one note and tracks it if that worked. */
    method SendNote(note: Note) returns (ok: bool)
      requires Valid()
      modifies this`cancelRequested, this`stops, store`entries, backend
      ensures Valid()
      ensures if ok
              then note.path in store.entries && store.entries == old(store.entries)[note.path := store.entries[note.path]]
                   && store.entries[note.path].hash == hash(note.content)
              else store.entries == old(store.entries)
      ensures backend.docs == if ok then old(backend.docs)[note.path := note.content] else old(backend.docs)
      ensures backend.forgetFaults == old(backend.forgetFaults)
      ensures stops >= old(stops) && (cancelRequested <==> old(cancelRequested) || stops > old(stops))
      ensures backend.rememberFaults >= old(backend.rememberFaults)
      ensures !ok && !old(cancelRequested) ==> backend.rememberFaults > old(backend.rememberFaults)
      ensures !ok && !cancelRequested ==> backend.rememberFaults == old(backend.rememberFaults) + 3
    {
      ok := RememberWithRetry(note);
      if ok {
        var docId: string := *;
        var now: int := *;
        store.SetEntry(note.path, Entry(hash(note.content), docId, now));
      }
    }

    /** Sends note number `done`, keeping the books. */
    method SendNext(docs: seq<Note>, done: nat, ghost entries0: Entries, ghost docs0: map<string, string>,
                    ghost failed: set<string>, ghost tables: seq<Entries>)
      returns (ghost failed': set<string>)
      requires Valid() && DistinctPaths(docs) && done < |docs| && !cancelRequested
      requires Progressed(hash, entries0, store.entries, docs, done, failed, tables)
      requires SameElsewhere(docs0, backend.docs, Paths(docs))
      modifies this`cancelRequested, this`stops, store`entries, backend
      ensures Valid()
      ensures Progressed(hash, entries0, store.entries, docs, done + 1, failed', tables + [store.entries])
      ensures SameElsewhere(docs0, backend.docs, Paths(docs))
      ensures |failed'| >= |failed|
      ensures backend.rememberFaults - old(backend.rememberFaults) >= |failed'| - |failed|
      ensures stops == old(stops) ==> backend.rememberFaults - old(backend.rememberFaults) >= 3 * (|failed'| - |failed|)
      ensures backend.forgetFaults == old(backend.forgetFaults)
      ensures stops >= old(stops) && (cancelRequested <==> stops > old(stops))
      ensures |tables| == done + 1
    {
      hide Progressed, DistinctPaths, Valid, Paths, SameElsewhere;
      ghost var before := store.entries;
      PathsAt(docs, done);
      ElsewhereNext(docs0, backend.docs, Paths(docs), docs[done].path, docs[done].content);
      var ok := SendNote(docs[done]);
      ProgressNext(hash, entries0, before, store.entries, docs, done, failed, tables, ok);
      failed' := if ok then failed else failed + {docs[done].path};
      AwaitStop();
    }

    /**
     Sends the collected notes one by one until done, stopped or unable to save; a stop still saves.
     `tables` are the tables after each of the `sent` notes. It stops only on request; without one,
     every note that failed was refused three times; and if a save fails, what is committed is at most
     ten notes behind.
     */
    method SendAll(docs: seq<Note>)
      returns (stopped: bool, saved: bool, ghost failed: set<string>, ghost sent: nat, ghost tables: seq<Entries>)
      requires Valid() && DistinctPaths(docs)
      modifies this`cancelRequested, this`stops, this`saveFaults, store`entries, store.disk, backend
      ensures Valid()
      ensures store.entries.Keys <= old(store.entries).Keys + Paths(docs)
      ensures Progressed(hash, old(store.entries), store.entries, docs, sent, failed, tables) && sent <= |docs|
      ensures !stopped && saved ==> sent == |docs|
      ensures stopped ==> cancelRequested && sent < |docs|
      ensures stops >= old(stops) && (cancelRequested <==> old(cancelRequested) || stops > old(stops))
      ensures saved && store.loaded ==> store.disk.View() == Files(Complete(store.entries), Absent)
      ensures saveFaults == old(saveFaults) + if saved then 0 else 1
      ensures backend.rememberFaults - old(backend.rememberFaults) >= |failed|
      ensures stops == old(stops) ==> backend.rememberFaults - old(backend.rememberFaults) >= 3 * |failed|
      ensures backend.forgetFaults == old(backend.forgetFaults)
      ensures SameElsewhere(old(backend.docs), backend.docs, Paths(docs))
      ensures store.loaded && !saved ==> LagsBehind(old(store.disk.View().committed), store.disk.View().committed, tables)
    {
      stopped, failed, sent := false, {}, 0;
      tables := [store.entries];
      ghost var committed0 := store.disk.View().committed;
      NoProgress(hash, store.entries, docs, committed0);
      hide Progressed, DistinctPaths, SavedEveryTen, LagsBehind, Valid, Paths, Disk.View, SameElsewhere;
      for done := 0 to |docs|
        invariant Valid() && !stopped && sent == done
        invariant Progressed(hash, old(store.entries), store.entries, docs, done, failed, tables)
        invariant stops >= old(stops) && (cancelRequested <==> old(cancelRequested) || stops > old(stops))
        invariant saveFaults == old(saveFaults)
        invariant backend.rememberFaults - old(backend.rememberFaults) >= |failed|
        invariant stops == old(stops) ==> backend.rememberFaults - old(backend.rememberFaults) >= 3 * |failed|
        invariant backend.forgetFaults == old(backend.forgetFaults)
        invariant SameElsewhere(old(backend.docs), backend.docs, Paths(docs))
        invariant store.loaded ==> SavedEveryTen(committed0, store.disk.View().committed, tables)
      {
        if cancelRequested {
          stopped := true;
          break;
        }
        failed := SendNext(docs, done, old(store.entries), old(backend.docs), failed, tables);
        if store.loaded {
          NextUnsaved(committed0, store.disk.View().committed, tables, store.entries);
        }
        tables := tables + [store.entries];
        JustSaved(committed0, tables);
        sent := sent + 1;
        if (done + 1) % 10 == 0 {
          saved := Save();
          if !saved {
            ProgressMade(hash, old(store.entries), store.entries, docs, sent, failed, tables);
            return false, false, failed, sent, tables;
          }
        }
      }
      ProgressMade(hash, old(store.entries), store.entries, docs, sent, failed, tables);
      if store.loaded {
        NextUnsaved(committed0, store.disk.View().committed, tables, store.entries);
      }
      saved := Save();
    }

    /** Reads the vault and sends what has changed. */
    method SendChanged(rules: Rules, vault: Vault) returns (completed: bool, ghost failed: set<string>)
      requires Valid() && DistinctPaths(vault)
      modifies this`cancelRequested, this`stops, this`readFaults, this`saveFaults, store`entries, store.disk, backend
      ensures Valid()
      ensures stops >= old(stops) && readFaults >= old(readFaults) && saveFaults >= old(saveFaults)
      ensures !old(cancelRequested) && stops == old(stops) && readFaults == old(readFaults) && saveFaults == old(saveFaults) ==>
                completed
      ensures readFaults > old(readFaults) || saveFaults > old(saveFaults) ==> !completed
      ensures forall p | p in store.entries :: p in old(store.entries) || Eligible(rules, vault, p)
      ensures forall p | !Eligible(rules, vault, p) :: SameDoc(old(backend.docs), backend.docs, p)
      ensures completed ==> forall note | note in vault && !rules.ignored(note.path) && !rules.blank(note.content) ::
                TrackedAt(hash, store.entries, note) <==> note.path !in failed
      ensures backend.rememberFaults - old(backend.rememberFaults) >= |failed|
      ensures stops == old(stops) ==> backend.rememberFaults - old(backend.rememberFaults) >= 3 * |failed|
      ensures backend.forgetFaults == old(backend.forgetFaults)
      ensures UpToDate(hash, rules, old(store.entries), vault) ==>
                store.disk.View() == old(store.disk.View()) && store.entries == old(store.entries)
      ensures completed && store.loaded && !UpToDate(hash, rules, old(store.entries), vault) ==>
                store.disk.View() == Files(Complete(store.entries), Absent)
    {
      hide Valid, Sent, DistinctPaths, UpToDate, Disk.View, Paths, Changed, Progressed, LagsBehind, Eligible, TrackedAt;
      failed := {};
      ghost var entries0 := store.entries;
      var ok, docs := CollectChanged(rules, vault);
      if !ok {
        return false, failed;
      }
      ChangedFacts(rules, vault, entries0);
      NothingChangedExactly(rules, vault, entries0, entries0);
      completed := true;
      if |docs| > 0 {
        var stopped, saved;
        ghost var sent, tables;
        stopped, saved, failed, sent, tables := SendAll(docs);
        ProgressMade(hash, entries0, store.entries, docs, sent, failed, tables);
        completed := !stopped && saved;
      } else {
        NothingSent(hash, entries0);
      }
      if completed {
        AllTracked(rules, vault, entries0, store.entries, failed);
      }
    }

    /**
     An unforced full index. Whatever fails, the table stays in step with the backend and afterwards
     tracks eligible paths only; a completed run tracks every eligible, non-blank note at its current
     hash except those whose sending failed. It completes unless a stop is requested, a note cannot be
     read or a save fails, and never after one of the latter two.
     */
    method FullIndex(clientReady: bool, rules: Rules, vault: Vault)
      returns (completed: bool, ghost failed: set<string>, ghost leaked: set<string>)
      requires Valid() && DistinctPaths(vault)
      modifies this, store`entries, store.disk, backend
      ensures Valid()
      ensures !clientReady || old(indexing) ==>
                !completed && indexing == old(indexing) && cancelRequested == old(cancelRequested)
                && store.entries == old(store.entries) && backend.docs == old(backend.docs)
      ensures clientReady && !old(indexing) && stops == old(stops) && readFaults == old(readFaults)
              && saveFaults == old(saveFaults) ==>
                completed
      ensures stops >= old(stops) && readFaults >= old(readFaults) && saveFaults >= old(saveFaults)
      ensures readFaults > old(readFaults) || saveFaults > old(saveFaults) ==> !completed
      ensures clientReady && !old(indexing) ==> !indexing && !cancelRequested && forall p | p in store.entries :: Eligible(rules, vault, p)
      ensures completed ==> forall note | note in vault && !rules.ignored(note.path) && !rules.blank(note.content) ::
                TrackedAt(hash, store.entries, note) <==> note.path !in failed
      ensures backend.rememberFaults - old(backend.rememberFaults) >= |failed|
      ensures stops == old(stops) ==> backend.rememberFaults - old(backend.rememberFaults) >= 3 * |failed|
      ensures |leaked| == backend.forgetFaults - old(backend.forgetFaults)
      ensures clientReady && !old(indexing) ==>
                forall p | p in old(store.entries) && !Eligible(rules, vault, p) :: p in backend.docs <==> p in leaked
      ensures UpToDate(hash, rules, old(store.entries), vault) ==> store.disk.View() == old(store.disk.View())
      ensures clientReady && !old(indexing) && UpToDate(hash, rules, old(store.entries), vault) ==>
                forall p | Eligible(rules, vault, p) :: SameEntry(old(store.entries), store.entries, p)
      ensures completed && store.loaded && !UpToDate(hash, rules, old(store.entries), vault) ==>
                store.disk.View() == Files(Complete(store.entries), Absent)
    {
      failed, leaked := {}, {};
      if !clientReady || indexing {
        return false, failed, leaked;
      }
      hide InSync, Dropped, DistinctPaths, UpToDate, Disk.View, Eligible, TrackedAt;
      indexing := true;
      cancelRequested := false;
      var present := EligiblePaths(rules, vault);
      ghost var entries0, docs0 := store.entries, backend.docs;
      leaked := ForgetMissing(present);
      DroppedFacts(hash, entries0, docs0, present, leaked, store.entries, backend.docs);
      SameUpToDate(hash, rules, vault, entries0, store.entries);
      completed, failed := SendChanged(rules, vault);
      indexing, cancelRequested := false, false;
    }

    /**
     Provided the table was saved before, a completed full index leaves the saved table equal to the
     one in memory exactly if some note was not up to date or no tracked note had become ineligible.
     */
    method FullIndexAndSavedTable(clientReady: bool, rules: Rules, vault: Vault) returns (completed: bool)
      requires Valid() && DistinctPaths(vault)
      requires store.loaded && store.disk.View() == Files(Complete(store.entries), Absent)
      modifies this, store`entries, store.disk, backend
      ensures completed ==>
                (store.disk.View() == Files(Complete(store.entries), Absent) <==>
                 !UpToDate(hash, rules, old(store.entries), vault)
                 || forall p | p in old(store.entries) :: Eligible(rules, vault, p))
    {
      hide UpToDate, Eligible, InSync;
      ghost var entries0 := store.entries;
      ghost var failed, leaked;
      completed, failed, leaked := FullIndex(clientReady, rules, vault);
      if completed && UpToDate(hash, rules, entries0, vault) {
        assert (forall p | p in entries0 :: Eligible(rules, vault, p)) <==> store.entries == entries0;
      }
    }

    /**
     The failing case at an input: emptying the vault drops a note from the table in memory but not
     from the saved one, so after a crash before the next save the path is tracked again, although the
     backend has forgotten it.
     */
    method DroppedPathStaysSaved(rules: Rules, path: string)
      requires Valid() && !indexing && path in store.entries
      requires store.loaded && store.disk.View() == Files(Complete(store.entries), Absent)
      modifies this, store`entries, store.disk, backend
      ensures store.entries == map[] && path in Recovered(store.disk.View())
      ensures backend.forgetFaults == old(backend.forgetFaults) ==>
                !InSync(hash, Recovered(store.disk.View()), backend.docs)
    {
      ghost var failed, leaked;
      var completed;
      completed, failed, leaked := FullIndex(true, rules, []);
      assert forall p | p in store.entries :: Eligible(rules, [], p);
      assert !Eligible(rules, [], path);
    }

    /** There is nothing to send exactly if every note was up to date before the ineligible ones were dropped. */
    lemma NothingChangedExactly(rules: Rules, vault: Vault, entries0: Entries, entries: Entries)
      requires DistinctPaths(vault)
      requires forall p | Eligible(rules, vault, p) :: SameEntry(entries0, entries, p)
      ensures Changed(rules, vault, entries, |vault|) == [] <==> UpToDate(hash, rules, entries0, vault)
    {
      ChangedMembers(rules, vault, entries, |vault|);
      var docs := Changed(rules, vault, entries, |vault|);
      assert vault[..|vault|] == vault;
      forall note | note in vault && !rules.ignored(note.path) && !rules.blank(note.content)
        ensures TrackedAt(hash, entries0, note) <==> note !in docs
      {
        var k :| 0 <= k < |vault| && vault[k] == note;
        assert Eligible(rules, vault, note.path);
      }
      FirstIn(docs);
    }

    lemma ChangedFacts(rules: Rules, vault: Vault, entries: Entries)
      requires DistinctPaths(vault)
      ensures var docs := Changed(rules, vault, entries, |vault|);
              DistinctPaths(docs) && forall p | p in Paths(docs) :: Eligible(rules, vault, p)
    {
      ChangedMembers(rules, vault, entries, |vault|);
      var docs := Changed(rules, vault, entries, |vault|);
      assert vault[..|vault|] == vault;
      forall p | p in Paths(docs) ensures Eligible(rules, vault, p) {
        var k :| 0 <= k < |docs| && docs[k].path == p;
        assert docs[k] in docs;
      }
    }

    /** After everything was sent, exactly the failed notes are not tracked at their current hash. */
    lemma AllTracked(rules: Rules, vault: Vault, entries0: Entries, entries: Entries, failed: set<string>)
      requires DistinctPaths(vault)
      requires Sent(hash, entries0, entries, Changed(rules, vault, entries0, |vault|), failed)
      ensures forall note | note in vault && !rules.ignored(note.path) && !rules.blank(note.content) ::
                TrackedAt(hash, entries, note) <==> note.path !in failed
    {
      var docs := Changed(rules, vault, entries0, |vault|);
      ChangedMembers(rules, vault, entries0, |vault|);
      assert vault[..|vault|] == vault;
      forall note | note in vault && !rules.ignored(note.path) && !rules.blank(note.content)
        ensures TrackedAt(hash, entries, note) <==> note.path !in failed
      {
        if note in docs {
          var k :| 0 <= k < |docs| && docs[k] == note;
          PathsAt(docs, k);
        } else {
          NotAPath(rules, vault, entries0, note);
        }
      }
    }

    lemma NotAPath(rules: Rules, vault: Vault, entries: Entries, note: Note)
      requires DistinctPaths(vault) && note in vault && note !in Changed(rules, vault, entries, |vault|)
      ensures note.path !in Paths(Changed(rules, vault, entries, |vault|))
    {
      var docs := Changed(rules, vault, entries, |vault|);
      ChangedMembers(rules, vault, entries, |vault|);
      assert vault[..|vault|] == vault;
      forall k | 0 <= k < |docs| ensures docs[k].path != note.path {
        assert docs[k] in docs && docs[k] in vault && docs[k] != note;
      }
    }

    /** One changed note: sent unless it is blank, unreadable or already tracked at its current hash. */
    method ReindexOne(clientReady: bool, rules: Rules, readable: bool, note: Note) returns (ghost sent: bool)
      requires Valid()
      modifies this`saveFaults, store`entries, store.disk, backend
      ensures Valid()
      ensures saveFaults >= old(saveFaults) && (!sent ==> saveFaults == old(saveFaults))
      ensures if sent then saveFaults == old(saveFaults) && store.loaded ==> store.disk.View() == Files(Complete(store.entries), Absent)
              else store.disk.View() == old(store.disk.View())
      ensures backend.forgetFaults == old(backend.forgetFaults)
      ensures sent ==> TrackedAt(hash, store.entries, note) && backend.docs == old(backend.docs)[note.path := note.content]
                       && store.entries == old(store.entries)[note.path := store.entries[note.path]]
      ensures !sent ==> store.entries == old(store.entries) && backend.docs == old(backend.docs)
      ensures sent <==> clientReady && readable && !rules.blank(note.content) && !TrackedAt(hash, old(store.entries), note)
                        && backend.rememberFaults == old(backend.rememberFaults)
    {
      sent := false;
      if !clientReady || !readable || rules.blank(note.content) || store.IsUnchanged(note.path, hash(note.content)) {
        return;
      }
      var ok := backend.Remember(note.path, note.content);
      if ok {
        var docId: string := *;
        var now: int := *;
        store.SetEntry(note.path, Entry(hash(note.content), docId, now));
        sent := true;
        var saved := Save();
      }
    }

    /** A deleted note is forgotten if the call succeeds and untracked either way. */
    method HandleDelete(clientReady: bool, path: string) returns (ghost forgotten: bool)
      requires Valid()
      modifies this`saveFaults, store`entries, store.disk, backend
      ensures Valid()
      ensures saveFaults >= old(saveFaults)
      ensures clientReady && saveFaults == old(saveFaults) && store.loaded ==>
                store.disk.View() == Files(Complete(store.entries), Absent)
      ensures forgotten <==> clientReady && backend.forgetFaults == old(backend.forgetFaults)
      ensures !clientReady ==> store.entries == old(store.entries) && backend.docs == old(backend.docs)
      ensures clientReady ==> store.entries == old(store.entries) - {path}
      ensures clientReady ==> backend.docs == if forgotten then old(backend.docs) - {path} else old(backend.docs)
      ensures backend.rememberFaults == old(backend.rememberFaults)
    {
      forgotten := false;
      if !clientReady {
        return;
      }
      var ok := backend.Forget(path);
      forgotten := ok;
      store.DeleteEntry(path);
      var saved := Save();
    }

    /**
     A rename is a delete of the old path and, if the new one is not ignored, a re-index of it: unless
     something fails the note ends up stored and tracked under its new path.
     */
    method HandleRename(clientReady: bool, rules: Rules, readable: bool, note: Note, oldPath: string)
      requires Valid()
      modifies this`saveFaults, store`entries, store.disk, backend
      ensures Valid()
      ensures clientReady && saveFaults == old(saveFaults) && store.loaded ==>
                store.disk.View() == Files(Complete(store.entries), Absent)
      ensures clientReady && rules.ignored(note.path) ==> store.entries == old(store.entries) - {oldPath}
      ensures clientReady && oldPath != note.path ==> oldPath !in store.entries
      ensures !clientReady ==> store.entries == old(store.entries) && backend.docs == old(backend.docs)
      ensures clientReady && readable && !rules.ignored(note.path) && !rules.blank(note.content)
              && backend.rememberFaults == old(backend.rememberFaults) ==>
                TrackedAt(hash, store.entries, note) && note.path in backend.docs
                && hash(backend.docs[note.path]) == hash(note.content)
      ensures forall p | p != oldPath && p != note.path ::
                SameEntry(old(store.entries), store.entries, p) && SameDoc(old(backend.docs), backend.docs, p)
    {
      var forgotten := HandleDelete(clientReady, oldPath);
      if !rules.ignored(note.path) {
        var sent := ReindexOne(clientReady, rules, readable, note);
      }
    }
  }
}
