/**
 The persistent hash store: an in-memory table of indexed notes, saved by filling a temporary file,
 syncing it and renaming it over the committed one, and recovered on load from whichever file parses.
 */
module HashStore {
  import opened Wrappers

  datatype Entry = Entry(hash: string, docId: string, lastIndexed: int)

  type Entries = map<string, Entry>

  /** A file is missing, unparsable, or holds a complete table. */
  datatype File = Absent | Torn | Complete(entries: Entries)

  datatype Files = Files(committed: File, temp: File)

  // ---------------------------------------------------------------------
  // Effect of one call on the files
  // ---------------------------------------------------------------------

  /** The steps of a save: open the temporary file, write it, sync it, rename it. */
  const SAVE_STEPS: nat := 4

  /**
   The files after the first `steps` steps of a save. Before the sync a stop may leave the write torn
   even though it was issued; `flushed` says whether it reached the disk.
   */
  function AfterSave(f: Files, entries: Entries, steps: nat, flushed: bool): Files {
    if steps == 0 then f
    else if steps == 1 then f.(temp := Torn)
    else if steps == 2 then f.(temp := if flushed then Complete(entries) else Torn)
    else if steps == 3 then f.(temp := Complete(entries))
    else Files(Complete(entries), Absent)
  }

  /** What a load yields: the committed file, else the temporary one, else nothing. */
  function Recovered(f: Files): Entries {
    match f.committed
    case Complete(e) => e
    case _ =>
      match f.temp
      case Complete(e) => e
      case _ => map[]
  }

  /** A load removes the temporary file if it can. */
  function AfterLoad(f: Files, unlinked: bool): Files {
    if unlinked then f.(temp := Absent) else f
  }

  // ---------------------------------------------------------------------
  // Histories of saves and loads, each possibly cut short by a crash
  // ---------------------------------------------------------------------

  datatype Event =
    | Save(entries: Entries, steps: nat, flushed: bool)
    | Load(unlinked: bool)

  function Step(f: Files, e: Event): Files {
    match e
    case Save(entries, steps, flushed) => AfterSave(f, entries, steps, flushed)
    case Load(unlinked) => AfterLoad(f, unlinked)
  }

  function After(events: seq<Event>): Files {
    if events == [] then Files(Absent, Absent) else Step(After(events[..|events| - 1]), events[|events| - 1])
  }

  predicate Commits(e: Event) {
    e.Save? && e.steps >= SAVE_STEPS
  }

  predicate Starts(e: Event) {
    e.Save? && e.steps > 0
  }

  /** The entries of the last save that ran to its rename; the empty table if none did. */
  function LastCommitted(events: seq<Event>): Entries {
    if events == [] then map[]
    else
      var e := events[|events| - 1];
      if Commits(e) then e.entries else LastCommitted(events[..|events| - 1])
  }

  ghost predicate EverCommitted(events: seq<Event>) {
    exists k :: 0 <= k < |events| && Commits(events[k])
  }

  /** The entries of the last save that was started, unless it ran to its rename. */
  function InFlight(events: seq<Event>): Option<Entries> {
    if events == [] then None
    else
      var e := events[|events| - 1];
      if Commits(e) then None
      else if Starts(e) then Some(e.entries)
      else InFlight(events[..|events| - 1])
  }

  /** What the files look like after any history. */
  lemma {:induction false} FilesInvariant(events: seq<Event>)
    ensures var f := After(events);
            f.committed == (if EverCommitted(events) then Complete(LastCommitted(events)) else Absent)
            && (f.temp.Complete? ==> InFlight(events) == Some(f.temp.entries))
            && (!EverCommitted(events) ==> LastCommitted(events) == map[])
  {
    if events != [] {
      var before, e := events[..|events| - 1], events[|events| - 1];
      FilesInvariant(before);
      assert EverCommitted(events) <==> EverCommitted(before) || Commits(e) by {
        if EverCommitted(before) {
          var k :| 0 <= k < |before| && Commits(before[k]);
          assert Commits(events[k]);
        }
        if Commits(e) {
          assert Commits(events[|events| - 1]);
        }
        if EverCommitted(events) {
          var k :| 0 <= k < |events| && Commits(events[k]);
          assert k < |before| ==> Commits(before[k]);
        }
      }
    }
  }

  /**
   After any history of saves and loads, with a crash between any two steps, a load yields the last
   committed table, or the table of the save that was cut short; once something has been committed
   it is always the former. The committed file is never torn.
   */
  lemma LoadIsAtomic(events: seq<Event>)
    ensures var r := Recovered(After(events));
            r == LastCommitted(events) || InFlight(events) == Some(r)
    ensures EverCommitted(events) ==> Recovered(After(events)) == LastCommitted(events)
    ensures Recovered(After(events)) == map[] ==> LastCommitted(events) == map[] || InFlight(events) == Some(map[])
    ensures !After(events).committed.Torn?
  {
    FilesInvariant(events);
  }

  /** No load undoes a commit. */
  lemma {:induction false} CommitSurvives(events: seq<Event>, entries: Entries, flushed: bool, later: seq<Event>)
    requires forall e | e in later :: !Starts(e)
    ensures After(events + [Save(entries, SAVE_STEPS, flushed)] + later).committed == Complete(entries)
    decreases |later|
  {
    var saved := events + [Save(entries, SAVE_STEPS, flushed)];
    var all := saved + later;
    if later == [] {
      assert all == saved && saved[..|events|] == events;
    } else {
      var front, e := later[..|later| - 1], later[|later| - 1];
      assert all[..|all| - 1] == saved + front && all[|all| - 1] == e && e in later;
      CommitSurvives(events, entries, flushed, front);
    }
  }

  /** A save that runs to the end is what every later load yields until another save starts. */
  lemma SavedIsLoaded(events: seq<Event>, entries: Entries, flushed: bool, later: seq<Event>)
    requires forall e | e in later :: !Starts(e)
    ensures Recovered(After(events + [Save(entries, SAVE_STEPS, flushed)] + later)) == entries
  {
    CommitSurvives(events, entries, flushed, later);
  }

  // ---------------------------------------------------------------------
  // Recovery from the temporary file is not durable
  // ---------------------------------------------------------------------

  /**
   A second load yields the same table as the first exactly if, before the first, the committed file
   was there, or the temporary file stays, does not parse or holds the empty table.
   */
  lemma ReloadCondition(events: seq<Event>, unlinked: bool)
    ensures var f := After(events);
            Recovered(After(events + [Load(unlinked)])) == Recovered(f)
            <==> f.committed.Complete? || !unlinked || !f.temp.Complete? || f.temp.entries == map[]
  {
    FilesInvariant(events);
    assert (events + [Load(unlinked)])[..|events|] == events;
  }

  /** A first save cut short before its rename is recovered once and then lost. */
  lemma RecoveredOnceThenLost(entries: Entries)
    requires entries != map[]
    ensures var crashed := [Save(entries, 3, true)];
            Recovered(After(crashed)) == entries
            && Recovered(After(crashed + [Load(true)])) == map[]
  {
    var crashed := [Save(entries, 3, true)];
    assert crashed[..0] == [];
    assert After(crashed) == AfterSave(Files(Absent, Absent), entries, 3, true);
    assert (crashed + [Load(true)])[..1] == crashed;
  }

  // ---------------------------------------------------------------------
  // The store
  // ---------------------------------------------------------------------

  /** The two files; they outlive the process. */
  class Disk {
    var committed: File
    var temp: File

    constructor ()
      ensures View() == Files(Absent, Absent)
    {
      committed, temp := Absent, Absent;
    }

    ghost function View(): Files
      reads this
    {
      Files(committed, temp)
    }

    /** Reads a file if it exists and parses. */
    static function ReadIfValid(f: File): Option<Entries> {
      if f.Complete? then Some(f.entries) else None
    }
  }

  class Store {
    const disk: Disk
    var entries: Entries
    var loaded: bool

    constructor (disk: Disk)
      ensures this.disk == disk && entries == map[] && !loaded
    {
      this.disk := disk;
      entries, loaded := map[], false;
    }

    /** `canUnlink` is whether removing the leftover temporary file succeeds. */
    method LoadFromDisk(canUnlink: bool)
      modifies this, disk
      ensures loaded && entries == Recovered(old(disk.View()))
      ensures disk.View() == AfterLoad(old(disk.View()), canUnlink)
    {
      var main := Disk.ReadIfValid(disk.committed);
      if main.Some? {
        entries := main.value;
      } else {
        var temp := Disk.ReadIfValid(disk.temp);
        entries := if temp.Some? then temp.value else map[];
      }
      if disk.temp != Absent && canUnlink {
        disk.temp := Absent;
      }
      loaded := true;
    }

    /** Runs a save up to `steps` of its steps; fewer than all of them is a crash or an I/O error. */
    method SaveToDisk(steps: nat, flushed: bool) returns (finished: bool)
      modifies disk
      ensures disk.View() == if loaded then AfterSave(old(disk.View()), entries, steps, flushed) else old(disk.View())
      ensures finished <==> !loaded || steps >= SAVE_STEPS
      ensures !finished ==> disk.View().committed == old(disk.View().committed)
    {
      if !loaded {
        return true;
      }
      if steps == 0 {
        return false;
      }
      disk.temp := Torn;
      if steps == 1 {
        return false;
      }
      if flushed {
        disk.temp := Complete(entries);
      }
      if steps == 2 {
        return false;
      }
      disk.temp := Complete(entries);
      if steps == 3 {
        return false;
      }
      disk.committed := disk.temp;
      disk.temp := Absent;
      finished := true;
    }

    method SetEntry(path: string, entry: Entry)
      modifies this`entries
      ensures entries == old(entries)[path := entry]
    {
      entries := entries[path := entry];
    }

    method DeleteEntry(path: string)
      modifies this`entries
      ensures entries == old(entries) - {path}
    {
      entries := entries - {path};
    }

    predicate IsUnchanged(path: string, hash: string)
      reads this
    {
      path in entries && entries[path].hash == hash
    }
  }
}
