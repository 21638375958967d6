/**
 The four configuration files and their undo journal
 (foundation/runtime_config_store.py). Every replacement or removal of a file
 is one atomic step of the file system. At each step the environment chooses
 whether the step lands, and whether it returns, raises, or the process dies.
 A process that dies executes nothing more: no exception handler runs.
 */
module ConfigStore {
  import opened Json
  import opened Wrappers
  import opened ConfigPartition

  type Files = map<Section, JsonObject>
  type Record = map<Section, Json>

  const ALL_SECTIONS: set<Section> := {Preferences, Deployment, Devices, Credentials}

  /** `previous` in `write`: each file's content, or null for a file that does not exist. */
  function RecordOf(files: Files): Record {
    map s | s in ALL_SECTIONS :: if s in files then files[s] else Null
  }

  /** The two checks that `_recover` makes before it touches a file. */
  predicate WellFormed(record: Record) {
    record.Keys == ALL_SECTIONS && forall s :: s in record ==> record[s].Null? || record[s].Object?
  }

  function Restored(record: Record): Files {
    map s | s in record && record[s].Object? :: record[s]
  }

  lemma EverySection(s: Section)
    ensures exists i :: 0 <= i < |SECTIONS| && SECTIONS[i] == s
    ensures s in ALL_SECTIONS
  {
    assert SECTIONS[0] == Preferences && SECTIONS[1] == Deployment;
    assert SECTIONS[2] == Devices && SECTIONS[3] == Credentials;
    match s
    case Preferences =>
    case Deployment =>
    case Devices =>
    case Credentials =>
  }

  ghost predicate AgreeAt(a: Files, b: Files, s: Section) {
    (s in a <==> s in b) && (s in a ==> a[s] == b[s])
  }

  /** Two file systems that agree on the store's four paths are equal. */
  lemma AgreeEverywhere(a: Files, b: Files)
    requires forall i :: 0 <= i < |SECTIONS| ==> AgreeAt(a, b, SECTIONS[i])
    ensures a == b
  {
    forall s: Section
      ensures AgreeAt(a, b, s)
    {
      EverySection(s);
    }
    assert forall s: Section :: AgreeAt(a, b, s) ==> (s in a <==> s in b) && (s in a ==> a[s] == b[s]);
  }

  lemma RestoreUndoesRecord(files: Files)
    ensures WellFormed(RecordOf(files))
    ensures Restored(RecordOf(files)) == files
  {
    forall s | s in files
      ensures s in ALL_SECTIONS
    {
      EverySection(s);
    }
  }

  function FilesOf(parts: Parts): Files {
    map s | s in ALL_SECTIONS :: parts.At(s)
  }

  /** `read_json_object`: a missing file reads as an empty object. */
  function Content(files: Files, section: Section): JsonObject {
    if section in files then files[section] else EMPTY
  }

  /** No section is visited twice. */
  lemma SectionIsNew(i: nat)
    requires i < |SECTIONS|
    ensures SECTIONS[i] !in (set j | 0 <= j < i :: SECTIONS[j])
  {}

  /** A skipped file counts as missing, the others as they are. */
  lemma SkippedContent(files: Files, skipped: set<Section>, section: Section)
    ensures Content(files - skipped, section) == if section in skipped then EMPTY else Content(files, section)
  {}

  /** The first `n` files laid over each other, in the order in which `read` visits them. */
  function CombineFirst(files: Files, n: nat): JsonObject
    requires n <= |SECTIONS|
  {
    if n == 0 then EMPTY else Overlay(CombineFirst(files, n - 1), Content(files, SECTIONS[n - 1]))
  }

  function CombineFiles(files: Files): JsonObject {
    CombineFirst(files, |SECTIONS|)
  }

  lemma {:induction false} CombineAgrees(a: Files, b: Files, n: nat)
    requires n <= |SECTIONS| && forall i :: 0 <= i < n ==> AgreeAt(a, b, SECTIONS[i])
    ensures CombineFirst(a, n) == CombineFirst(b, n)
  {
    if n > 0 {
      CombineAgrees(a, b, n - 1);
    }
  }

  lemma CombineCommitted(payload: JsonObject)
    ensures CombineFiles(FilesOf(Partition(payload))) == payload
  {
    hide Overlay, Partition;
    var files := FilesOf(Partition(payload));
    assert SECTIONS[0] == Preferences && SECTIONS[1] == Deployment;
    assert SECTIONS[2] == Devices && SECTIONS[3] == Credentials;
    assert CombineFirst(files, 1) == Overlay(EMPTY, files[Preferences]);
    assert CombineFirst(files, 2) == Overlay(CombineFirst(files, 1), files[Deployment]);
    assert CombineFirst(files, 3) == Overlay(CombineFirst(files, 2), files[Devices]);
    assert CombineFirst(files, 4) == Overlay(CombineFirst(files, 3), files[Credentials]);
    RoundTrip(payload);
  }

  datatype Outcome = Returned | Raised | Died

  datatype Disk = Disk(files: Files, journal: Option<Record>) {
    /** The files that the next reader works with once recovery has finished. */
    function Visible(): Files {
      if journal.Some? && WellFormed(journal.value) then Restored(journal.value) else files
    }

    predicate Damaged() {
      journal.Some? && !WellFormed(journal.value)
    }
  }

  class RuntimeConfigStore {
    var files: Files
    var journal: Option<Record>
    /** How many steps of the environment have not returned normally so far. */
    ghost var faults: nat
    /** The sections whose file could not be read, in order. */
    ghost var unreadable: seq<Section>

    function OnDisk(): Disk
      reads this
    {
      Disk(files, journal)
    }

    // ---- Atomic steps of the file system ----

    method ReplaceFile(section: Section, value: JsonObject) returns (outcome: Outcome)
      modifies this`files, this`faults
      ensures faults == if outcome.Returned? then old(faults) else old(faults) + 1
      ensures files == old(files) || files == old(files)[section := value]
      ensures outcome.Returned? ==> files == old(files)[section := value]
    {
      var lands: bool := *;
      var end: Outcome := *;
      if lands {
        files := files[section := value];
      }
      outcome := if end.Returned? && !lands then Raised else end;
      faults := if outcome.Returned? then faults else faults + 1;
    }

    method RemoveFile(section: Section) returns (outcome: Outcome)
      modifies this`files, this`faults
      ensures faults == if outcome.Returned? then old(faults) else old(faults) + 1
      ensures files == old(files) || files == old(files) - {section}
      ensures outcome.Returned? ==> files == old(files) - {section}
    {
      var lands: bool := *;
      var end: Outcome := *;
      if lands {
        files := files - {section};
      }
      outcome := if end.Returned? && !lands then Raised else end;
      faults := if outcome.Returned? then faults else faults + 1;
    }

    method WriteJournal(record: Record) returns (outcome: Outcome)
      modifies this`journal, this`faults
      ensures faults == if outcome.Returned? then old(faults) else old(faults) + 1
      ensures journal == old(journal) || journal == Some(record)
      ensures outcome.Returned? ==> journal == Some(record)
    {
      var lands: bool := *;
      var end: Outcome := *;
      if lands {
        journal := Some(record);
      }
      outcome := if end.Returned? && !lands then Raised else end;
      faults := if outcome.Returned? then faults else faults + 1;
    }

    /** `read_json_object` on one of the four files. */
    method ReadFile(section: Section) returns (outcome: Outcome, value: JsonObject)
      modifies this`faults, this`unreadable
      ensures faults == if outcome.Returned? then old(faults) else old(faults) + 1
      ensures unreadable == if outcome.Raised? then old(unreadable) + [section] else old(unreadable)
      ensures outcome.Returned? ==> value == Content(files, section)
    {
      outcome := *;
      value := Content(files, section);
      faults := if outcome.Returned? then faults else faults + 1;
      unreadable := if outcome.Raised? then unreadable + [section] else unreadable;
    }

    /** `_finish_transaction`: removes the journal; the directory sync after it may still raise. */
    method FinishTransaction() returns (outcome: Outcome)
      modifies this`journal, this`faults
      ensures faults == if outcome.Returned? then old(faults) else old(faults) + 1
      ensures journal == old(journal) || journal == None
      ensures outcome.Returned? ==> journal == None
    {
      var lands: bool := *;
      var end: Outcome := *;
      if lands {
        journal := None;
      }
      outcome := if end.Returned? && !lands then Raised else end;
      faults := if outcome.Returned? then faults else faults + 1;
    }

    // ---- Operations ----

    /** Recovery never changes what is visible, wherever it stops, so it can be repeated at will. */
    method Recover() returns (outcome: Outcome)
      modifies this
      ensures OnDisk().Visible() == old(OnDisk().Visible())
      ensures outcome.Returned? ==> journal == None && files == old(OnDisk().Visible())
      ensures old(journal) == None ==> outcome.Returned? && files == old(files)
      ensures faults >= old(faults) && unreadable == old(unreadable)
      ensures !old(OnDisk().Damaged()) ==> (outcome.Returned? <==> faults == old(faults))
      ensures old(OnDisk().Damaged()) ==> outcome.Raised? && OnDisk() == old(OnDisk())
      ensures OnDisk().Damaged() <==> old(OnDisk().Damaged())
    {
      outcome := Returned;
      if journal.Some? {
        var previous := journal.value;
        if !WellFormed(previous) {
          return Raised;
        }
        for i := 0 to |SECTIONS|
          invariant journal == Some(previous) && faults == old(faults) && unreadable == old(unreadable)
          invariant forall j :: 0 <= j < i ==> AgreeAt(files, Restored(previous), SECTIONS[j])
        {
          EverySection(SECTIONS[i]);
          if previous[SECTIONS[i]].Null? {
            outcome := RemoveFile(SECTIONS[i]);
          } else {
            outcome := ReplaceFile(SECTIONS[i], previous[SECTIONS[i]]);
          }
          if !outcome.Returned? {
            return;
          }
        }
        AgreeEverywhere(files, Restored(previous));
        outcome := FinishTransaction();
      }
    }

    /**
     A reader sees the visible files. With `tolerate`, exactly the files that
     could not be read count as missing and are named in `skipped`.
     */
    method Read(tolerate: bool) returns (outcome: Outcome, combined: JsonObject, skipped: set<Section>)
      modifies this
      ensures Step(old(OnDisk()), Looked, OnDisk())
      ensures OnDisk().Visible() == old(OnDisk().Visible())
      ensures OnDisk().Damaged() <==> old(OnDisk().Damaged())
      ensures outcome.Returned? ==> combined == CombineFiles(old(OnDisk().Visible()) - skipped)
      ensures outcome.Returned? && !tolerate ==> skipped == {} && combined == CombineFiles(old(OnDisk().Visible()))
      ensures !old(OnDisk().Damaged()) && faults == old(faults) ==> outcome.Returned? && skipped == {}
      ensures old(unreadable) <= unreadable
      ensures outcome.Returned? ==> forall s :: s in skipped <==> s in unreadable[|old(unreadable)|..]
      ensures outcome.Returned? ==> |skipped| == faults - old(faults)
    {
      hide Overlay, Content;
      combined, skipped := EMPTY, {};
      outcome := Recover();
      if !outcome.Returned? {
        return;
      }
      for i := 0 to |SECTIONS|
        invariant OnDisk() == Disk(old(OnDisk().Visible()), None)
        invariant skipped <= set j | 0 <= j < i :: SECTIONS[j]
        invariant combined == CombineFirst(files - skipped, i)
        invariant |skipped| == faults - old(faults) && (!tolerate ==> skipped == {})
        invariant old(unreadable) <= unreadable
        invariant forall s :: s in skipped <==> s in unreadable[|old(unreadable)|..]
      {
        SectionIsNew(i);
        ghost var before := unreadable;
        var end, value := ReadFile(SECTIONS[i]);
        if end.Died? || (end.Raised? && !tolerate) {
          outcome := end;
          return;
        }
        if end.Raised? {
          CombineAgrees(files - skipped, files - (skipped + {SECTIONS[i]}), i);
          SkippedContent(files, skipped + {SECTIONS[i]}, SECTIONS[i]);
          OverlayNothing(combined);
          skipped := skipped + {SECTIONS[i]};
          assert unreadable[|old(unreadable)|..] == before[|old(unreadable)|..] + [SECTIONS[i]];
        } else {
          SkippedContent(files, skipped, SECTIONS[i]);
          combined := OverlaySections(combined, value);
        }
      }
      assert files - {} == files;
    }

    /** The body of the `try` block in `write`. */
    method ReplaceAll(parts: Parts) returns (outcome: Outcome)
      modifies this`files, this`faults
      ensures outcome.Returned? ==> files == FilesOf(parts)
      ensures faults == if outcome.Returned? then old(faults) else old(faults) + 1
    {
      for i := 0 to |SECTIONS|
        invariant faults == old(faults)
        invariant forall j :: 0 <= j < i ==> AgreeAt(files, FilesOf(parts), SECTIONS[j])
      {
        EverySection(SECTIONS[i]);
        outcome := ReplaceFile(SECTIONS[i], parts.At(SECTIONS[i]));
        if !outcome.Returned? {
          return;
        }
      }
      AgreeEverywhere(files, FilesOf(parts));
      outcome := Returned;
    }

    /**
     Whatever happens on the way, the visible files are exactly the old ones
     or exactly the new ones, and they are the new ones if and only if the
     journal of this write was removed at its end.
     */
    method Write(payload: JsonObject) returns (outcome: Outcome, committed: bool)
      modifies this
      ensures OnDisk().Visible() == if committed then FilesOf(Partition(payload)) else old(OnDisk().Visible())
      ensures Step(old(OnDisk()), Wrote(payload, committed), OnDisk())
      ensures committed ==> journal == None
      ensures outcome.Returned? ==> committed
      ensures committed && !outcome.Returned? ==> faults == old(faults) + 1
      ensures !old(OnDisk().Damaged()) ==> (outcome.Returned? <==> faults == old(faults))
      ensures OnDisk().Damaged() <==> old(OnDisk().Damaged())
      ensures old(OnDisk().Damaged()) ==> outcome.Raised? && OnDisk() == old(OnDisk())
    {
      committed := false;
      outcome := Recover();
      if !outcome.Returned? {
        return;
      }
      ghost var initial := files;
      var parts := PartitionRuntime(payload);
      var end: Outcome := *;
      if !end.Returned? {
        faults := faults + 1;
        return end, false;
      }
      var previous := RecordOf(files);
      RestoreUndoesRecord(files);
      outcome := WriteJournal(previous);
      if !outcome.Returned? {
        return;
      }
      outcome := ReplaceAll(parts);
      if outcome.Raised? {
        var undone := Recover();
        outcome := if undone.Died? then Died else Raised;
      }
      if !outcome.Returned? {
        return;
      }
      outcome := FinishTransaction();
      committed := journal.None?;
    }
  }

  // ---- Runs ----

  /** One locked operation, and whether a write removed its own journal at its end. */
  datatype Attempt = Looked | Wrote(payload: JsonObject, committed: bool)

  /** What the contracts of `Read` and `Write` say about the disk. */
  ghost predicate Step(before: Disk, attempt: Attempt, after: Disk) {
    && (after.Damaged() <==> before.Damaged())
    && after.Visible() ==
       (if attempt.Wrote? && attempt.committed then FilesOf(Partition(attempt.payload)) else before.Visible())
  }

  ghost predicate Run(disks: seq<Disk>, attempts: seq<Attempt>) {
    |disks| == |attempts| + 1 && forall i :: 0 <= i < |attempts| ==> Step(disks[i], attempts[i], disks[i + 1])
  }

  /**
   After any sequence of reads and writes, each cut short anywhere, a reader
   gets exactly the payload of write `last` if no later write committed.
   */
  lemma {:induction false} ReaderSeesLastCommitted(disks: seq<Disk>, attempts: seq<Attempt>, last: nat)
    requires Run(disks, attempts)
    requires last < |attempts| && attempts[last].Wrote? && attempts[last].committed
    requires forall i :: last < i < |attempts| ==> !(attempts[i].Wrote? && attempts[i].committed)
    ensures CombineFiles(disks[|attempts|].Visible()) == attempts[last].payload
    decreases |attempts|
  {
    if last == |attempts| - 1 {
      CombineCommitted(attempts[last].payload);
    } else {
      ReaderSeesLastCommitted(disks[..|attempts|], attempts[..|attempts| - 1], last);
    }
  }

  /** Without a committed write the reader keeps seeing what it saw at the start. */
  lemma {:induction false} ReaderSeesStart(disks: seq<Disk>, attempts: seq<Attempt>)
    requires Run(disks, attempts)
    requires forall i :: 0 <= i < |attempts| ==> !(attempts[i].Wrote? && attempts[i].committed)
    ensures disks[|attempts|].Visible() == disks[0].Visible()
    decreases |attempts|
  {
    if attempts != [] {
      ReaderSeesStart(disks[..|attempts|], attempts[..|attempts| - 1]);
    }
  }
}
