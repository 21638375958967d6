/**
 The HMAC-chained audit log (foundation/security_audit.py): appending, rotating
 onto a fresh chain, and verifying. The MAC and the serialised length of a
 record are arbitrary functions.
 */
module AuditLog {
  import opened Wrappers
  import opened Json

  const MAX_LOG_BYTES: nat := 50 * 1024 * 1024
  const ROTATE_KEEP_BYTES: nat := 10 * 1024 * 1024
  const GENESIS := "GENESIS"

  type Fields = map<string, Json>

  /** A hexadecimal SHA-256 digest. */
  type Digest = s: string | |s| == 64 witness seq(64, _ => '0')

  /** Key, fields and previous hash (absent in records that never had one) to the digest. */
  type Mac = (string, Fields, Option<string>) -> Digest

  /** A record split into its two chain fields and the rest; an absent hash is the empty string. */
  datatype Record = Record(fields: Fields, previous: Option<string>, hash: string)

  /** A line of the file: its record, unless it is not JSON, and its length with the line break. */
  datatype Line = Line(content: Option<Record>, size: nat)

  function PreviousOf(r: Record): string {
    if r.previous.Some? then r.previous.value else ""
  }

  predicate Authentic(mac: Mac, key: string, r: Record) {
    r.hash == mac(key, r.fields, r.previous)
  }

  function FileSize(log: seq<Line>): nat {
    if log == [] then 0 else FileSize(log[..|log| - 1]) + log[|log| - 1].size
  }

  // ---- The chain ----

  /** The hash of a line; the empty string if it has none. */
  function HashOf(line: Line): string {
    if line.content.Some? then line.content.value.hash else ""
  }

  /** The hash that the line at position `i` must name as its predecessor. */
  function Before(log: seq<Line>, i: nat): string
    requires i <= |log|
  {
    if i == 0 then GENESIS else HashOf(log[i - 1])
  }

  /** Line `i` is signed by `key` and linked to the line before. */
  predicate Linked(mac: Mac, key: string, log: seq<Line>, i: nat)
    requires i < |log|
  {
    && log[i].content.Some?
    && PreviousOf(log[i].content.value) == Before(log, i)
    && Authentic(mac, key, log[i].content.value)
  }

  ghost predicate Chained(mac: Mac, key: string, log: seq<Line>) {
    forall i :: 0 <= i < |log| ==> Linked(mac, key, log, i)
  }

  lemma ChainGrows(mac: Mac, key: string, log: seq<Line>, line: Line)
    requires Chained(mac, key, log)
    requires line.content.Some? && Authentic(mac, key, line.content.value)
    requires PreviousOf(line.content.value) == Before(log, |log|)
    ensures Chained(mac, key, log + [line])
  {
    var grown := log + [line];
    forall i | 0 <= i < |grown|
      ensures Linked(mac, key, grown, i)
    {
      if i < |log| {
        assert Linked(mac, key, log, i);
      }
    }
  }

  /** A chain is determined by its key and its contents: no other records can carry the same fields. */
  lemma {:induction false} ChainIsDetermined(mac: Mac, key: string, a: seq<Line>, b: seq<Line>, i: nat)
    requires Chained(mac, key, a) && Chained(mac, key, b) && i < |a| && i < |b|
    requires forall j :: 0 <= j <= i ==> ContentOf(a[j]) == ContentOf(b[j])
    ensures a[i].content == b[i].content
  {
    assert Linked(mac, key, a, i) && Linked(mac, key, b, i);
    if i > 0 {
      ChainIsDetermined(mac, key, a, b, i - 1);
      assert Linked(mac, key, a, i - 1);
    }
  }

  /** Altering the fields of one record, and nothing else, breaks the chain at that record unless its MAC collides. */
  lemma TamperingIsNoticed(mac: Mac, key: string, log: seq<Line>, i: nat, fields: Fields)
    requires Chained(mac, key, log) && i < |log| && log[i].content.Some?
    requires var r := log[i].content.value; mac(key, fields, r.previous) != mac(key, r.fields, r.previous)
    ensures !Chained(mac, key, log[i := Line(Some(log[i].content.value.(fields := fields)), log[i].size)])
  {
    assert Linked(mac, key, log, i);
    var forged := log[i := Line(Some(log[i].content.value.(fields := fields)), log[i].size)];
    assert !Linked(mac, key, forged, i);
  }

  // ---- The head speaks for the whole chain ----

  /** Two records that differ and still have the same digest. */
  predicate Collide(mac: Mac, key: string, a: Record, b: Record) {
    && (a.fields, a.previous) != (b.fields, b.previous)
    && mac(key, a.fields, a.previous) == mac(key, b.fields, b.previous)
  }

  ghost predicate Collision(mac: Mac, key: string, a: seq<Line>, b: seq<Line>) {
    exists i, j :: 0 <= i < |a| && 0 <= j < |b| && a[i].content.Some? && b[j].content.Some?
                   && Collide(mac, key, a[i].content.value, b[j].content.value)
  }

  /** Two chains that agree on the hash at the positions `n` and `m` hold the same records up to there. */
  lemma {:induction false} PrefixIsDetermined(mac: Mac, key: string, a: seq<Line>, n: nat, b: seq<Line>, m: nat)
    requires Chained(mac, key, a) && Chained(mac, key, b) && n <= |a| && m <= |b|
    requires Before(a, n) == Before(b, m) && !Collision(mac, key, a, b)
    ensures n == m && forall i :: 0 <= i < n ==> a[i].content == b[i].content
    decreases n
  {
    if n > 0 {
      assert Linked(mac, key, a, n - 1);
    }
    if m > 0 {
      assert Linked(mac, key, b, m - 1);
    }
    if n > 0 && m > 0 {
      assert !Collide(mac, key, a[n - 1].content.value, b[m - 1].content.value);
      PrefixIsDetermined(mac, key, a, n - 1, b, m - 1);
    }
  }

  /**
   The head determines the whole log: two chains under one key with the same
   head hash hold the same records, unless two records in them collide.
   */
  lemma HeadDeterminesChain(mac: Mac, key: string, a: seq<Line>, b: seq<Line>)
    requires Chained(mac, key, a) && Chained(mac, key, b) && Before(a, |a|) == Before(b, |b|)
    ensures (|a| == |b| && forall i :: 0 <= i < |a| ==> a[i].content == b[i].content) || Collision(mac, key, a, b)
  {
    if !Collision(mac, key, a, b) {
      PrefixIsDetermined(mac, key, a, |a|, b, |b|);
    }
  }

  // ---- What rotation keeps ----

  /** Bytes of the lines that hold records. */
  function RecordBytes(log: seq<Line>): nat {
    if log == [] then 0
    else (if log[0].content.Some? then log[0].size else 0) + RecordBytes(log[1..])
  }

  function ContentOf(line: Line): seq<Fields> {
    if line.content.Some? then [line.content.value.fields] else []
  }

  function Contents(log: seq<Line>): seq<Fields> {
    if log == [] then [] else ContentOf(log[0]) + Contents(log[1..])
  }

  /** `cut` starts the shortest tail whose records reach 10 MiB, or the whole log if none does. */
  ghost predicate IsCut(log: seq<Line>, cut: nat) {
    && cut <= |log|
    && (cut == 0 || RecordBytes(log[cut..]) >= 10_485_760)
    && (forall i :: cut < i <= |log| ==> RecordBytes(log[i..]) < 10_485_760)
  }

  lemma CutIsUnique(log: seq<Line>, a: nat, b: nat)
    requires IsCut(log, a) && IsCut(log, b)
    ensures a == b
  {}

  /** The rotated log: a fresh chain over the contents of the kept tail. */
  ghost predicate Rotated(mac: Mac, key: string, before: seq<Line>, after: seq<Line>) {
    exists cut: nat :: IsCut(before, cut) && Contents(after) == Contents(before[cut..])
                       && Chained(mac, key, after)
  }

  lemma {:induction false} ContentsConcat(a: seq<Line>, b: seq<Line>)
    ensures Contents(a + b) == Contents(a) + Contents(b)
    decreases |a|
  {
    hide ContentOf;
    if a == [] {
      assert a + b == b;
    } else {
      ContentsConcat(a[1..], b);
      assert (a + b)[1..] == a[1..] + b;
      assert (ContentOf(a[0]) + Contents(a[1..])) + Contents(b) == ContentOf(a[0]) + (Contents(a[1..]) + Contents(b));
    }
  }

  // ---- Appending ----

  /** The current key authenticates the head of the log. */
  predicate HeadMatches(mac: Mac, key: string, log: seq<Line>) {
    log == [] || (log[|log| - 1].content.Some? && Authentic(mac, key, log[|log| - 1].content.value))
  }

  /** `line` is signed by `key`, carries `fields` and names the head of `base` as its predecessor. */
  ghost predicate Signs(mac: Mac, key: string, fields: Fields, base: seq<Line>, line: Line) {
    && line.content.Some? && line.content.value.fields == fields
    && Authentic(mac, key, line.content.value)
    && PreviousOf(line.content.value) == Before(base, |base|)
  }

  /** What the log is before the new record is added: rotated if it is larger than 50 MiB. */
  ghost predicate Base(mac: Mac, key: string, before: seq<Line>, base: seq<Line>) {
    if FileSize(before) > 52_428_800 then Rotated(mac, key, before, base) else base == before
  }

  /** One accepted call of `log_event`: what it may do to the log. */
  ghost predicate Appended(mac: Mac, key: string, fields: Fields, before: seq<Line>, after: seq<Line>) {
    after != [] && Base(mac, key, before, after[..|after| - 1])
    && Signs(mac, key, fields, after[..|after| - 1], after[|after| - 1])
  }

  ghost predicate Logged(mac: Mac, key: string, fields: Fields, before: seq<Line>, after: seq<Line>) {
    if HeadMatches(mac, key, before) then Appended(mac, key, fields, before, after) else after == before
  }

  /** The base of an append is a chain that holds the newest contents. */
  lemma BaseKeepsChain(mac: Mac, key: string, before: seq<Line>, base: seq<Line>)
    requires Chained(mac, key, before) && Base(mac, key, before, base)
    ensures Chained(mac, key, base) && IsSuffix(Contents(base), Contents(before))
  {
    if FileSize(before) > MAX_LOG_BYTES {
      var cut: nat :| IsCut(before, cut) && Contents(base) == Contents(before[cut..]) && Chained(mac, key, base);
      ContentsOfTail(before, cut);
    }
  }

  /** An accepted call leaves a chain; the old contents lose at most a front part, and the event comes last. */
  lemma AppendKeepsChain(mac: Mac, key: string, fields: Fields, before: seq<Line>, after: seq<Line>)
    requires Chained(mac, key, before) && Appended(mac, key, fields, before, after)
    ensures Chained(mac, key, after) && Contents(after) != []
    ensures Contents(after)[|Contents(after)| - 1] == fields
    ensures IsSuffix(Contents(after)[..|Contents(after)| - 1], Contents(before))
    ensures FileSize(before) <= 52_428_800 ==> before <= after
  {
    var base, line := after[..|after| - 1], after[|after| - 1];
    assert after == base + [line];
    BaseKeepsChain(mac, key, before, base);
    ChainGrows(mac, key, base, line);
    ContentsConcat(base, [line]);
    assert Contents([line]) == [fields];
    assert (Contents(base) + [fields])[..|Contents(base)|] == Contents(base);
  }

  // ---- Runs ----

  datatype Call = Call(key: string, fields: Fields)

  /** The states of a log from empty on, one per call. */
  ghost predicate IsRun(mac: Mac, calls: seq<Call>, states: seq<seq<Line>>) {
    && |states| == |calls| + 1
    && states[0] == []
    && forall i :: 0 <= i < |calls| ==> Logged(mac, calls[i].key, calls[i].fields, states[i], states[i + 1])
  }

  /** The events that were accepted under the key. */
  function Accepted(calls: seq<Call>, key: string): seq<Fields> {
    if calls == [] then []
    else Accepted(calls[..|calls| - 1], key) +
         (if calls[|calls| - 1].key == key then [calls[|calls| - 1].fields] else [])
  }

  ghost predicate IsSuffix<T>(part: seq<T>, whole: seq<T>) {
    |part| <= |whole| && whole[|whole| - |part|..] == part
  }

  lemma {:induction false} ContentsOfTail(log: seq<Line>, cut: nat)
    requires cut <= |log|
    ensures IsSuffix(Contents(log[cut..]), Contents(log))
  {
    ContentsConcat(log[..cut], log[cut..]);
    assert log[..cut] + log[cut..] == log;
  }

  /** What every state of a run owned by `key` satisfies. */
  ghost predicate Owned(mac: Mac, key: string, log: seq<Line>, events: seq<Fields>) {
    Chained(mac, key, log) && IsSuffix(Contents(log), events)
  }

  lemma OwnerAppends(mac: Mac, key: string, fields: Fields, events: seq<Fields>, before: seq<Line>, after: seq<Line>)
    requires Owned(mac, key, before, events) && Logged(mac, key, fields, before, after)
    ensures Owned(mac, key, after, events + [fields]) && after != []
  {
    hide FileSize, Base, Signs, Contents;
    if before != [] {
      assert Linked(mac, key, before, |before| - 1);
    }
    AppendKeepsChain(mac, key, fields, before, after);
    var kept := Contents(after)[..|Contents(after)| - 1];
    SuffixGrows(kept, Contents(before), events, fields);
    assert Contents(after) == kept + [fields];
  }

  /**
   Every run from an empty log in which no other key authenticates a head it
   meets: the key of the first call owns the log, other keys never change it,
   every state is one uninterrupted chain under the owner, and it holds the
   newest of the owner's events, in order.
   */
  lemma {:induction false} RunKeepsChain(mac: Mac, key: string, calls: seq<Call>, states: seq<seq<Line>>)
    requires IsRun(mac, calls, states)
    requires calls != [] ==> calls[0].key == key
    requires forall i :: 0 < i < |calls| && calls[i].key != key && states[i] != [] ==>
      !IsSigned(mac, calls[i].key, states[i][|states[i]| - 1])
    ensures Chained(mac, key, states[|calls|])
    ensures calls != [] ==> states[|calls|] != []
    ensures IsSuffix(Contents(states[|calls|]), Accepted(calls, key))
    decreases |calls|
  {
    hide Chained, IsSuffix, Contents;
    if calls == [] {
      EmptyIsOwned(mac, key);
    } else {
      var n := |calls| - 1;
      var earlier, last := calls[..n], calls[n];
      RunKeepsChain(mac, key, earlier, states[..n + 1]);
      var events := Accepted(earlier, key);
      assert Logged(mac, last.key, last.fields, states[n], states[n + 1]);
      if last.key == key {
        OwnerAppends(mac, key, last.fields, events, states[n], states[n + 1]);
      } else {
        assert events + [] == events;
      }
    }
  }

  lemma EmptyIsOwned(mac: Mac, key: string)
    ensures Owned(mac, key, [], [])
  {}

  lemma SuffixGrows<T>(part: seq<T>, whole: seq<T>, all: seq<T>, x: T)
    requires IsSuffix(part, whole) && IsSuffix(whole, all)
    ensures IsSuffix(part + [x], all + [x])
  {}

  // ---- Verification ----

  /** The line is signed: it has a record whose hash is the MAC of its own fields and previous hash. */
  predicate IsSigned(mac: Mac, key: string, line: Line) {
    line.content.Some? &&
    var r := line.content.value;
    r.hash == mac(key, r.fields, r.previous)
  }

  /** A line names the genesis value if it is the first, and otherwise the hash of the line before. */
  predicate NamesPrevious(log: seq<Line>, i: nat)
    requires i < |log|
  {
    log[i].content.Some? &&
    var named := log[i].content.value.previous;
    if i == 0 then named == Some("GENESIS")
    else log[i - 1].content.Some? && (named == Some(log[i - 1].content.value.hash))
  }

  datatype Report =
    | Valid(records: nat, head: string)
    | Invalid(line: nat, error: Flaw)

  datatype Flaw = NotJson | Unsigned | PreviousMismatch | MacMismatch

  /** What is wrong with the line at position `i`, when all lines before are linked. */
  ghost predicate HasFlaw(mac: Mac, key: string, log: seq<Line>, i: nat, flaw: Flaw)
    requires i < |log| && forall j :: 0 <= j < i ==> Linked(mac, key, log, j)
  {
    assert i > 0 ==> Linked(mac, key, log, i - 1);
    match flaw
    case NotJson => log[i].content.None?
    case Unsigned => log[i].content.Some? && log[i].content.value.hash == ""
    case PreviousMismatch =>
      && log[i].content.Some? && log[i].content.value.hash != ""
      && PreviousOf(log[i].content.value) != Before(log, i)
    case MacMismatch =>
      && log[i].content.Some? && log[i].content.value.hash != ""
      && PreviousOf(log[i].content.value) == Before(log, i)
      && !Authentic(mac, key, log[i].content.value)
  }

  lemma ChainSpelledOut(mac: Mac, key: string, log: seq<Line>)
    requires Chained(mac, key, log)
    ensures forall i :: 0 <= i < |log| ==> IsSigned(mac, key, log[i]) && NamesPrevious(log, i)
  {
    forall i | 0 <= i < |log|
      ensures IsSigned(mac, key, log[i]) && NamesPrevious(log, i)
    {
      assert Linked(mac, key, log, i);
      if i > 0 {
        assert Linked(mac, key, log, i - 1);
      }
    }
  }

  /** `verify_chain`: accepts exactly the chains, and otherwise names the first broken line. */
  method VerifyChain(mac: Mac, key: string, log: seq<Line>) returns (report: Report)
    ensures report.Valid? <==>
      (forall i :: 0 <= i < |log| ==> IsSigned(mac, key, log[i])) &&
      (forall i :: 0 <= i < |log| ==> NamesPrevious(log, i))
    ensures report.Valid? <==> Chained(mac, key, log)
    ensures report.Valid? ==> report.records == |log| && (report.head == Before(log, |log|))
    ensures report.Invalid? ==> 1 <= report.line <= |log|
    ensures report.Invalid? ==> forall j :: 0 <= j < report.line - 1 ==> Linked(mac, key, log, j)
    ensures report.Invalid? ==> HasFlaw(mac, key, log, report.line - 1, report.error)
  {
    var previous := GENESIS;
    for i := 0 to |log|
      invariant forall j :: 0 <= j < i ==> Linked(mac, key, log, j)
      invariant previous == Before(log, i)
    {
      if log[i].content.None? {
        assert !Linked(mac, key, log, i) && !IsSigned(mac, key, log[i]);
        return Invalid(i + 1, NotJson);
      }
      var record := log[i].content.value;
      if record.hash == "" {
        assert !Linked(mac, key, log, i) && !IsSigned(mac, key, log[i]);
        return Invalid(i + 1, Unsigned);
      }
      if PreviousOf(record) != previous {
        assert !Linked(mac, key, log, i) && !NamesPrevious(log, i);
        return Invalid(i + 1, PreviousMismatch);
      }
      if record.hash != mac(key, record.fields, record.previous) {
        assert !Linked(mac, key, log, i) && !IsSigned(mac, key, log[i]);
        return Invalid(i + 1, MacMismatch);
      }
      previous := record.hash;
    }
    ChainSpelledOut(mac, key, log);
    report := Valid(|log|, previous);
  }

  // ---- The logger ----

  /** The log and its backup on disk, shared by every process. */
  class Disk {
    var lines: seq<Line>
    var rotated: Option<seq<Line>>

    constructor ()
      ensures lines == [] && rotated == None
    {
      lines, rotated := [], None;
    }
  }

  class Logger {
    const mac: Mac
    /** The serialised length of a record with its line break. */
    const size: Record -> nat
    const disk: Disk
    /** The head this process remembers; another process may have moved on since. */
    var headHash: Option<string>

    constructor (mac: Mac, size: Record -> nat, disk: Disk)
      ensures this.mac == mac && this.size == size && this.disk == disk && headHash == None
    {
      this.mac, this.size, this.disk := mac, size, disk;
      headHash := None;
    }

    /** `_last_hash_locked`. */
    method LastHash() returns (hash: string)
      modifies this
      ensures disk.lines == old(disk.lines) && disk.rotated == old(disk.rotated)
      ensures old(headHash).Some? ==> hash == old(headHash).value
      ensures old(headHash).None? && Before(disk.lines, |disk.lines|) != "" ==> hash == Before(disk.lines, |disk.lines|)
      ensures old(headHash).None? && Before(disk.lines, |disk.lines|) == "" ==> hash == GENESIS
    {
      if headHash.Some? {
        return headHash.value;
      }
      if disk.lines != [] {
        var line := disk.lines[|disk.lines| - 1];
        if line.content.Some? && line.content.value.hash != "" {
          headHash := Some(line.content.value.hash);
          return line.content.value.hash;
        }
      }
      hash := GENESIS;
    }

    /** The tail that rotation keeps, read backwards. */
    method KeptRecords() returns (kept: seq<Record>)
      ensures exists cut: nat :: IsCut(disk.lines, cut) && FieldsOf(kept) == Contents(disk.lines[cut..])
    {
      hide RecordBytes, Contents, FieldsOf;
      kept := [];
      var keptBytes := 0;
      var i := |disk.lines|;
      NothingKept(disk.lines);
      while i > 0 && !(keptBytes >= ROTATE_KEEP_BYTES && kept != [])
        invariant 0 <= i <= |disk.lines|
        invariant FieldsOf(kept) == Contents(disk.lines[i..])
        invariant keptBytes == RecordBytes(disk.lines[i..])
        invariant keptBytes > 0 ==> kept != []
        invariant forall j :: i < j <= |disk.lines| ==> RecordBytes(disk.lines[j..]) < ROTATE_KEEP_BYTES
      {
        i := i - 1;
        var line := disk.lines[i];
        OneMoreLine(disk.lines, i);
        if line.content.Some? {
          FieldsOfCons(line.content.value, kept);
          kept := [line.content.value] + kept;
          keptBytes := keptBytes + line.size;
        }
      }
      assert IsCut(disk.lines, i);
    }

    /** Signs the records again from the start of a fresh chain. */
    method Rechain(key: string, kept: seq<Record>) returns (lines: seq<Line>)
      ensures Chained(mac, key, lines) && Contents(lines) == FieldsOf(kept)
    {
      lines := [];
      var previous := GENESIS;
      for i := 0 to |kept|
        invariant Chained(mac, key, lines) && Contents(lines) == FieldsOf(kept[..i])
        invariant previous == Before(lines, |lines|)
      {
        var hash := mac(key, kept[i].fields, Some(previous));
        var record := Record(kept[i].fields, Some(previous), hash);
        var line := Line(Some(record), size(record));
        ChainGrows(mac, key, lines, line);
        ContentsConcat(lines, [line]);
        assert kept[..i + 1] == kept[..i] + [kept[i]];
        FieldsConcat(kept[..i], [kept[i]]);
        lines := lines + [line];
        previous := hash;
      }
      assert kept[..|kept|] == kept;
    }

    /** `_rotate_if_needed_locked`. */
    method RotateIfNeeded(key: string)
      modifies this, disk
      ensures FileSize(old(disk.lines)) <= 52_428_800 ==>
                disk.lines == old(disk.lines) && disk.rotated == old(disk.rotated)
      ensures FileSize(old(disk.lines)) > 52_428_800 ==>
                Rotated(mac, key, old(disk.lines), disk.lines) && disk.rotated == Some(old(disk.lines))
    {
      if FileSize(disk.lines) <= MAX_LOG_BYTES {
        return;
      }
      var kept := KeptRecords();
      var lines := Rechain(key, kept);
      assert Rotated(mac, key, disk.lines, lines);
      disk.rotated := Some(disk.lines);
      disk.lines := lines;
      headHash := Some(Before(lines, |lines|));
    }

    /**
     `log_event` under the current key. It refuses exactly when the last line
     has no record or its hash is not the MAC of its fields under that key, and
     then nothing changes.
     */
    method LogEvent(key: string, fields: Fields) returns (record: Option<Record>)
      modifies this, disk
      ensures Logged(mac, key, fields, old(disk.lines), disk.lines)
      ensures record.None? <==> old(disk.lines) != [] && !IsSigned(mac, key, old(disk.lines)[|old(disk.lines)| - 1])
      ensures record.Some? ==> record.value.fields == fields
      ensures record.Some? ==> record.value.hash == mac(key, fields, record.value.previous)
      ensures record.None? ==> disk.lines == old(disk.lines) && disk.rotated == old(disk.rotated)
      ensures record.Some? ==> disk.lines != [] && disk.lines[|disk.lines| - 1].content == record
      ensures record.Some? ==> headHash == Some(record.value.hash)
      ensures disk.rotated == old(disk.rotated) || disk.rotated == Some(old(disk.lines))
    {
      hide FileSize, Rotated, Before;
      ghost var before := disk.lines;
      if !HeadMatches(mac, key, disk.lines) {
        return None;
      }
      RotateIfNeeded(key);
      ghost var base := disk.lines;
      BaseHasHead(mac, key, before, base);
      var r := Append(key, fields);
      record := Some(r);
      assert disk.lines[..|disk.lines| - 1] == base;
    }

    /** Signs one record behind the head that is on disk, whatever this process remembers. */
    method Append(key: string, fields: Fields) returns (r: Record)
      requires Before(disk.lines, |disk.lines|) != ""
      modifies this, disk`lines
      ensures |disk.lines| == |old(disk.lines)| + 1 && disk.lines[..|old(disk.lines)|] == old(disk.lines)
      ensures disk.lines[|old(disk.lines)|].content == Some(r)
      ensures Signs(mac, key, fields, old(disk.lines), disk.lines[|old(disk.lines)|])
      ensures headHash == Some(r.hash)
    {
      headHash := None;
      var previous := LastHash();
      var hash := mac(key, fields, Some(previous));
      r := Record(fields, Some(previous), hash);
      disk.lines := disk.lines + [Line(Some(r), size(r))];
      headHash := Some(hash);
    }
  }

  function FieldsOf(records: seq<Record>): seq<Fields> {
    if records == [] then [] else [records[0].fields] + FieldsOf(records[1..])
  }

  lemma NothingKept(log: seq<Line>)
    ensures RecordBytes(log[|log|..]) == 0 && Contents(log[|log|..]) == [] && FieldsOf([]) == []
  {}

  lemma OneMoreLine(log: seq<Line>, i: nat)
    requires i < |log|
    ensures RecordBytes(log[i..]) == (if log[i].content.Some? then log[i].size else 0) + RecordBytes(log[i + 1..])
    ensures Contents(log[i..]) == ContentOf(log[i]) + Contents(log[i + 1..])
  {
    assert log[i..][1..] == log[i + 1..];
  }

  lemma FieldsOfCons(r: Record, rest: seq<Record>)
    ensures FieldsOf([r] + rest) == [r.fields] + FieldsOf(rest)
  {
    assert ([r] + rest)[1..] == rest;
  }

  lemma {:induction false} FieldsConcat(a: seq<Record>, b: seq<Record>)
    ensures FieldsOf(a + b) == FieldsOf(a) + FieldsOf(b)
    decreases |a|
  {
    if a == [] {
      assert a + b == b;
    } else {
      FieldsConcat(a[1..], b);
      assert (a + b)[1..] == a[1..] + b;
    }
  }

  /** Whether rotated or not, the log that is appended to ends with an authentic record. */
  lemma BaseHasHead(mac: Mac, key: string, before: seq<Line>, base: seq<Line>)
    requires HeadMatches(mac, key, before)
    requires Base(mac, key, before, base)
    ensures HeadMatches(mac, key, base) && Before(base, |base|) != ""
  {
    if FileSize(before) > MAX_LOG_BYTES && base != [] {
      var cut: nat :| IsCut(before, cut) && Contents(base) == Contents(before[cut..]) && Chained(mac, key, base);
      assert Linked(mac, key, base, |base| - 1);
    }
  }
}
