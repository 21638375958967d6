/**
 The continuous replay loop (worker_agent/aoa_actions.py) with its USB session
 (worker_agent/aoa_session.py). At every call into the USB stack the environment
 chooses the outcome and how much time passes, so the device may vanish or come
 back under a new handle at any moment. Times are milliseconds.
 */
module AoaReplay {
  import opened Wrappers
  import opened HidReports

  /** One SEND_HID_EVENT transfer that was attempted, on which handle and for which command. */
  datatype Attempt = Attempt(session: nat, command: nat, report: Report)

  /**
   The device was found on the bus as the one behind this handle, or the handle
   answered a read; `at` is the number of transfers attempted before.
   */
  datatype Sighting = Found(session: nat, at: nat) | Answered(session: nat, at: nat)

  function Sum(pauses: seq<nat>): nat {
    if pauses == [] then 0 else Sum(pauses[..|pauses| - 1]) + pauses[|pauses| - 1]
  }

  lemma SumGrows(pauses: seq<nat>, last: nat)
    ensures Sum(pauses + [last]) == Sum(pauses) + last
  {
    assert (pauses + [last])[..|pauses|] == pauses;
  }

  ghost predicate AllParsed(commands: seq<Command>) {
    forall i :: 0 <= i < |commands| ==> Parsed(commands[i])
  }

  function Attempts(session: nat, command: nat, reports: seq<Report>): seq<Attempt> {
    seq(|reports|, i requires 0 <= i < |reports| => Attempt(session, command, reports[i]))
  }

  /** A log without its handles: which report of which command. */
  function Content(log: seq<Attempt>): seq<(nat, Report)> {
    seq(|log|, i requires 0 <= i < |log| => (log[i].command, log[i].report))
  }

  function Tagged(command: nat, reports: seq<Report>): seq<(nat, Report)> {
    seq(|reports|, i requires 0 <= i < |reports| => (command, reports[i]))
  }

  /** The reports of the first `k` commands, in order. */
  ghost function Program(commands: seq<Command>, k: nat): seq<(nat, Report)>
    requires k <= |commands| && AllParsed(commands)
  {
    if k == 0 then [] else Program(commands, k - 1) + Tagged(k - 1, Reports(commands[k - 1]))
  }

  /** The log is exactly commands 0 .. k-1 and the first `sent` reports of command k. */
  ghost predicate Exact(log: seq<Attempt>, commands: seq<Command>, k: nat, sent: nat) {
    && AllParsed(commands) && k <= |commands|
    && (if k < |commands| then sent <= |Reports(commands[k])| else sent == 0)
    && Content(log) == Program(commands, k) + if k < |commands| then Tagged(k, Reports(commands[k])[..sent]) else []
  }

  /** All reports of one command go to one handle, and handles only move forward. */
  ghost predicate OneSessionPerCommand(log: seq<Attempt>) {
    forall i, j :: 0 <= i < j < |log| ==>
      log[i].session <= log[j].session && (log[i].command == log[j].command ==> log[i].session == log[j].session)
  }

  lemma ExactAdvances(log: seq<Attempt>, commands: seq<Command>, k: nat, session: nat, sent: nat)
    requires Exact(log, commands, k, 0) && k < |commands| && sent <= |Reports(commands[k])|
    ensures Exact(log + Attempts(session, k, Reports(commands[k])[..sent]), commands, k, sent)
    ensures sent == |Reports(commands[k])| ==>
      Exact(log + Attempts(session, k, Reports(commands[k])[..sent]), commands, k + 1, 0)
  {
    hide Reports, Parsed;
    var part := Reports(commands[k])[..sent];
    assert Content(log + Attempts(session, k, part)) == Content(log) + Tagged(k, part);
    assert Tagged(k, Reports(commands[k])[..0]) == [];
    assert Content(log) == Program(commands, k);
    if sent == |Reports(commands[k])| {
      assert part == Reports(commands[k]);
      if k + 1 < |commands| {
        assert Tagged(k + 1, Reports(commands[k + 1])[..0]) == [];
      }
    }
  }

  lemma SessionsAdvance(log: seq<Attempt>, k: nat, session: nat, reports: seq<Report>)
    requires OneSessionPerCommand(log)
    requires forall a :: a in log ==> a.session <= session && a.command < k
    ensures OneSessionPerCommand(log + Attempts(session, k, reports))
  {
    var longer := log + Attempts(session, k, reports);
    forall i, j | 0 <= i < j < |longer|
      ensures longer[i].session <= longer[j].session
           && (longer[i].command == longer[j].command ==> longer[i].session == longer[j].session)
    {
      assert i < |log| ==> log[i] in log;
    }
  }

  /** The log between two commands. */
  ghost predicate Reached(log: seq<Attempt>, commands: seq<Command>, k: nat) {
    Exact(log, commands, k, 0) && OneSessionPerCommand(log) && forall a :: a in log ==> a.command < k
  }

  lemma ReachedStart(commands: seq<Command>)
    requires AllParsed(commands)
    ensures Reached([], commands, 0)
  {
    if commands != [] {
      assert Tagged(0, Reports(commands[0])[..0]) == [];
    }
  }

  lemma ReachedAdvances(log: seq<Attempt>, commands: seq<Command>, k: nat, session: nat, sent: nat)
    requires Reached(log, commands, k) && k < |commands| && sent <= |Reports(commands[k])|
    requires forall a :: a in log ==> a.session <= session
    ensures var after := log + Attempts(session, k, Reports(commands[k])[..sent]);
      && Exact(after, commands, k, sent) && OneSessionPerCommand(after)
      && (sent == |Reports(commands[k])| ==> Reached(after, commands, k + 1))
  {
    ExactAdvances(log, commands, k, session, sent);
    SessionsAdvance(log, k, session, Reports(commands[k])[..sent]);
  }

  // ---- Session checks ----

  /** The latest of the new sightings is an answer of this handle at this point of the log. */
  ghost predicate AnsweredIn(before: seq<Sighting>, after: seq<Sighting>, session: nat, at: nat) {
    |after| > |before| && after[|after| - 1] == Answered(session, at)
  }

  /** Just before that answer the device was found as the one behind this handle. */
  ghost predicate FoundIn(before: seq<Sighting>, after: seq<Sighting>, session: nat, at: nat) {
    |after| > |before| + 1 && after[|after| - 2] == Found(session, at)
  }

  /** The handle of attempt `p` answered when nothing but reports of the same command had been sent since. */
  ghost predicate CheckedAt(log: seq<Attempt>, sightings: seq<Sighting>, p: nat, k: nat)
    requires p < |log|
  {
    && k < |sightings| && sightings[k].Answered? && sightings[k].session == log[p].session && sightings[k].at <= p
    && forall q :: sightings[k].at <= q < p ==> log[q].command == log[p].command
  }

  ghost predicate HasAnswered(log: seq<Attempt>, sightings: seq<Sighting>, p: nat)
    requires p < |log|
  {
    exists k :: CheckedAt(log, sightings, p, k)
  }

  /** Every transfer went to a handle that had answered after the previous command's last transfer. */
  ghost predicate Checked(log: seq<Attempt>, sightings: seq<Sighting>) {
    forall p :: 0 <= p < |log| ==> HasAnswered(log, sightings, p)
  }

  lemma CheckedLater(log: seq<Attempt>, before: seq<Sighting>, after: seq<Sighting>)
    requires Checked(log, before) && before <= after
    ensures Checked(log, after)
  {
    forall p | 0 <= p < |log|
      ensures HasAnswered(log, after, p)
    {
      assert HasAnswered(log, before, p);
      var k: nat :| CheckedAt(log, before, p, k);
      assert CheckedAt(log, after, p, k);
    }
  }

  lemma CheckedGrows(log: seq<Attempt>, sightings: seq<Sighting>, session: nat, command: nat, reports: seq<Report>)
    requires Checked(log, sightings) && sightings != []
    requires sightings[|sightings| - 1] == Answered(session, |log|)
    ensures Checked(log + Attempts(session, command, reports), sightings)
  {
    var longer := log + Attempts(session, command, reports);
    forall p | 0 <= p < |longer|
      ensures HasAnswered(longer, sightings, p)
    {
      if p < |log| {
        assert HasAnswered(log, sightings, p);
        var k: nat :| CheckedAt(log, sightings, p, k);
        assert CheckedAt(longer, sightings, p, k);
      } else {
        assert CheckedAt(longer, sightings, p, |sightings| - 1);
      }
    }
  }

  lemma CheckedAdvances(log: seq<Attempt>, commands: seq<Command>, k: nat, sightings: seq<Sighting>, session: nat,
                        sent: nat)
    requires AllParsed(commands) && k < |commands| && sent <= |Reports(commands[k])|
    requires Checked(log, sightings) && sightings != []
    requires sightings[|sightings| - 1] == Answered(session, |log|)
    ensures Checked(log + Attempts(session, k, Reports(commands[k])[..sent]), sightings)
  {
    CheckedGrows(log, sightings, session, k, Reports(commands[k])[..sent]);
  }

  const STEP_DELAY: nat := 10

  datatype Readiness = Stable | Rebuilt | Failed

  class Replay {
    const commands: seq<Command>
    /** Whether the backend exposes bus metadata, and whether a physical port is bound. */
    const hasGeneration: bool
    const portBound: bool
    /** The configurable delay after a complete action. */
    const actionDelay: nat
    var now: int
    var deadline: int
    var device: Option<nat>
    var registered: set<int>
    var required: set<int>
    var rebuilds: nat
    var nextSession: nat
    var executed: nat
    /** The transfers attempted, handles given up, and how often something went wrong. */
    ghost var log: seq<Attempt>
    ghost var disposed: set<nat>
    ghost var faults: nat
    /** How often it was a call to the outside. */
    ghost var errors: nat
    /** What the session checks saw, and for how long the operator paused in all. */
    ghost var sightings: seq<Sighting>
    ghost var pausedTotal: nat

    constructor (commands: seq<Command>, hasGeneration: bool, portBound: bool, actionDelay: nat,
                 now: int, deadline: int)
      requires commands != [] && AllParsed(commands)
      ensures this.commands == commands && log == [] && sightings == [] && executed == 0 && Valid()
    {
      this.commands, this.hasGeneration, this.portBound := commands, hasGeneration, portBound;
      this.actionDelay, this.now, this.deadline := actionDelay, now, deadline;
      device, registered, required, rebuilds, nextSession, executed := None, {}, {}, 0, 0, 0;
      log, disposed, faults, errors, sightings, pausedTotal := [], {}, 0, 0, [], 0;
    }

    ghost predicate Valid()
      reads this
    {
      && commands != [] && AllParsed(commands)
      && (device.Some? ==> device.value < nextSession && device.value !in disposed)
      && (device.None? ==> registered == {})
      && (forall d :: d in disposed ==> d < nextSession)
      && (forall a :: a in log ==> a.session < nextSession)
      && (device.Some? ==> forall a :: a in log ==> a.session <= device.value)
    }

    // ---- The environment ----

    method Pass(atLeast: nat)
      modifies this`now
      ensures now >= old(now) + atLeast
    {
      var extra: nat :| extra >= 0;
      now := now + atLeast + extra;
    }

    /** A call that may raise. */
    method Call() returns (ok: bool)
      modifies this`now, this`faults, this`errors
      ensures now >= old(now)
      ensures faults == if ok then old(faults) else old(faults) + 1
      ensures errors == if ok then old(errors) else old(errors) + 1
    {
      Pass(0);
      ok := *;
      if !ok {
        faults, errors := faults + 1, errors + 1;
      }
    }

    /** Raising an error of the code's own. */
    ghost method Raise()
      modifies this`faults
      ensures faults == old(faults) + 1
    {
      faults := faults + 1;
    }

    /** The operator pauses the replay for a while. */
    method Pause() returns (paused: nat)
      modifies this`now, this`pausedTotal
      ensures pausedTotal == old(pausedTotal) + paused && now >= old(now) + paused
    {
      paused :| paused >= 0;
      Pass(paused);
      pausedTotal := pausedTotal + paused;
    }

    /** The pause gate: cancelled, or paused for a while that is added to the deadline. */
    method Gate() returns (ok: bool)
      modifies this`now, this`deadline, this`pausedTotal, this`faults, this`errors
      ensures deadline - now <= old(deadline) - old(now) && now >= old(now)
      ensures ok ==> deadline - pausedTotal == old(deadline) - old(pausedTotal)
      ensures faults == if ok then old(faults) else old(faults) + 1
      ensures errors == if ok then old(errors) else old(errors) + 1
    {
      var paused := Pause();
      ok := Call();
      if ok {
        deadline := deadline + paused;
      }
    }

    // ---- aoa_session.py ----

    method RegisterAll() returns (ok: bool)
      requires device.Some?
      modifies this`now, this`registered, this`faults, this`errors
      ensures now >= old(now)
      ensures faults == if ok then old(faults) else old(faults) + 1
      ensures errors == if ok then old(errors) else old(errors) + 1
      ensures ok ==> registered <= required
      ensures !ok ==> registered == old(registered)
    {
      ok := Call();
      if ok {
        var accepted: set<int> := *;
        registered := accepted * required;
      }
    }

    /**
     `AoaSession.prepare`. Nothing is sent here. Unless it fails there is a
     usable handle, and every rebuild consumes time, so rebuilding ends. If
     nothing outside failed, it fails only without a bound port or when the
     time for a reconnection is over.
     */
    method Prepare(limit: int) returns (readiness: Readiness)
      requires Valid() && device.Some?
      modifies this`now, this`device, this`registered, this`rebuilds, this`nextSession, this`disposed, this`faults,
               this`errors, this`sightings
      ensures Valid() && now >= old(now) && old(disposed) <= disposed && old(sightings) <= sightings
      ensures !hasGeneration ==> readiness.Stable? && device == old(device)
      ensures !portBound ==> device == old(device) && !readiness.Rebuilt?
      ensures !readiness.Failed? ==> device.Some?
      ensures hasGeneration && !readiness.Failed? ==> AnsweredIn(old(sightings), sightings, device.value, |log|)
      ensures hasGeneration && readiness.Stable? && device == old(device) ==>
        FoundIn(old(sightings), sightings, device.value, |log|)
      ensures device.Some? ==> device.value == old(device.value) || device.value >= old(nextSession)
      ensures device != old(device) ==> old(device.value) in disposed
      ensures readiness.Failed? <==> faults > old(faults)
      ensures errors >= old(errors)
      ensures readiness.Failed? && errors == old(errors) ==> !portBound || now >= limit || now >= old(now) + 20000
      ensures faults >= old(faults)
      ensures readiness.Rebuilt? ==> old(now) < limit && now >= old(now) + 2000 && device != old(device)
      decreases limit - now
    {
      hide AllParsed;
      if !hasGeneration {
        return Stable;
      }
      var ok, present, usable := Inspect();
      if !ok {
        return Failed;
      }
      if usable {
        return Stable;
      }
      if !portBound {
        Raise();
        return Failed;
      }
      var timeout := if limit < now + 20000 then limit else now + 20000;
      ok := AwaitDevice(present, timeout);
      if !ok {
        return Failed;
      }
      readiness := Rebuild();
      if readiness.Failed? {
        return;
      }
      var alive: bool;
      ok, alive := Alive();
      if !ok {
        return Failed;
      }
      readiness := if alive then Rebuilt else Stable;
      if !alive {
        readiness := Prepare(timeout);
      }
    }

    /** Whether the device is on the bus, and whether it is still the same one behind a live handle. */
    method Inspect() returns (ok: bool, present: bool, usable: bool)
      requires device.Some?
      modifies this`now, this`faults, this`errors, this`sightings
      ensures now >= old(now) && old(sightings) <= sightings
      ensures ok && usable ==> AnsweredIn(old(sightings), sightings, device.value, |log|)
      ensures ok && usable ==> FoundIn(old(sightings), sightings, device.value, |log|)
      ensures faults == if ok then old(faults) else old(faults) + 1
      ensures errors == if ok then old(errors) else old(errors) + 1
    {
      present, usable := false, false;
      ok := Call();
      if !ok {
        return;
      }
      var same: bool;
      ok, present, same := Find();
      if ok && present && same {
        ok, usable := Alive();
      }
    }

    /** Waits for the device if it is absent, and checks the time that is left. */
    method AwaitDevice(present: bool, timeout: int) returns (ok: bool)
      requires device.Some?
      modifies this`now, this`faults, this`errors, this`sightings
      ensures old(sightings) <= sightings
      ensures now >= old(now) && (ok ==> now < timeout)
      ensures faults == if ok then old(faults) else old(faults) + 1
      ensures errors >= old(errors) && (ok ==> errors == old(errors))
      ensures !ok && errors == old(errors) ==> now >= timeout
    {
      if !present {
        ok := WaitPresent(timeout);
        if !ok {
          return;
        }
      }
      ok := Call();
      if ok && now >= timeout {
        Raise();
        ok := false;
      }
    }

    /** Polls until the device is present again or the timeout has passed. */
    method WaitPresent(timeout: int) returns (ok: bool)
      requires device.Some?
      modifies this`now, this`faults, this`errors, this`sightings
      ensures now >= old(now) && old(sightings) <= sightings
      ensures faults == if ok then old(faults) else old(faults) + 1
      ensures errors >= old(errors) && (ok ==> errors == old(errors))
      ensures !ok && errors == old(errors) ==> now >= timeout
    {
      var present := false;
      while !present
        invariant now >= old(now) && faults == old(faults) && errors == old(errors) && old(sightings) <= sightings
        decreases timeout - now
      {
        ok := Call();
        if !ok {
          return;
        }
        if now >= timeout {
          Raise();
          return false;
        }
        Pass(if timeout - now < 250 then timeout - now else 250);
        var same: bool;
        ok, present, same := Find();
        if !ok {
          return;
        }
      }
      ok := true;
    }

    /** `_find` and the comparison of generations. */
    method Find() returns (ok: bool, present: bool, same: bool)
      requires device.Some?
      modifies this`now, this`faults, this`errors, this`sightings
      ensures now >= old(now)
      ensures faults == if ok then old(faults) else old(faults) + 1
      ensures errors == if ok then old(errors) else old(errors) + 1
      ensures sightings ==
        if ok && present && same then old(sightings) + [Found(device.value, |log|)] else old(sightings)
    {
      ok := Call();
      present := *;
      same := *;
      if ok && present && same {
        sightings := sightings + [Found(device.value, |log|)];
      }
    }

    /** `_alive`: reads a descriptor through the handle. */
    method Alive() returns (ok: bool, alive: bool)
      requires device.Some?
      modifies this`now, this`faults, this`errors, this`sightings
      ensures now >= old(now)
      ensures faults == if ok then old(faults) else old(faults) + 1
      ensures errors == if ok then old(errors) else old(errors) + 1
      ensures sightings == if ok && alive then old(sightings) + [Answered(device.value, |log|)] else old(sightings)
    {
      ok := Call();
      alive := *;
      if ok && alive {
        sightings := sightings + [Answered(device.value, |log|)];
      }
    }

    /** Gives up the old handle before anything else, then configures and registers a new one. */
    method Rebuild() returns (readiness: Readiness)
      requires Valid() && device.Some?
      modifies this`now, this`device, this`registered, this`rebuilds, this`nextSession, this`disposed, this`faults,
               this`errors
      ensures Valid() && now >= old(now) && disposed == old(disposed) + {old(device.value)}
      ensures device.Some? ==> device.value == old(nextSession)
      ensures !readiness.Stable? && (readiness.Rebuilt? ==> device.Some? && now >= old(now) + 2000)
      ensures faults == if readiness.Rebuilt? then old(faults) else old(faults) + 1
      ensures errors == if readiness.Rebuilt? then old(errors) else old(errors) + 1
    {
      disposed := disposed + {device.value};
      device := None;
      registered := {};
      var ok := Call();
      if !ok {
        return Failed;
      }
      ok := Call();
      if !ok {
        return Failed;
      }
      device := Some(nextSession);
      nextSession := nextSession + 1;
      ok := Call();
      if !ok {
        return Failed;
      }
      Pass(1000);
      ok := RegisterAll();
      if !ok {
        return Failed;
      }
      Pass(1000);
      rebuilds := rebuilds + 1;
      readiness := Rebuilt;
    }

    // ---- aoa_actions.py ----

    /** `send_hid`: at most one attempt, on the current handle, never repeated. */
    method SendHid(command: nat, report: Report, pause: nat) returns (ok: bool)
      requires device.Some?
      modifies this`now, this`log, this`faults, this`errors
      ensures now >= old(now)
      ensures log == old(log) || log == old(log) + [Attempt(device.value, command, report)]
      ensures log == old(log) <==> old(now) > deadline || report.channel !in registered
      ensures ok ==> now >= old(now) + pause
      ensures ok ==> log == old(log) + [Attempt(device.value, command, report)]
      ensures faults == if ok then old(faults) else old(faults) + 1
      ensures !ok && log != old(log) ==> errors > old(errors)
    {
      if now > deadline || report.channel !in registered {
        Raise();
        return false;
      }
      log := log + [Attempt(device.value, command, report)];
      ok := Call();
      if !ok {
        return;
      }
      Pass(pause);
    }

    /** Attempts `reports` in order, each followed by its pause, stopping at the first failure. */
    method SendAll(command: nat, reports: seq<Report>, pauses: seq<nat>) returns (ok: bool, ghost sent: nat)
      requires device.Some? && |pauses| == |reports|
      modifies this`now, this`log, this`faults, this`errors
      ensures now >= old(now) && sent <= |reports| && (ok ==> now >= old(now) + Sum(pauses))
      ensures log == old(log) + Attempts(device.value, command, reports[..sent])
      ensures forall k :: 0 <= k < sent ==> reports[k].channel in registered
      ensures ok ==> sent == |reports|
      ensures faults == if ok then old(faults) else old(faults) + 1
    {
      sent := 0;
      ok := true;
      for i := 0 to |reports|
        invariant now >= old(now) + Sum(pauses[..i]) && faults == old(faults)
        invariant sent == i && log == old(log) + Attempts(device.value, command, reports[..i])
        invariant forall k :: 0 <= k < i ==> reports[k].channel in registered
      {
        assert Attempts(device.value, command, reports[..i + 1])
          == Attempts(device.value, command, reports[..i]) + [Attempt(device.value, command, reports[i])];
        assert pauses[..i + 1] == pauses[..i] + [pauses[i]];
        SumGrows(pauses[..i], pauses[i]);
        ok := SendHid(command, reports[i], pauses[i]);
        if !ok {
          if log != old(log) + Attempts(device.value, command, reports[..i]) {
            sent := i + 1;
          }
          return;
        }
        sent := i + 1;
      }
      assert pauses[..|pauses|] == pauses;
    }

    /** The branches of the command loop that send reports. */
    method SendCommand(i: nat) returns (ok: bool, ghost sent: nat)
      requires Valid() && device.Some? && i < |commands|
      modifies this`now, this`log, this`faults, this`errors
      ensures now >= old(now) && sent <= |Reports(commands[i])|
      ensures log == old(log) + Attempts(device.value, i, Reports(commands[i])[..sent])
      ensures ok ==> sent == |Reports(commands[i])|
      ensures ok ==> now >= old(now) + match commands[i] case Sleep(ms) => ms case LongClick(_, _) => 1000 + actionDelay
                                         case _ => actionDelay
      ensures faults == if ok then old(faults) else old(faults) + 1
    {
      var c := commands[i];
      match c
      case System(key) =>
        ok, sent := SendAll(i, [SystemReport(key)], [actionDelay]);
      case Click(x, y) =>
        ok, sent := SendAll(i, [TouchReport(true, x, y), TouchReport(false, x, y)], [STEP_DELAY, actionDelay]);
      case LongClick(x, y) =>
        ok, sent := SendAll(i, [TouchReport(true, x, y), TouchReport(false, x, y)], [1000, actionDelay]);
      case Swipe(_, _, _, _, _) =>
        var points := SwipePoints(c);
        var pauses := seq(|points|, k requires 0 <= k < |points| => if points[k].down then STEP_DELAY else actionDelay);
        ok, sent := SendAll(i, TouchReports(points), pauses);
      case Write(text) =>
        var keys := TextToKeys(text);
        ok, sent := SendAll(i, Strokes(keys.value), seq(2 * |keys.value|, _ => STEP_DELAY));
        if ok {
          Pass(actionDelay);
        }
      case Key(keys) =>
        ok, sent := SendAll(i, Strokes(keys), seq(2 * |keys|, _ => STEP_DELAY));
        if ok {
          Pass(actionDelay);
        }
      case Sleep(ms) =>
        Pass(ms);
        ok, sent := true, 0;
    }

    /** `while True: rebuilt = session.prepare(...)`: ends because every rebuild costs time. */
    method PrepareUntilStable() returns (ok: bool)
      requires Valid() && device.Some?
      modifies this`now, this`deadline, this`pausedTotal, this`device, this`registered, this`rebuilds,
               this`nextSession, this`disposed, this`faults, this`errors, this`sightings
      ensures Valid() && old(disposed) <= disposed && old(sightings) <= sightings
      ensures ok ==> device.Some? && deadline - pausedTotal == old(deadline) - old(pausedTotal)
      ensures ok && hasGeneration ==> AnsweredIn(old(sightings), sightings, device.value, |log|)
      ensures ok <==> faults == old(faults)
      ensures faults >= old(faults)
      ensures !ok && errors == old(errors) ==> !portBound || now >= deadline || now >= old(now) + 20000
    {
      while true
        invariant Valid() && device.Some? && faults == old(faults) && errors >= old(errors) && now >= old(now)
        invariant old(disposed) <= disposed && old(sightings) <= sightings
        invariant deadline - pausedTotal == old(deadline) - old(pausedTotal)
        decreases deadline - now
      {
        var readiness := Prepare(deadline);
        if readiness.Failed? {
          return false;
        }
        if readiness.Stable? {
          return true;
        }
        ok := Gate();
        if !ok {
          return;
        }
      }
    }

    /**
     One pass over all commands. What was attempted is exactly the reports of
     the executed commands and a prefix of the next one's, each once and in
     order, with all reports of a command on one handle. If the backend exposes
     generations, that handle answered after the previous command's last report.
     Pauses do not use up the time budget.
     */
    method Run() returns (ok: bool, ghost sent: nat)
      requires Valid() && device.None? && log == [] && executed == 0
      modifies this
      ensures Valid()
      ensures hasGeneration ==> Checked(log, sightings)
      ensures ok ==> deadline - pausedTotal == old(deadline) - old(pausedTotal)
      ensures Exact(log, commands, executed, sent) && OneSessionPerCommand(log)
      ensures ok <==> executed == |commands|
      ensures ok <==> faults == old(faults)
    {
      hide Exact, OneSessionPerCommand, AllParsed;
      sent := 0;
      ReachedStart(commands);
      required := RequiredChannels(commands);
      ok := Open();
      if !ok {
        return;
      }
      for i := 0 to |commands|
        invariant Valid() && device.Some? && executed == i && faults == old(faults)
        invariant Reached(log, commands, i) && sent == 0
        invariant hasGeneration ==> Checked(log, sightings)
        invariant deadline - pausedTotal == old(deadline) - old(pausedTotal)
      {
        ok, sent := Execute(i);
        if !ok {
          return;
        }
        sent := 0;
        executed := executed + 1;
      }
      ok := true;
    }

    /** Configures the accessory and registers its channels, before the first command. */
    method Open() returns (ok: bool)
      requires Valid() && device.None? && log == []
      modifies this`now, this`device, this`registered, this`nextSession, this`faults, this`errors
      ensures Valid() && (ok ==> device == Some(old(nextSession)) && registered <= required && now >= old(now) + 2000)
      ensures faults == if ok then old(faults) else old(faults) + 1
      ensures errors == if ok then old(errors) else old(errors) + 1
    {
      hide AllParsed;
      ok := Call();
      if !ok {
        return;
      }
      device := Some(nextSession);
      nextSession := nextSession + 1;
      Pass(1000);
      ok := RegisterAll();
      if !ok {
        return;
      }
      Pass(1000);
    }

    /** One turn of the command loop. */
    method Execute(i: nat) returns (ok: bool, ghost sent: nat)
      requires Valid() && device.Some? && i < |commands| && Reached(log, commands, i)
      requires hasGeneration ==> Checked(log, sightings)
      modifies this`now, this`deadline, this`pausedTotal, this`device, this`registered, this`rebuilds,
               this`nextSession, this`disposed, this`log, this`faults, this`errors, this`sightings
      ensures Valid()
      ensures hasGeneration ==> Checked(log, sightings)
      ensures ok ==> deadline - pausedTotal == old(deadline) - old(pausedTotal)
      ensures ok ==> device.Some? && Reached(log, commands, i + 1)
      ensures !ok ==> Exact(log, commands, i, sent) && OneSessionPerCommand(log)
      ensures ok <==> faults == old(faults)
    {
      hide Exact, OneSessionPerCommand, AllParsed, Checked;
      sent := 0;
      ok := MakeReady(commands[i]);
      if !ok {
        return;
      }
      ghost var before := log;
      ok, sent := SendCommand(i);
      ReachedAdvances(before, commands, i, device.value, sent);
      if hasGeneration {
        if commands[i].Sleep? {
          assert log == before;
        } else {
          CheckedAdvances(before, commands, i, sightings, device.value, sent);
        }
      }
    }

    /** What comes before the reports of a command: the pause gate, the time budget and the session check. */
    method MakeReady(c: Command) returns (ok: bool)
      requires Valid() && device.Some?
      requires hasGeneration ==> Checked(log, sightings)
      modifies this`now, this`deadline, this`pausedTotal, this`device, this`registered, this`rebuilds,
               this`nextSession, this`disposed, this`faults, this`errors, this`sightings
      ensures Valid() && (hasGeneration ==> Checked(log, sightings))
      ensures ok ==> device.Some? && deadline - pausedTotal == old(deadline) - old(pausedTotal)
      ensures ok && hasGeneration && !c.Sleep? ==>
        sightings != [] && sightings[|sightings| - 1] == Answered(device.value, |log|)
      ensures ok <==> faults == old(faults)
      ensures !ok && errors == old(errors) ==> !portBound || now >= deadline || now >= old(now) + 20000
    {
      hide AllParsed, Checked;
      ghost var seen := sightings;
      ok := Gate();
      if !ok {
        return;
      }
      ok := Call();
      if !ok {
        return;
      }
      if now > deadline {
        Raise();
        return false;
      }
      if !c.Sleep? {
        ok := PrepareUntilStable();
        if hasGeneration {
          CheckedLater(log, seen, sightings);
        }
      }
    }

    /** Releases of the `finally` block: one attempt per registered channel, on the live handle only. */
    method Cleanup() returns (ghost releases: seq<Attempt>)
      requires Valid()
      modifies this
      ensures Valid() && log == old(log) && executed == old(executed)
      ensures old(device).None? ==> releases == [] && disposed == old(disposed)
      ensures old(device).Some? ==>
        forall r :: r in releases ==> r.session == old(device.value) && r.session !in old(disposed)
      ensures old(device).Some? ==> disposed == old(disposed) + {old(device.value)}
      ensures TOUCH in old(registered) ==> exists r :: r in releases && r.report == TouchReport(false, 0, 0)
      ensures KEYBOARD in old(registered) ==> exists r :: r in releases && r.report == KEY_UP
    {
      releases := [];
      if device.Some? {
        var steps := [TouchReport(false, 0, 0), KEY_UP, Report(SYSTEM, [0])];
        for i := 0 to |steps|
          invariant device == old(device) && registered == old(registered) && log == old(log)
          invariant executed == old(executed) && disposed == old(disposed) && nextSession == old(nextSession)
          invariant forall r :: r in releases ==> r.session == device.value
          invariant forall j :: 0 <= j < i && steps[j].channel in registered ==>
            Attempt(device.value, |commands|, steps[j]) in releases
        {
          if steps[i].channel in registered {
            releases := releases + [Attempt(device.value, |commands|, steps[i])];
            var ignored := Call();
          }
        }
        assert TOUCH in registered ==> Attempt(device.value, |commands|, steps[0]) in releases;
        assert KEYBOARD in registered ==> Attempt(device.value, |commands|, steps[1]) in releases;
        disposed := disposed + {device.value};
        device, registered := None, {};
      }
    }
  }

  // ---- What an exact log means ----

  /** The `i`-th attempt is the `i`-th report of the program: nothing is skipped, reordered or sent again. */
  lemma {:induction false} ProgramPrefix(commands: seq<Command>, j: nat, k: nat)
    requires AllParsed(commands) && j <= k <= |commands|
    ensures Program(commands, j) <= Program(commands, k)
    decreases k - j
  {
    hide Reports, Parsed;
    if j < k {
      ProgramPrefix(commands, j, k - 1);
    }
  }

  lemma NothingIsReplayed(log: seq<Attempt>, commands: seq<Command>, k: nat, sent: nat)
    requires Exact(log, commands, k, sent)
    ensures Content(log) <= Program(commands, |commands|)
  {
    hide Reports, Parsed, Content, Tagged;
    if k < |commands| {
      ProgramPrefix(commands, k + 1, |commands|);
      var reports := Reports(commands[k]);
      TaggedPrefix(k, reports, sent);
      PrefixOfSum(Program(commands, k), Tagged(k, reports[..sent]), Tagged(k, reports));
    }
  }

  lemma TaggedPrefix(command: nat, reports: seq<Report>, sent: nat)
    requires sent <= |reports|
    ensures Tagged(command, reports[..sent]) <= Tagged(command, reports)
  {}

  lemma PrefixOfSum<T>(a: seq<T>, b: seq<T>, c: seq<T>)
    requires b <= c
    ensures a + b <= a + c
  {}

  function ReportsOf(content: seq<(nat, Report)>): seq<Report> {
    seq(|content|, i requires 0 <= i < |content| => content[i].1)
  }

  /** At every completed command boundary neither a touch nor a key is held down. */
  lemma {:induction false} BoundaryIsReleased(commands: seq<Command>, k: nat)
    requires AllParsed(commands) && k <= |commands|
    ensures HeldAfter(RELEASED, ReportsOf(Program(commands, k))) == RELEASED
  {
    hide Reports, Parsed;
    if k > 0 {
      BoundaryIsReleased(commands, k - 1);
      var before, last := Program(commands, k - 1), Reports(commands[k - 1]);
      assert ReportsOf(Program(commands, k)) == ReportsOf(before) + last;
      HeldAfterConcat(RELEASED, ReportsOf(before), last);
      CompletedCommandReleases(commands[k - 1]);
    }
  }
}
