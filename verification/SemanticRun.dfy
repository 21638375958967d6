/**
 Running a certified plan step by step (worker_agent/aoa_semantics.py). The
 environment chooses every observation, every failure and how time passes.
 Times are milliseconds.
 */
module SemanticRun {
  import opened Wrappers
  import opened Observation

  datatype Step = Step(isSleep: bool, sleepMs: nat, timeoutMs: nat,
                       before: Option<Condition>, after: Option<Condition>, skipIf: Option<Condition>)

  /** What template validation guarantees: an input step names its page before, and has a postcondition. */
  predicate Validated(step: Step) {
    !step.isSleep ==> step.before.Some? && HasPage(step.before.value) && step.after.Some?
  }

  datatype Phase = SkipIf | Before | After

  /** `Bound`: right before an input the device was found to be the one of the plan. */
  datatype Event =
    | Looked(step: nat, phase: Phase, term: Term)
    | Bound(step: nat)
    | Sent(step: nat)
    | Completed(step: nat)
    | Skipped(step: nat)

  function ConditionOf(step: Step, phase: Phase): Option<Condition> {
    match phase
    case SkipIf => step.skipIf
    case Before => step.before
    case After => step.after
  }

  // ---- Safety of a log ----

  /** At position `q` the condition of that phase of step `i` was evaluated and held. */
  ghost predicate HeldAt(steps: seq<Step>, past: seq<Event>, i: nat, phase: Phase, q: int) {
    && 0 <= q < |past| && i < |steps|
    && past[q].Looked? && past[q].step == i && past[q].phase == phase
    && ConditionOf(steps[i], phase) == Some(Shape(past[q].term))
    && Verdict(past[q].term) == Some(true)
  }

  ghost predicate HeldBefore(steps: seq<Step>, past: seq<Event>, i: nat, phase: Phase) {
    exists q :: HeldAt(steps, past, i, phase, q)
  }

  /** At position `q` the postcondition of step `j` held, after the input of the step if it has one. */
  ghost predicate ResultAt(steps: seq<Step>, past: seq<Event>, j: nat, q: int) {
    HeldAt(steps, past, j, After, q) && (steps[j].isSleep || Sent(j) in past[..q])
  }

  /** Step `j` was completed: its input was sent, and then its postcondition seen to hold. */
  ghost predicate Done(steps: seq<Step>, past: seq<Event>, j: nat) {
    && j < |steps| && Completed(j) in past
    && (!steps[j].isSleep ==> Sent(j) in past)
    && (steps[j].after.Some? ==> exists q :: ResultAt(steps, past, j, q))
  }

  /** Step `j` was completed, or skipped because its skip condition held. */
  ghost predicate Settled(steps: seq<Step>, past: seq<Event>, j: nat) {
    && j < |steps|
    && (Done(steps, past, j) || (Skipped(j) in past && HeldBefore(steps, past, j, SkipIf)))
  }

  /** From position `from` on, up to `to`, there are only evaluations of one phase in which it did not hold. */
  ghost predicate NoneHeld(log: seq<Event>, from: nat, to: int, phase: Phase) {
    to <= |log| && forall k :: from <= k < to ==>
      log[k].Looked? && log[k].phase == phase && Verdict(log[k].term) != Some(true)
  }

  /** From position `from` on all evaluations are of this phase. */
  ghost predicate OfPhase(log: seq<Event>, from: nat, phase: Phase) {
    forall k :: from <= k < |log| && log[k].Looked? ==> log[k].phase == phase
  }

  /** From position `from` on the skip condition was evaluated and held. */
  ghost predicate SkipHeld(log: seq<Event>, from: nat) {
    exists k :: from <= k < |log| && log[k].Looked? && log[k].phase == SkipIf && Verdict(log[k].term) == Some(true)
  }

  /** The last evaluation of the precondition held, and no input was sent since. */
  ghost predicate PageSeenAt(steps: seq<Step>, past: seq<Event>, i: nat, q: int) {
    HeldAt(steps, past, i, Before, q) && forall k :: q < k < |past| ==> !past[k].Sent?
  }

  /** What must lie behind an input of step `i`. */
  ghost predicate Justified(steps: seq<Step>, past: seq<Event>, i: nat) {
    && i < |steps| && !steps[i].isSleep
    && (forall e :: e in past ==> e.step <= i)
    && (exists q :: PageSeenAt(steps, past, i, q))
    && past != [] && past[|past| - 1] == Bound(i)
    && (forall j :: 0 <= j < i ==> Settled(steps, past, j))
    && Sent(i) !in past && Skipped(i) !in past
  }

  /** Every input in the log was justified when it was sent, and no step is both sent and skipped. */
  ghost predicate Safe(steps: seq<Step>, log: seq<Event>) {
    && (forall p :: 0 <= p < |log| && log[p].Sent? ==> Justified(steps, log[..p], log[p].step))
    && (forall i :: Sent(i) in log ==> Skipped(i) !in log)
  }

  /** The log between two steps. */
  ghost predicate Ready(steps: seq<Step>, log: seq<Event>, i: nat) {
    && Safe(steps, log)
    && (forall j :: 0 <= j < i ==> Settled(steps, log, j))
    && (forall e :: e in log ==> e.step < i)
  }

  lemma SettledGrows(steps: seq<Step>, a: seq<Event>, b: seq<Event>, j: nat)
    requires Settled(steps, a, j)
    ensures Settled(steps, a + b, j)
  {
    if Done(steps, a, j) {
      if steps[j].after.Some? {
        var q :| ResultAt(steps, a, j, q);
        assert (a + b)[..q] == a[..q];
        assert ResultAt(steps, a + b, j, q);
      }
    } else {
      var q :| HeldAt(steps, a, j, SkipIf, q);
      assert HeldAt(steps, a + b, j, SkipIf, q);
    }
  }

  lemma SafeGrows(steps: seq<Step>, log: seq<Event>, e: Event)
    requires Safe(steps, log)
    requires e.Sent? ==> Justified(steps, log, e.step)
    requires e.Skipped? ==> Sent(e.step) !in log
    ensures Safe(steps, log + [e])
  {
    forall p | 0 <= p < |log + [e]| && (log + [e])[p].Sent?
      ensures Justified(steps, (log + [e])[..p], (log + [e])[p].step)
    {
      assert (log + [e])[..p] == if p < |log| then log[..p] else log;
    }
  }

  /** Evaluations alone never endanger a log. */
  lemma {:induction false} LooksAreSafe(steps: seq<Step>, log: seq<Event>, looks: seq<Event>)
    requires Safe(steps, log) && forall e :: e in looks ==> e.Looked?
    ensures Safe(steps, log + looks)
    decreases |looks|
  {
    if looks == [] {
      assert log + looks == log;
    } else {
      var front, last := looks[..|looks| - 1], looks[|looks| - 1];
      LooksAreSafe(steps, log, front);
      assert last in looks;
      SafeGrows(steps, log + front, last);
      assert log + looks == log + front + [last];
    }
  }

  // ---- The main statement about inputs ----

  /**
   Before each input some positive page element of its step's precondition
   really was observed, no other input was sent since, and the device was
   verified last.
   */
  lemma InputsAreGuarded(steps: seq<Step>, log: seq<Event>, p: nat)
    requires Safe(steps, log) && p < |log| && log[p].Sent?
    requires forall s :: s in steps ==> Validated(s)
    ensures exists q :: (0 <= q < p && log[q].Looked? && log[q].step == log[p].step && log[q].phase == Before
                         && PageHeld(log[q].term) && forall k :: q < k < p ==> !log[k].Sent?)
    ensures p > 0 && log[p - 1] == Bound(log[p].step)
  {
    var i := log[p].step;
    assert Justified(steps, log[..p], i);
    assert steps[i] in steps;
    var q :| PageSeenAt(steps, log[..p], i, q);
    TrueVerdictHoldsPage(log[..p][q].term);
    assert log[q] == log[..p][q];
    assert forall k :: q < k < p ==> log[..p][k] == log[k];
  }

  /** The inputs follow the order of the steps, and no step is sent twice. */
  lemma InputsAreDistinct(steps: seq<Step>, log: seq<Event>, p: nat, r: nat)
    requires Safe(steps, log) && p < r < |log| && log[p].Sent? && log[r].Sent?
    ensures log[p].step < log[r].step
  {
    assert Justified(steps, log[..r], log[r].step);
    assert log[..r][p] == log[p];
    assert log[p] in log[..r];
    assert log[p] == Sent(log[p].step);
  }

  /** Before each input every earlier step had been completed with its postcondition observed, or skipped. */
  lemma InputsAreOrdered(steps: seq<Step>, log: seq<Event>, p: nat, j: nat)
    requires Safe(steps, log) && p < |log| && log[p].Sent? && j < log[p].step
    ensures Settled(steps, log[..p], j)
  {
    assert Justified(steps, log[..p], log[p].step);
  }

  // ---- The runner ----

  class Runner {
    const steps: seq<Step>
    var now: int
    var deadline: int
    var completed: nat
    var skipped: nat
    var verified: nat
    ghost var log: seq<Event>
    /** How often something raised, and how often it was the environment. */
    ghost var faults: nat
    ghost var errors: nat
    /** The pauses added to the deadline. */
    ghost var paused: nat

    constructor (steps: seq<Step>, now: int, deadline: int)
      requires forall s :: s in steps ==> Validated(s)
      ensures this.steps == steps && log == [] && completed == skipped == verified == 0
    {
      this.steps, this.now, this.deadline := steps, now, deadline;
      completed, skipped, verified := 0, 0, 0;
      log, faults, errors, paused := [], 0, 0, 0;
    }

    /** The time without pauses, and the end of the time budget on that clock. */
    ghost function Clock(): int
      reads this
    {
      now - paused
    }

    ghost function Budget(): int
      reads this
    {
      deadline - paused
    }

    /** Why a step fails that nothing in the environment made fail: its budget or its waiting time is over. */
    ghost predicate TimeIsUp(begin: int, timeout: int)
      reads this
    {
      Clock() >= Budget() || Clock() >= begin + timeout
    }

    method Pass(atLeast: nat)
      modifies this`now
      ensures now >= old(now) + atLeast
    {
      var extra: nat :| extra >= 0;
      now := now + atLeast + extra;
    }

    /** A call that may raise. */
    method Call() returns (ok: bool)
      modifies this`now, this`faults, this`errors
      ensures now >= old(now)
      ensures faults == if ok then old(faults) else old(faults) + 1
      ensures errors == if ok then old(errors) else old(errors) + 1
    {
      Pass(0);
      ok := *;
      if !ok {
        faults, errors := faults + 1, errors + 1;
      }
    }

    ghost method Raise()
      modifies this`faults
      ensures faults == old(faults) + 1
    {
      faults := faults + 1;
    }

    /** `tick`: the binding and the time budget. */
    method Tick() returns (ok: bool)
      modifies this`now, this`faults, this`errors
      ensures now >= old(now)
      ensures faults == if ok then old(faults) else old(faults) + 1
      ensures ok ==> now < deadline
      ensures !ok && errors == old(errors) ==> now >= deadline
      ensures errors >= old(errors) && (ok ==> errors == old(errors))
    {
      ok := Call();
      if ok && now >= deadline {
        Raise();
        ok := false;
      }
    }

    /** `gate`: two ticks around a pause that is added to the deadline. */
    method Gate() returns (ok: bool)
      modifies this`now, this`deadline, this`faults, this`errors, this`paused
      ensures Clock() >= old(Clock()) && Budget() == old(Budget())
      ensures errors >= old(errors) && (ok ==> errors == old(errors))
      ensures now - old(now) >= paused - old(paused) >= 0
      ensures faults == if ok then old(faults) else old(faults) + 1
      ensures ok ==> now < deadline
      ensures !ok && errors == old(errors) ==> Clock() >= Budget()
    {
      ok := Tick();
      if !ok {
        return;
      }
      var pause: nat :| pause >= 0;
      Pass(pause);
      ok := Call();
      if !ok {
        return;
      }
      deadline, paused := deadline + pause, paused + pause;
      ok := Tick();
    }

    /** The environment decides what each atom of a condition shows. */
    method Observe(c: Condition) returns (term: Term)
      ensures Shape(term) == c
      decreases c
    {
      match c
      case Atomic(a) =>
        var outcome: Option<bool> := *;
        term := Leaf(a, outcome);
      case All(terms) =>
        var children := ObserveAll(terms);
        term := AllOf(children);
        assert Shape(term).terms == terms;
      case Any(terms) =>
        var children := ObserveAll(terms);
        term := AnyOf(children);
        assert Shape(term).terms == terms;
    }

    method ObserveAll(terms: seq<Condition>) returns (children: seq<Term>)
      ensures |children| == |terms| && forall i :: 0 <= i < |terms| ==> Shape(children[i]) == terms[i]
      decreases terms
    {
      children := [];
      for i := 0 to |terms|
        invariant |children| == i && forall j :: 0 <= j < i ==> Shape(children[j]) == terms[j]
      {
        var child := Observe(terms[i]);
        children := children + [child];
      }
    }

    /** `observer.evaluate`: raises, is unavailable (None), or gives a verdict; the log keeps what was seen. */
    method Look(i: nat, phase: Phase, c: Condition) returns (ok: bool, verdict: Option<bool>)
      requires i < |steps| && ConditionOf(steps[i], phase) == Some(c)
      modifies this`now, this`faults, this`errors, this`log
      ensures now >= old(now)
      ensures faults == if ok then old(faults) else old(faults) + 1
      ensures errors == if ok then old(errors) else old(errors) + 1
      ensures OnlyLooks(old(log), log, i) && |log| <= |old(log)| + 1 && OfPhase(log, |old(log)|, phase)
      ensures ok ==> |log| == |old(log)| + 1 && log[|old(log)|].phase == phase
      ensures ok ==> verdict == Verdict(log[|old(log)|].term)
      ensures ok && verdict == Some(true) ==> Ends(steps, log, i, phase)
    {
      verdict := None;
      ok := Call();
      if !ok {
        return;
      }
      var term := Observe(c);
      verdict := Evaluate(term);
      log := log + [Looked(i, phase, term)];
      ok := Call();
    }

    /**
     `wait_condition`: evaluates until the condition holds or its time is over.
     Only the last evaluation can have held, and if the environment does not
     fail, the wait is given up only when its time or the whole budget is over.
     */
    method WaitCondition(i: nat, phase: Phase, timeout: int) returns (ok: bool)
      requires i < |steps|
      modifies this`now, this`deadline, this`faults, this`errors, this`paused, this`log
      ensures Clock() >= old(Clock()) && Budget() == old(Budget())
      ensures errors >= old(errors) && (ok ==> errors == old(errors))
      ensures NoneHeld(log, |old(log)|, |log| - 1, phase)
      ensures !ok && errors == old(errors) ==>
        NoneHeld(log, |old(log)|, |log|, phase) && TimeIsUp(old(Clock()), timeout)
      ensures OfPhase(log, |old(log)|, phase)
      ensures OnlyLooks(old(log), log, i)
      ensures ok && ConditionOf(steps[i], phase).Some? ==> Ends(steps, log, i, phase)
      ensures ConditionOf(steps[i], phase).None? ==> ok && log == old(log)
      ensures faults == if ok then old(faults) else old(faults) + 1
    {
      hide Ends, OnlyLooks;
      var condition := ConditionOf(steps[i], phase);
      if condition.None? {
        NoLooksYet(log, i);
        return true;
      }
      var until := now + timeout;
      NoLooksYet(log, i);
      while true
        invariant OnlyLooks(old(log), log, i) && faults == old(faults) && errors == old(errors)
        invariant NoneHeld(log, |old(log)|, |log|, phase) && OfPhase(log, |old(log)|, phase)
        invariant Clock() >= old(Clock()) && Budget() == old(Budget())
        invariant until - paused >= old(Clock()) + timeout
        decreases until - now
      {
        var beforeGate := now;
        ok := Gate();
        if !ok {
          return;
        }
        until := until + (now - beforeGate);
        var verdict: Option<bool>;
        ghost var earlier := log;
        ok, verdict := Look(i, phase, condition.value);
        LooksChain(old(log), earlier, log, i);
        if !ok {
          return;
        }
        if verdict == Some(true) {
          return true;
        }
        ok := Tick();
        if !ok {
          return;
        }
        if now >= until {
          Raise();
          return false;
        }
        Pass(if until - now < 250 then until - now else 250);
      }
    }

    /** The skip condition is evaluated once, without waiting. */
    method TrySkip(i: nat) returns (ok: bool, skip: bool)
      requires i < |steps|
      modifies this`now, this`faults, this`errors, this`log
      ensures now >= old(now)
      ensures OnlyLooks(old(log), log, i)
      ensures ok && steps[i].skipIf.Some? ==> |log| == |old(log)| + 1 && log[|old(log)|].phase == SkipIf
      ensures ok ==> (skip <==> SkipHeld(log, |old(log)|))
      ensures ok && skip ==> Ends(steps, log, i, SkipIf)
      ensures faults == if ok then old(faults) else old(faults) + 1
      ensures errors == if ok then old(errors) else old(errors) + 1
    {
      if steps[i].skipIf.None? {
        return true, false;
      }
      var verdict: Option<bool>;
      ok, verdict := Look(i, SkipIf, steps[i].skipIf.value);
      skip := verdict == Some(true);
    }

    /** The body of a step: a sleep, or the preparations of its input and then the input. */
    method Act(i: nat, ghost begin: seq<Event>) returns (ok: bool)
      requires i < |steps| && Validated(steps[i]) && Ready(steps, begin, i)
      requires OnlyLooks(begin, log, i) && Safe(steps, log)
      requires steps[i].before.Some? ==> Ends(steps, log, i, Before)
      modifies this`now, this`deadline, this`faults, this`errors, this`paused, this`log
      ensures Clock() >= old(Clock()) && Budget() == old(Budget())
      ensures errors >= old(errors) && (ok ==> errors == old(errors))
      ensures !ok && errors == old(errors) ==> Clock() >= Budget()
      ensures ok && steps[i].isSleep ==> Clock() >= old(Clock()) + steps[i].sleepMs
      ensures Extends(begin, log, i) && Safe(steps, log)
      ensures log == old(log) || log == old(log) + [Bound(i)] || log == old(log) + [Bound(i), Sent(i)]
      ensures ok ==> log == if steps[i].isSleep then old(log) else old(log) + [Bound(i), Sent(i)]
      ensures faults == if ok then old(faults) else old(faults) + 1
    {
      if steps[i].isSleep {
        ok := SleepFor(steps[i].sleepMs);
      } else {
        SentIsSafe(steps, begin, log, i);
        ok := PrepareInput(i);
        if !ok {
          return;
        }
        log := log + [Sent(i)];
        assert log == old(log) + [Bound(i), Sent(i)];
        ok := Call();
      }
    }

    /**
     One turn of the step loop. The skip condition is evaluated first, and the
     step is skipped if and only if it held; a sleep takes its time, and a
     step that nothing made fail fails only because its time is up.
     */
    method RunStep(i: nat) returns (ok: bool)
      requires i < |steps| && Validated(steps[i]) && Ready(steps, log, i)
      modifies this
      ensures Safe(steps, log) && Extends(old(log), log, i)
      ensures ok ==> Ready(steps, log, i + 1) && completed == old(completed) + 1
      ensures ok ==> log != [] && log[|log| - 1] == if skipped == old(skipped) then Completed(i) else Skipped(i)
      ensures ok ==> skipped == old(skipped) || skipped == old(skipped) + 1
      ensures verified == old(verified) + if ok && skipped == old(skipped) && steps[i].after.Some? then 1 else 0
      ensures !ok ==> completed == old(completed) && skipped == old(skipped)
      ensures ok <==> faults == old(faults)
      ensures ok && steps[i].skipIf.Some? ==>
        |log| > |old(log)| && log[|old(log)|].Looked? && log[|old(log)|].phase == SkipIf
      ensures ok ==> (skipped == old(skipped) + 1 <==> SkipHeld(log, |old(log)|))
      ensures ok && skipped == old(skipped) && steps[i].isSleep ==> Clock() >= old(Clock()) + steps[i].sleepMs
      ensures !ok && errors == old(errors) ==> TimeIsUp(old(Clock()), steps[i].timeoutMs)
      ensures Clock() >= old(Clock()) && Budget() == old(Budget())
      ensures errors >= old(errors) && (ok ==> errors == old(errors))
    {
      hide Safe, Ready, OnlyLooks, Extends, Ends, Validated, SkipHeld;
      ghost var begin := log;
      NothingSeenYet(steps, begin, i);
      ok := Gate();
      if !ok {
        return;
      }
      var skip: bool;
      ok, skip := TrySkip(i);
      LooksKeepSafe(steps, begin, log, i);
      if !ok {
        return;
      }
      if skip {
        skipped := skipped + 1;
        completed := completed + 1;
        SkipIsReady(steps, begin, log, i);
        SkipHeldIgnores(log, |begin|, Skipped(i));
        log := log + [Skipped(i)];
        return;
      }
      ghost var looked := log;
      ok := Perform(i, begin);
      if !ok {
        return;
      }
      SkipHeldChain(begin, looked, log);
      SkipHeldIgnores(log, |begin|, Completed(i));
      CompletedIsReady(steps, begin, log, i);
      log := log + [Completed(i)];
      completed := completed + 1;
      verified := if steps[i].after.Some? then verified + 1 else verified;
    }

    /** The part of a step between its precondition and its postcondition. */
    method Perform(i: nat, ghost begin: seq<Event>) returns (ok: bool)
      requires i < |steps| && Validated(steps[i]) && Ready(steps, begin, i)
      requires OnlyLooks(begin, log, i) && Safe(steps, log)
      modifies this`now, this`deadline, this`faults, this`errors, this`paused, this`log
      ensures Clock() >= old(Clock()) && Budget() == old(Budget())
      ensures errors >= old(errors) && (ok ==> errors == old(errors))
      ensures !ok && errors == old(errors) ==> TimeIsUp(old(Clock()), steps[i].timeoutMs)
      ensures ok && steps[i].isSleep ==> Clock() >= old(Clock()) + steps[i].sleepMs
      ensures ok && !steps[i].isSleep ==> Sent(i) in log
      ensures old(log) <= log && !SkipHeld(log, |old(log)|)
      ensures Extends(begin, log, i) && Safe(steps, log)
      ensures ok && steps[i].after.Some? ==> Ends(steps, log, i, After)
      ensures faults == if ok then old(faults) else old(faults) + 1
    {
      hide Safe, Ready, OnlyLooks, Extends, Ends, Validated, SkipHeld, OfPhase, NoneHeld;
      ghost var before := log;
      ok := Approach(i, begin);
      LooksKeepSafe(steps, before, log, i);
      LooksExtend(begin, log, i);
      OtherPhase(before, log, Before);
      if !ok {
        return;
      }
      ghost var reached := log;
      ok := Act(i, begin);
      ActNeverSkips(reached, log, i);
      SkipHeldChain(before, reached, log);
      if !ok {
        return;
      }
      ghost var mid := log;
      ok := WaitCondition(i, After, steps[i].timeoutMs);
      LooksPrefix(mid, log, i);
      LooksKeepSafe(steps, mid, log, i);
      ExtendsChain(begin, mid, log, i);
      OtherPhase(mid, log, After);
      SkipHeldChain(before, mid, log);
    }

    /** Waits for the precondition; the gate before the action changes nothing. */
    method Approach(i: nat, ghost begin: seq<Event>) returns (ok: bool)
      requires i < |steps| && OnlyLooks(begin, log, i)
      modifies this`now, this`deadline, this`faults, this`errors, this`paused, this`log
      ensures Clock() >= old(Clock()) && Budget() == old(Budget())
      ensures errors >= old(errors) && (ok ==> errors == old(errors))
      ensures !ok && errors == old(errors) ==> TimeIsUp(old(Clock()), steps[i].timeoutMs)
      ensures OnlyLooks(begin, log, i) && OnlyLooks(old(log), log, i) && OfPhase(log, |old(log)|, Before)
      ensures ok && steps[i].before.Some? ==> Ends(steps, log, i, Before)
      ensures faults == if ok then old(faults) else old(faults) + 1
    {
      hide OnlyLooks, Ends, NoneHeld;
      ghost var before := log;
      ok := WaitCondition(i, Before, steps[i].timeoutMs);
      LooksChain(begin, before, log, i);
      if !ok {
        return;
      }
      ok := Gate();
    }

    /** `verify_context`, a gate and `resolve_live_command`: nothing is sent yet. */
    method PrepareInput(i: nat) returns (ok: bool)
      modifies this`now, this`deadline, this`faults, this`errors, this`paused, this`log
      ensures log == old(log) || log == old(log) + [Bound(i)]
      ensures ok ==> log == old(log) + [Bound(i)]
      ensures Clock() >= old(Clock()) && Budget() == old(Budget())
      ensures errors >= old(errors) && (ok ==> errors == old(errors))
      ensures !ok && errors == old(errors) ==> Clock() >= Budget()
      ensures faults == if ok then old(faults) else old(faults) + 1
    {
      ok := Call();
      if !ok {
        return;
      }
      log := log + [Bound(i)];
      ok := Gate();
      if !ok {
        return;
      }
      ok := Call();
    }

    method SleepFor(ms: nat) returns (ok: bool)
      modifies this`now, this`deadline, this`faults, this`errors, this`paused
      ensures Clock() >= old(Clock()) && Budget() == old(Budget())
      ensures errors >= old(errors) && (ok ==> errors == old(errors))
      ensures !ok && errors == old(errors) ==> Clock() >= Budget()
      ensures ok ==> Clock() >= old(Clock()) + ms
      ensures faults == if ok then old(faults) else old(faults) + 1
    {
      var until := now + ms;
      while now < until
        invariant faults == old(faults) && errors == old(errors)
        invariant Clock() >= old(Clock()) && Budget() == old(Budget())
        invariant until - paused >= old(Clock()) + ms
        decreases until - now
      {
        var beforeGate := now;
        ok := Gate();
        if !ok {
          return;
        }
        until := until + (now - beforeGate);
        Pass(if until - now < 200 then until - now else 200);
      }
      ok := true;
    }

    /**
     The whole plan. Whatever happens, every input in the log was guarded by
     its page, sent once and in order; success means that every step was
     completed or skipped.
     */
    method Run() returns (success: bool)
      requires forall s :: s in steps ==> Validated(s)
      requires log == [] && completed == skipped == 0
      modifies this
      ensures Safe(steps, log)
      ensures success ==> completed == |steps| && forall j :: 0 <= j < |steps| ==> Settled(steps, log, j)
      ensures !success ==> completed < |steps| && forall j :: 0 <= j < completed ==> Settled(steps, log, j)
      ensures success <==> faults == old(faults)
    {
      for i := 0 to |steps|
        invariant Ready(steps, log, i) && completed == i && faults == old(faults)
      {
        ghost var before := log;
        var ok := RunStep(i);
        if !ok {
          forall j | 0 <= j < i
            ensures Settled(steps, log, j)
          {
            SettledGrows(steps, before, log[|before|..], j);
            assert before + log[|before|..] == log;
          }
          return false;
        }
      }
      success := true;
    }
  }

  // ---- Steps of the log ----

  /** `b` extends `a` by evaluations of step `i` only. */
  ghost predicate OnlyLooks(a: seq<Event>, b: seq<Event>, i: nat) {
    a <= b && forall k :: |a| <= k < |b| ==> b[k].Looked? && b[k].step == i
  }

  /** `b` extends `a` by events of step `i` only. */
  ghost predicate Extends(a: seq<Event>, b: seq<Event>, i: nat) {
    a <= b && forall k :: |a| <= k < |b| ==> b[k].step == i
  }

  /** The last event is an evaluation in which the condition held. */
  ghost predicate Ends(steps: seq<Step>, log: seq<Event>, i: nat, phase: Phase) {
    HeldAt(steps, log, i, phase, |log| - 1)
  }

  lemma LooksKeepSafe(steps: seq<Step>, a: seq<Event>, b: seq<Event>, i: nat)
    requires Safe(steps, a) && OnlyLooks(a, b, i)
    ensures Safe(steps, b) && Extends(a, b, i) && a <= b
  {
    LooksAreSafe(steps, a, b[|a|..]);
    assert a + b[|a|..] == b;
  }

  lemma NothingSeenYet(steps: seq<Step>, a: seq<Event>, i: nat)
    requires Ready(steps, a, i)
    ensures Safe(steps, a) && OnlyLooks(a, a, i) && Extends(a, a, i)
  {}

  lemma NoLooksYet(a: seq<Event>, i: nat)
    ensures OnlyLooks(a, a, i)
  {}

  lemma LooksPrefix(a: seq<Event>, b: seq<Event>, i: nat)
    requires OnlyLooks(a, b, i)
    ensures a <= b && forall e :: e in a ==> e in b
  {
    forall e | e in a
      ensures e in b
    {
      var k :| 0 <= k < |a| && a[k] == e;
      assert b[k] == e;
    }
  }

  /** Only evaluations count. */
  lemma SkipHeldIgnores(log: seq<Event>, from: nat, e: Event)
    requires !e.Looked? && from <= |log|
    ensures SkipHeld(log + [e], from) <==> SkipHeld(log, from)
  {
    if SkipHeld(log, from) {
      var k :| from <= k < |log| && log[k].Looked? && log[k].phase == SkipIf && Verdict(log[k].term) == Some(true);
      assert (log + [e])[k] == log[k];
    }
  }

  lemma OtherPhase(a: seq<Event>, b: seq<Event>, phase: Phase)
    requires a <= b && OfPhase(b, |a|, phase) && !phase.SkipIf?
    ensures !SkipHeld(b, |a|)
  {}

  lemma ActNeverSkips(a: seq<Event>, b: seq<Event>, i: nat)
    requires b == a || b == a + [Bound(i)] || b == a + [Bound(i), Sent(i)]
    ensures a <= b && !SkipHeld(b, |a|)
  {}

  lemma SkipHeldChain(a: seq<Event>, b: seq<Event>, c: seq<Event>)
    requires a <= b <= c && !SkipHeld(b, |a|) && !SkipHeld(c, |b|)
    ensures !SkipHeld(c, |a|)
  {
    assert forall k :: 0 <= k < |b| ==> b[k] == c[k];
  }

  lemma LooksExtend(a: seq<Event>, b: seq<Event>, i: nat)
    requires OnlyLooks(a, b, i)
    ensures Extends(a, b, i)
  {}

  lemma LooksChain(a: seq<Event>, b: seq<Event>, c: seq<Event>, i: nat)
    requires OnlyLooks(a, b, i) && OnlyLooks(b, c, i)
    ensures OnlyLooks(a, c, i) && a <= b <= c
  {}

  lemma ExtendsChain(a: seq<Event>, b: seq<Event>, c: seq<Event>, i: nat)
    requires Extends(a, b, i) && Extends(b, c, i)
    ensures Extends(a, c, i)
  {}

  lemma ReadyGrows(steps: seq<Step>, a: seq<Event>, b: seq<Event>, i: nat)
    requires Ready(steps, a, i) && Extends(a, b, i)
    ensures forall j :: 0 <= j < i ==> Settled(steps, b, j)
    ensures forall e :: e in b ==> e.step <= i
  {
    assert a + b[|a|..] == b;
    forall j | 0 <= j < i
      ensures Settled(steps, b, j)
    {
      SettledGrows(steps, a, b[|a|..], j);
    }
    forall e | e in b
      ensures e.step <= i
    {
      var k :| 0 <= k < |b| && b[k] == e;
      if k < |a| {
        assert a[k] == e && e in a;
      }
    }
  }

  lemma NoEventYet(steps: seq<Step>, a: seq<Event>, b: seq<Event>, i: nat)
    requires Ready(steps, a, i) && OnlyLooks(a, b, i)
    ensures Sent(i) !in b && Skipped(i) !in b
  {
    forall k | 0 <= k < |b|
      ensures b[k] != Sent(i) && b[k] != Skipped(i)
    {
      if k < |a| {
        assert a[k] in a && b[k] == a[k];
      }
    }
  }

  lemma SkipIsReady(steps: seq<Step>, a: seq<Event>, b: seq<Event>, i: nat)
    requires Ready(steps, a, i) && OnlyLooks(a, b, i) && Safe(steps, b) && i < |steps| && Ends(steps, b, i, SkipIf)
    ensures Ready(steps, b + [Skipped(i)], i + 1) && Safe(steps, b + [Skipped(i)])
    ensures Extends(a, b + [Skipped(i)], i)
  {
    var after := b + [Skipped(i)];
    NoEventYet(steps, a, b, i);
    SafeGrows(steps, b, Skipped(i));
    ReadyGrows(steps, a, after, i);
    assert HeldAt(steps, after, i, SkipIf, |b| - 1);
    assert after[|b|] == Skipped(i);
  }

  lemma SentIsSafe(steps: seq<Step>, a: seq<Event>, b: seq<Event>, i: nat)
    requires Ready(steps, a, i) && Safe(steps, b) && i < |steps| && Ends(steps, b, i, Before) && OnlyLooks(a, b, i)
    requires !steps[i].isSleep
    ensures Safe(steps, b + [Bound(i)]) && Safe(steps, b + [Bound(i)] + [Sent(i)])
  {
    var c := b + [Bound(i)];
    NoEventYet(steps, a, b, i);
    ReadyGrows(steps, a, c, i);
    SafeGrows(steps, b, Bound(i));
    assert PageSeenAt(steps, c, i, |b| - 1);
    SafeGrows(steps, c, Sent(i));
  }

  lemma CompletedIsReady(steps: seq<Step>, a: seq<Event>, b: seq<Event>, i: nat)
    requires Ready(steps, a, i) && Safe(steps, b) && i < |steps| && Extends(a, b, i)
    requires steps[i].after.Some? ==> Ends(steps, b, i, After)
    requires !steps[i].isSleep ==> Sent(i) in b
    ensures Ready(steps, b + [Completed(i)], i + 1) && Safe(steps, b + [Completed(i)])
    ensures Extends(a, b + [Completed(i)], i)
  {
    var after := b + [Completed(i)];
    SafeGrows(steps, b, Completed(i));
    ReadyGrows(steps, a, after, i);
    if steps[i].after.Some? {
      assert after[..|b| - 1] + [b[|b| - 1]] == b;
      assert ResultAt(steps, after, i, |b| - 1);
    }
    assert after[|b|] == Completed(i);
  }
}
