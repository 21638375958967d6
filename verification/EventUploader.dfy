/**
 The ordered event uploader (worker_agent/command_events.py): one producer, one
 uploader thread and a stop signal. Events are numbered by their submission.
 Every shared operation is one atomic step, and the threads interleave freely.
 */
module EventUploader {
  import opened Wrappers

  const MAX_QUEUE_EVENTS: nat := 20000
  const MAX_BACKOFF_SECONDS: nat := 30

  /**
   `hand` is the event of a submission that is under way; `batch` holds the
   events the uploader has taken and not yet settled; `lost` those dropped;
   `arrivals` is everything that reached the controller, repetitions included.
   */
  datatype State = State(
    submitted: nat, hand: Option<nat>, queue: seq<nat>, batch: seq<nat>,
    acked: seq<nat>, lost: seq<nat>, arrivals: seq<nat>, stopped: bool)

  const INITIAL := State(0, None, [], [], [], [], [], false)

  // ---- Atomic steps ----

  /** A failed upload may still have delivered the first `reached` events of its batch. */
  datatype Action =
    | Submit | Refuse | Put | Evict
    | Take | Ack | Fail(reached: nat) | GiveUp(reached: nat)
    | Stop

  predicate Enabled(s: State, a: Action) {
    match a
    case Submit => s.hand.None?
    case Refuse => s.hand.Some? && s.stopped
    case Put => s.hand.Some? && |s.queue| < 20000
    case Evict => s.hand.Some? && s.queue != []
    case Take => s.queue != []
    case Ack => true
    case Fail(reached) => reached <= |s.batch|
    case GiveUp(reached) => s.stopped && reached <= |s.batch|
    case Stop => true
  }

  function Apply(s: State, a: Action): State
    requires Enabled(s, a)
  {
    match a
    case Submit => s.(hand := Some(s.submitted), submitted := s.submitted + 1)
    case Refuse => s.(hand := None, lost := s.lost + [s.hand.value])
    case Put => s.(hand := None, queue := s.queue + [s.hand.value])
    case Evict => s.(queue := s.queue[1..], lost := s.lost + [s.queue[0]])
    case Take => s.(queue := s.queue[1..], batch := s.batch + [s.queue[0]])
    case Ack => s.(batch := [], acked := s.acked + s.batch, arrivals := s.arrivals + s.batch)
    case Fail(reached) => s.(arrivals := s.arrivals + s.batch[..reached])
    case GiveUp(reached) =>
      s.(batch := [], lost := s.lost + s.batch, arrivals := s.arrivals + s.batch[..reached])
    case Stop => s.(stopped := true)
  }

  // ---- The invariant ----

  ghost predicate Increasing(s: seq<nat>) {
    forall i, j :: 0 <= i < j < |s| ==> s[i] < s[j]
  }

  ghost predicate Below(a: seq<nat>, b: seq<nat>) {
    forall x, y :: x in a && y in b ==> x < y
  }

  function Hand(s: State): seq<nat> {
    if s.hand.Some? then [s.hand.value] else []
  }

  /** What is not lost, oldest first. */
  function Kept(s: State): seq<nat> {
    s.acked + s.batch + s.queue + Hand(s)
  }

  /** What is not lost, and the next number, is strictly increasing. */
  ghost predicate Ordered(s: State) {
    Increasing(Kept(s) + [s.submitted])
  }

  function Numbers(n: nat): multiset<nat> {
    if n == 0 then multiset{} else Numbers(n - 1) + multiset{n - 1}
  }

  /** Every submitted event is lost or kept, once. */
  ghost predicate Accounted(s: State) {
    multiset(s.lost) + multiset(Kept(s)) == Numbers(s.submitted)
  }

  /** Whatever arrives after a later event has been there before. */
  ghost predicate FirstInOrder(arrivals: seq<nat>) {
    forall p, q :: 0 <= p < q < |arrivals| && arrivals[q] < arrivals[p] ==> arrivals[q] in arrivals[..p]
  }

  /** What the uploader has not taken yet. */
  function Ahead(s: State): seq<nat> {
    s.queue + Hand(s) + [s.submitted]
  }

  ghost predicate ArrivalsFit(s: State) {
    && FirstInOrder(s.arrivals)
    && (forall e :: e in s.acked ==> e in s.arrivals)
    && Below(s.arrivals, Ahead(s))
    && BatchFits(s.arrivals, s.batch)
  }

  /** An arrival is part of the batch or older, and the batch arrives from its front. */
  ghost predicate BatchFits(arrivals: seq<nat>, batch: seq<nat>) {
    && (forall e, x :: e in arrivals && x in batch ==> e in batch || e < x)
    && (forall i, j :: 0 <= i < j < |batch| && batch[j] in arrivals ==> batch[i] in arrivals)
  }

  ghost predicate Inv(s: State) {
    Ordered(s) && Accounted(s) && ArrivalsFit(s) && |s.queue| <= 20000
  }

  /** Every step takes one stretch out of what was kept, and that stretch is lost. */
  lemma KeptStep(s: State, a: Action) returns (front: seq<nat>, gone: seq<nat>, back: seq<nat>)
    requires Enabled(s, a)
    ensures front + gone + back == Kept(s) + if a.Submit? then [s.submitted] else []
    ensures Kept(Apply(s, a)) == front + back
    ensures Apply(s, a).lost == s.lost + gone
  {
    if a.Refuse? {
      front, gone, back := s.acked + s.batch + s.queue, Hand(s), [];
    } else if a.Evict? {
      front, gone, back := s.acked + s.batch, [s.queue[0]], s.queue[1..] + Hand(s);
    } else if a.GiveUp? {
      front, gone, back := s.acked, s.batch, s.queue + Hand(s);
    } else {
      NothingLost(s, a);
      front, gone, back := Kept(Apply(s, a)), [], [];
    }
  }

  lemma NothingLost(s: State, a: Action)
    requires Enabled(s, a) && !a.Refuse? && !a.Evict? && !a.GiveUp?
    ensures Kept(Apply(s, a)) == Kept(s) + if a.Submit? then [s.submitted] else []
    ensures Apply(s, a).lost == s.lost
  {
    match a
    case Put => assert s.acked + s.batch + (s.queue + Hand(s)) == s.acked + s.batch + s.queue + Hand(s);
    case Take =>
      assert s.acked + (s.batch + [s.queue[0]]) + s.queue[1..] == s.acked + s.batch + s.queue;
    case _ =>
  }

  lemma OrderKept(s: State, a: Action)
    requires Ordered(s) && Enabled(s, a)
    ensures Ordered(Apply(s, a))
  {
    var front, gone, back := KeptStep(s, a);
    hide Kept, Enabled, Increasing;
    var all, top := front + gone + back, [Apply(s, a).submitted];
    assert Increasing(all + top) by {
      if a.Submit? {
        TopGrows(Kept(s), s.submitted);
      } else {
        assert all == Kept(s);
      }
    }
    assert all + top == front + gone + (back + top);
    StretchRemoved(front, gone, back + top);
    assert front + back + top == front + (back + top);
  }

  lemma TopGrows(a: seq<nat>, n: nat)
    requires Increasing(a + [n])
    ensures Increasing(a + [n] + [n + 1])
  {
    forall i | 0 <= i <= |a|
      ensures (a + [n])[i] < n + 1
    {
      if i < |a| {
        assert (a + [n])[i] < (a + [n])[|a|];
      }
    }
  }

  lemma StretchRemoved(a: seq<nat>, gone: seq<nat>, b: seq<nat>)
    requires Increasing(a + gone + b)
    ensures Increasing(a + b)
  {
    forall i, j | 0 <= i < j < |a + b|
      ensures (a + b)[i] < (a + b)[j]
    {
      var i' := if i < |a| then i else i + |gone|;
      var j' := if j < |a| then j else j + |gone|;
      assert (a + gone + b)[i'] < (a + gone + b)[j'];
    }
  }

  lemma AccountKept(s: State, a: Action)
    requires Accounted(s) && Enabled(s, a)
    ensures Accounted(Apply(s, a))
  {
    var front, gone, back := KeptStep(s, a);
    hide Kept, Enabled;
    StretchCounted(s.lost, front, gone, back);
    if a.Submit? {
      OneMore(Kept(s), s.submitted);
      Regroup(multiset(s.lost), multiset(Kept(s)), multiset{s.submitted});
    } else {
      assert front + gone + back == Kept(s);
    }
  }

  lemma OneMore(a: seq<nat>, n: nat)
    ensures multiset(a + [n]) == multiset(a) + multiset{n}
  {}

  lemma Regroup(a: multiset<nat>, b: multiset<nat>, c: multiset<nat>)
    ensures a + (b + c) == (a + b) + c
  {}

  lemma StretchCounted(lost: seq<nat>, front: seq<nat>, gone: seq<nat>, back: seq<nat>)
    ensures multiset(lost + gone) + multiset(front + back) == multiset(lost) + multiset(front + gone + back)
  {}

  /** A batch that is delivered again from its front keeps the order of first arrivals. */
  lemma DeliveryKeepsOrder(arrivals: seq<nat>, batch: seq<nat>, reached: nat)
    requires FirstInOrder(arrivals) && BatchFits(arrivals, batch) && Increasing(batch) && reached <= |batch|
    ensures FirstInOrder(arrivals + batch[..reached]) && BatchFits(arrivals + batch[..reached], batch)
  {
    var grown := arrivals + batch[..reached];
    forall p, q | 0 <= p < q < |grown| && grown[q] < grown[p]
      ensures grown[q] in grown[..p]
    {
      if q < |arrivals| {
        assert grown[..p] == arrivals[..p];
      } else {
        var j := q - |arrivals|;
        assert grown[q] == batch[j];
        assert p < |arrivals|;
        SeenBefore(arrivals, batch, p, j);
        assert grown[..p] == arrivals[..p];
      }
    }
  }

  lemma SeenBefore(arrivals: seq<nat>, batch: seq<nat>, p: nat, j: nat)
    requires FirstInOrder(arrivals) && BatchFits(arrivals, batch) && Increasing(batch)
    requires p < |arrivals| && j < |batch| && batch[j] < arrivals[p]
    ensures batch[j] in arrivals[..p]
  {
    assert arrivals[p] in arrivals && batch[j] in batch;
    var i :| 0 <= i < |batch| && batch[i] == arrivals[p];
    assert batch[j] in arrivals;
    var r :| 0 <= r < |arrivals| && arrivals[r] == batch[j];
    if r < p {
      assert arrivals[..p][r] == batch[j];
    }
  }

  /** The batch is increasing and older than everything that follows it. */
  lemma BatchIsOlder(s: State)
    requires Ordered(s)
    ensures Increasing(s.batch) && Below(s.batch, Ahead(s))
  {
    var all := Kept(s) + [s.submitted];
    assert all == s.acked + s.batch + Ahead(s);
    forall i, j | 0 <= i < |s.batch| && 0 <= j < |Ahead(s)|
      ensures s.batch[i] < Ahead(s)[j]
    {
      assert all[|s.acked| + i] == s.batch[i] && all[|s.acked| + |s.batch| + j] == Ahead(s)[j];
    }
    forall i, j | 0 <= i < j < |s.batch|
      ensures s.batch[i] < s.batch[j]
    {
      assert all[|s.acked| + i] == s.batch[i] && all[|s.acked| + j] == s.batch[j];
    }
  }

  lemma ArrivalsKept(s: State, a: Action)
    requires Ordered(s) && ArrivalsFit(s) && Enabled(s, a)
    ensures ArrivalsFit(Apply(s, a))
  {
    BatchIsOlder(s);
    hide Ordered;
    match a
    case Take => TakeFits(s);
    case Ack => DeliveryFits(s, |s.batch|); assert s.batch[..|s.batch|] == s.batch;
    case Fail(reached) => DeliveryFits(s, reached);
    case GiveUp(reached) => DeliveryFits(s, reached);
    case Submit => SubmitFits(s);
    case Refuse => ShrinksAhead(s, a);
    case Put => ShrinksAhead(s, a);
    case Evict => ShrinksAhead(s, a);
    case Stop =>
  }

  lemma ShrinksAhead(s: State, a: Action)
    requires Enabled(s, a) && Below(s.arrivals, Ahead(s)) && (a.Refuse? || a.Put? || a.Evict?)
    ensures Below(s.arrivals, Ahead(Apply(s, a)))
  {
    forall x | x in Ahead(Apply(s, a))
      ensures x in Ahead(s)
    {
      if a.Evict? && x in s.queue[1..] {
        assert x in s.queue;
      }
    }
  }

  lemma SubmitFits(s: State)
    requires Below(s.arrivals, Ahead(s)) && s.hand.None?
    ensures Below(s.arrivals, Ahead(Apply(s, Submit)))
  {
    var s' := Apply(s, Submit);
    assert s.submitted in Ahead(s);
    forall x | x in Ahead(s')
      ensures x in Ahead(s) || x == s.submitted + 1
    {}
  }

  lemma TakeFits(s: State)
    requires ArrivalsFit(s) && s.queue != [] && Below(s.batch, Ahead(s))
    ensures ArrivalsFit(Apply(s, Take))
  {
    var s' := Apply(s, Take);
    assert Ahead(s) == [s.queue[0]] + Ahead(s');
    assert forall x :: x in Ahead(s') ==> x in Ahead(s);
    TakenFits(s.arrivals, s.batch, s.queue[0], Ahead(s));
  }

  lemma TakenFits(arrivals: seq<nat>, batch: seq<nat>, next: nat, ahead: seq<nat>)
    requires BatchFits(arrivals, batch) && Below(arrivals, ahead) && next in ahead
    ensures BatchFits(arrivals, batch + [next])
  {
    assert next !in arrivals;
  }

  lemma DeliveryFits(s: State, reached: nat)
    requires ArrivalsFit(s) && Increasing(s.batch) && Below(s.batch, Ahead(s)) && reached <= |s.batch|
    ensures ArrivalsFit(s.(arrivals := s.arrivals + s.batch[..reached]))
  {
    DeliveryKeepsOrder(s.arrivals, s.batch, reached);
    BelowConcat(s.arrivals, s.batch, reached, Ahead(s));
    hide FirstInOrder, BatchFits, Below, Increasing;
  }

  lemma BelowConcat(a: seq<nat>, b: seq<nat>, n: nat, c: seq<nat>)
    requires Below(a, c) && Below(b, c) && n <= |b|
    ensures Below(a + b[..n], c)
  {
    forall x | x in a + b[..n]
      ensures x in a || x in b
    {}
  }

  lemma StepKeeps(s: State, a: Action)
    requires Inv(s) && Enabled(s, a)
    ensures Inv(Apply(s, a))
  {
    OrderKept(s, a);
    AccountKept(s, a);
    ArrivalsKept(s, a);
    hide Ordered, Accounted, ArrivalsFit;
  }

  // ---- All interleavings ----

  ghost predicate IsRun(states: seq<State>, actions: seq<Action>) {
    && |states| == |actions| + 1 && states[0] == INITIAL
    && forall i :: 0 <= i < |actions| ==>
        Enabled(states[i], actions[i]) && states[i + 1] == Apply(states[i], actions[i])
  }

  /** The invariant holds under every interleaving of the producer, the uploader and the stop signal. */
  lemma {:induction false} RunKeeps(states: seq<State>, actions: seq<Action>)
    requires IsRun(states, actions)
    ensures Inv(states[|actions|])
    decreases |actions|
  {
    if actions != [] {
      var n := |actions| - 1;
      RunKeeps(states[..n + 1], actions[..n]);
      StepKeeps(states[n], actions[n]);
    }
  }

  /** Acknowledged, pending and queued events are an in-order subsequence of what was submitted. */
  lemma KeptInOrder(s: State)
    requires Inv(s)
    ensures Increasing(s.acked + s.batch + s.queue) && forall e :: e in Kept(s) ==> e < s.submitted
  {
    var all := Kept(s) + [s.submitted];
    assert forall i :: 0 <= i < |s.acked + s.batch + s.queue| ==> (s.acked + s.batch + s.queue)[i] == all[i];
    forall e | e in Kept(s)
      ensures e < s.submitted
    {
      var i :| 0 <= i < |Kept(s)| && Kept(s)[i] == e;
      assert all[i] < all[|Kept(s)|];
    }
  }

  lemma QueueFits(s: State)
    requires Inv(s)
    ensures |s.queue| <= 20000
  {}

  /** Nothing vanishes and nothing is counted twice. */
  lemma Conservation(s: State)
    requires Inv(s)
    ensures s.submitted == |s.acked| + |s.lost| + |s.batch| + |s.queue| + |Hand(s)|
  {
    NumbersCount(s.submitted);
    assert |multiset(s.lost) + multiset(Kept(s))| == |s.lost| + |Kept(s)|;
  }

  lemma {:induction false} NumbersCount(n: nat)
    ensures |Numbers(n)| == n
  {
    if n > 0 {
      NumbersCount(n - 1);
    }
  }

  /** When the controller first sees an event, no later event has been seen. */
  lemma FirstArrivalIsNewest(s: State, q: nat)
    requires Inv(s) && q < |s.arrivals| && s.arrivals[q] !in s.arrivals[..q]
    ensures forall p :: 0 <= p < q ==> s.arrivals[p] < s.arrivals[q]
  {
    hide Ordered, Accounted, Below, BatchFits;
    NewIsLargest(s.arrivals, q);
  }

  lemma NewIsLargest(arrivals: seq<nat>, q: nat)
    requires FirstInOrder(arrivals) && q < |arrivals| && arrivals[q] !in arrivals[..q]
    ensures forall p :: 0 <= p < q ==> arrivals[p] < arrivals[q]
  {
    forall p | 0 <= p < q
      ensures arrivals[p] < arrivals[q]
    {
      assert arrivals[..q][p] == arrivals[p];
      assert arrivals[..p] == arrivals[..q][..p];
    }
  }

  // ---- The threads ----

  /** What the uploader and the stop signal may do while a submission is under way. */
  ghost predicate UploaderTurn(a: State, b: State) {
    && b.hand == a.hand && b.submitted == a.submitted && |b.queue| <= |a.queue|
    && (a.stopped ==> b.stopped) && a.lost <= b.lost && (!b.stopped ==> b.lost == a.lost)
  }

  /** What the producer and the stop signal may do while the uploader works. */
  ghost predicate ProducerTurn(a: State, b: State) {
    b.batch == a.batch && b.acked == a.acked && b.arrivals == a.arrivals && (a.stopped ==> b.stopped)
  }

  // ---- What the uploader thread does ----

  /** A collection from the queue, or one call of the controller. */
  datatype Deed = Collected(batch: seq<nat>) | Uploaded(batch: seq<nat>, ok: bool)

  /** A batch is uploaded until it is acknowledged, and only then is the next one collected. */
  predicate InTurn(deeds: seq<Deed>, i: nat)
    requires i < |deeds|
  {
    match deeds[i]
    case Collected(_) => i == 0 || (deeds[i - 1].Uploaded? && deeds[i - 1].ok)
    case Uploaded(batch, _) =>
      i > 0 && deeds[i - 1].batch == batch && (deeds[i - 1].Uploaded? ==> !deeds[i - 1].ok)
  }

  ghost predicate Alternates(deeds: seq<Deed>) {
    forall i :: 0 <= i < |deeds| ==> InTurn(deeds, i)
  }

  /** The uploader holds exactly what it collected and has not seen acknowledged. */
  predicate Holds(deeds: seq<Deed>, pending: Option<seq<nat>>) {
    if pending.None? then deeds == [] || (deeds[|deeds| - 1].Uploaded? && deeds[|deeds| - 1].ok)
    else
      && deeds != [] && deeds[|deeds| - 1].batch == pending.value
      && (deeds[|deeds| - 1].Uploaded? ==> !deeds[|deeds| - 1].ok)
  }

  /** The thread's last deed is the one extra upload after a failure and the stop. */
  predicate EndsGivingUp(deeds: seq<Deed>) {
    && |deeds| >= 2 && deeds[|deeds| - 2].Uploaded? && !deeds[|deeds| - 2].ok
    && deeds[|deeds| - 1].Uploaded? && deeds[|deeds| - 1].batch == deeds[|deeds| - 2].batch
  }

  lemma OneMoreDeed(deeds: seq<Deed>, d: Deed)
    requires Alternates(deeds) && InTurn(deeds + [d], |deeds|)
    ensures Alternates(deeds + [d])
  {
    forall i | 0 <= i < |deeds + [d]|
      ensures InTurn(deeds + [d], i)
    {
      assert i < |deeds| ==> InTurn(deeds, i);
    }
  }

  lemma CollectionFollows(deeds: seq<Deed>, events: seq<nat>)
    requires Alternates(deeds) && Holds(deeds, None)
    ensures Alternates(deeds + [Collected(events)])
  {
    OneMoreDeed(deeds, Collected(events));
  }

  lemma UploadFollows(deeds: seq<Deed>, batch: seq<nat>, ok: bool)
    requires Alternates(deeds) && Holds(deeds, Some(batch))
    ensures Alternates(deeds + [Uploaded(batch, ok)])
  {
    OneMoreDeed(deeds, Uploaded(batch, ok));
  }

  lemma FinalUploadFollows(deeds: seq<Deed>, batch: seq<nat>, ok: bool)
    requires Alternates(deeds) && Holds(deeds, Some(batch))
    ensures Alternates(deeds + [Uploaded(batch, false), Uploaded(batch, ok)])
    ensures EndsGivingUp(deeds + [Uploaded(batch, false), Uploaded(batch, ok)])
  {
    UploadFollows(deeds, batch, false);
    UploadFollows(deeds + [Uploaded(batch, false)], batch, ok);
    assert deeds + [Uploaded(batch, false), Uploaded(batch, ok)]
        == deeds + [Uploaded(batch, false)] + [Uploaded(batch, ok)];
  }

  /**
   A batch, the empty one included, is uploaded exactly after it was collected:
   every upload repeats the latest collection, with nothing but failed uploads
   of it in between, and every collection is followed by its upload.
   */
  lemma {:induction false} UploadsAreCollections(deeds: seq<Deed>, i: nat)
    requires Alternates(deeds) && i < |deeds|
    ensures deeds[i].Uploaded? ==>
      exists j :: 0 <= j < i && deeds[j] == Collected(deeds[i].batch)
                  && forall k :: j < k < i ==> deeds[k] == Uploaded(deeds[i].batch, false)
    ensures deeds[i].Collected? && i + 1 < |deeds| ==> deeds[i + 1].Uploaded? && deeds[i + 1].batch == deeds[i].batch
    decreases i
  {
    assert InTurn(deeds, i);
    assert i + 1 < |deeds| ==> InTurn(deeds, i + 1);
    if deeds[i].Uploaded? && deeds[i - 1].Uploaded? {
      UploadsAreCollections(deeds, i - 1);
      var j :| 0 <= j < i - 1 && deeds[j] == Collected(deeds[i - 1].batch)
               && forall k :: j < k < i - 1 ==> deeds[k] == Uploaded(deeds[i - 1].batch, false);
      assert forall k :: j < k < i ==> deeds[k] == Uploaded(deeds[i].batch, false);
    }
  }

  /** `hand` and `batch` are locals of the two threads: the argument of `submit` and what `_run` holds. */
  class CommandEventUploader {
    const batchSize: int
    var queue: seq<nat>
    var stopped: bool
    var dropped: nat
    var inflight: nat
    var submitted: nat
    var hand: Option<nat>
    var batch: seq<nat>
    ghost var acked: seq<nat>
    ghost var lost: seq<nat>
    ghost var arrivals: seq<nat>
    /** What the uploader thread did. */
    ghost var deeds: seq<Deed>
    /** How often an event found the queue full. */
    ghost var sawFull: nat

    ghost function View(): State
      reads this
    {
      State(submitted, hand, queue, batch, acked, lost, arrivals, stopped)
    }

    ghost predicate Valid()
      reads this
    {
      Inv(View()) && dropped == |lost|
    }

    constructor (batchSize: int)
      ensures Valid() && View() == INITIAL && inflight == 0 && deeds == [] && this.batchSize == batchSize
      ensures sawFull == 0
    {
      this.batchSize := batchSize;
      queue, stopped, dropped, inflight := [], false, 0, 0;
      submitted, hand, batch, acked, lost, arrivals, deeds := 0, None, [], [], [], [], [];
      sawFull := 0;
    }

    // ---- Atomic operations ----

    /** `put_nowait`: refuses when the queue is full. */
    method PutNowait(event: nat) returns (ok: bool)
      requires Valid() && hand == Some(event)
      modifies this`queue, this`hand, this`sawFull
      ensures ok <==> |old(queue)| < 20000
      ensures sawFull == old(sawFull) + if |old(queue)| < 20000 then 0 else 1
      ensures View() == if ok then old(View()).(queue := old(queue) + [event], hand := None) else old(View())
      ensures Valid()
    {
      hide Inv;
      ok := |queue| < MAX_QUEUE_EVENTS;
      if ok {
        StepKeeps(View(), Put);
        queue, hand := queue + [event], None;
      } else {
        sawFull := sawFull + 1;
      }
    }

    /** Makes room by dropping the oldest queued event, if there still is one. */
    method EvictOldest()
      requires Valid() && hand.Some?
      modifies this`queue, this`dropped, this`lost
      ensures old(queue) == [] ==> View() == old(View())
      ensures old(queue) != [] ==> View() == old(View()).(queue := old(queue)[1..], lost := old(lost) + [old(queue)[0]])
      ensures Valid()
    {
      hide Inv;
      if queue != [] {
        StepKeeps(View(), Evict);
        lost := lost + [queue[0]];
        queue, dropped := queue[1..], dropped + 1;
      }
    }

    method Get() returns (event: Option<nat>)
      requires Valid()
      modifies this`queue, this`batch
      ensures event == if old(queue) == [] then None else Some(old(queue)[0])
      ensures event.None? ==> View() == old(View())
      ensures event.Some? ==> View() == old(View()).(queue := old(queue)[1..], batch := old(batch) + [event.value])
      ensures Valid()
    {
      hide Inv;
      if queue == [] {
        return None;
      }
      StepKeeps(View(), Take);
      event := Some(queue[0]);
      batch := batch + [queue[0]];
      queue := queue[1..];
    }

    /** One upload of the batch: acknowledged, or failed after some front part arrived. */
    method Upload() returns (ok: bool)
      requires Valid()
      modifies this`batch, this`acked, this`arrivals, this`deeds
      ensures Valid() && deeds == old(deeds) + [Uploaded(old(batch), ok)]
      ensures ok ==>
        View() == old(View()).(batch := [], acked := old(acked) + old(batch), arrivals := old(arrivals) + old(batch))
      ensures !ok ==> View().(arrivals := old(arrivals)) == old(View()) && old(arrivals) <= arrivals
    {
      hide Inv;
      ok := *;
      deeds := deeds + [Uploaded(batch, ok)];
      if ok {
        StepKeeps(View(), Ack);
        acked, arrivals, batch := acked + batch, arrivals + batch, [];
      } else {
        ghost var reached: nat :| reached <= |batch|;
        StepKeeps(View(), Fail(reached));
        arrivals := arrivals + batch[..reached];
      }
    }

    /** After the last failed upload the batch is counted as dropped. */
    method GiveUpBatch()
      requires Valid() && stopped
      modifies this`batch, this`lost, this`dropped
      ensures View() == old(View()).(batch := [], lost := old(lost) + old(batch))
      ensures Valid()
    {
      hide Inv;
      StepKeeps(View(), GiveUp(0));
      assert arrivals + batch[..0] == arrivals;
      dropped := dropped + |batch|;
      lost, batch := lost + batch, [];
    }

    /** `submit` is entered with the next event. */
    method Begin()
      requires Valid() && hand.None?
      modifies this`hand, this`submitted
      ensures View() == old(View()).(hand := Some(old(submitted)), submitted := old(submitted) + 1)
      ensures Valid()
    {
      hide Inv;
      StepKeeps(View(), Submit);
      hand, submitted := Some(submitted), submitted + 1;
    }

    /** `submit` after the stop only counts the event. */
    method RefuseLate()
      requires Valid() && hand.Some? && stopped
      modifies this`hand, this`lost, this`dropped
      ensures View() == old(View()).(hand := None, lost := old(lost) + [old(hand).value])
      ensures Valid()
    {
      hide Inv;
      StepKeeps(View(), Refuse);
      lost, dropped := lost + [hand.value], dropped + 1;
      hand := None;
    }

    method Halt()
      requires Valid()
      modifies this`stopped
      ensures View() == old(View()).(stopped := true)
      ensures Valid()
    {
      hide Inv;
      StepKeeps(View(), Stop);
      stopped := true;
    }

    // ---- Interference ----

    /** Any number of steps of the uploader thread and of `flush`. */
    method UploaderMoves()
      requires Valid()
      modifies this
      ensures Valid() && UploaderTurn(old(View()), View()) && sawFull == old(sawFull)
    {
      hide Inv;
      var steps: nat :| steps >= 0;
      for i := 0 to steps
        invariant Valid() && UploaderTurn(old(View()), View()) && sawFull == old(sawFull)
      {
        var take, upload := *, *;
        if take {
          var _ := Get();
        } else if upload {
          var _ := Upload();
        } else if stopped {
          GiveUpBatch();
        } else {
          Halt();
        }
      }
    }

    /** Any number of steps of the producer thread and of `flush`. */
    method ProducerMoves()
      requires Valid()
      modifies this
      ensures Valid() && ProducerTurn(old(View()), View()) && inflight == old(inflight) && deeds == old(deeds)
    {
      hide Inv;
      var steps: nat :| steps >= 0;
      for i := 0 to steps
        invariant Valid() && ProducerTurn(old(View()), View()) && inflight == old(inflight) && deeds == old(deeds)
      {
        var halt, put := *, *;
        if halt {
          Halt();
        } else if hand.None? {
          Begin();
        } else if stopped {
          RefuseLate();
        } else if put {
          var _ := PutNowait(hand.value);
        } else {
          EvictOldest();
        }
      }
    }

    // ---- The producer ----

    /**
     `submit`. Unless the uploader was stopped the event is queued last, and an
     older event was dropped for it only if this call found the queue full, and
     then at most one: the second `put_nowait` never finds it full. After the
     stop the event is dropped.
     */
    method SubmitEvent() returns (event: nat)
      requires Valid() && hand.None?
      modifies this
      ensures Valid() && hand.None? && event == old(submitted) && submitted == event + 1
      ensures old(lost) <= lost
      ensures !stopped ==> queue != [] && queue[|queue| - 1] == event
      ensures sawFull <= old(sawFull) + 1
      ensures !stopped ==> |lost| <= |old(lost)| + (sawFull - old(sawFull))
      ensures old(stopped) ==> lost != [] && lost[|lost| - 1] == event
    {
      hide Inv;
      event := submitted;
      Begin();
      UploaderMoves();
      if stopped {
        RefuseLate();
        return;
      }
      UploaderMoves();
      var ok := PutNowait(event);
      if !ok {
        UploaderMoves();
        QueueFits(View());
        EvictOldest();
        UploaderMoves();
        ok := PutNowait(event);
        assert ok;
      }
    }

    // ---- The uploader thread ----

    /** `_collect_batch`: at least one event, unless none arrives in time. */
    method CollectBatch() returns (events: seq<nat>)
      requires Valid() && batch == []
      modifies this
      ensures Valid() && events == batch && |events| <= (if batchSize < 1 then 1 else batchSize)
      ensures old(queue) != [] ==> events != [] && events[0] == old(queue)[0]
      ensures |events| < batchSize ==> queue == []
      ensures acked == old(acked) && arrivals == old(arrivals) && inflight == old(inflight) && deeds == old(deeds)
      ensures old(stopped) ==> stopped
    {
      hide Inv;
      if queue == [] {
        ProducerMoves();
      }
      var event := Get();
      events := [];
      if event.None? {
        return;
      }
      events := [event.value];
      while |events| < batchSize
        invariant Valid() && events == batch && 1 <= |events| <= (if batchSize < 1 then 1 else batchSize)
        invariant old(queue) != [] ==> events[0] == old(queue)[0]
        invariant acked == old(acked) && arrivals == old(arrivals) && inflight == old(inflight) && deeds == old(deeds)
        invariant old(stopped) ==> stopped
        decreases batchSize - |events|
      {
        ProducerMoves();
        event := Get();
        if event.None? {
          break;
        }
        events := events + [event.value];
      }
    }

    /** Uploads the pending batch; after a failure it stays, or after a stop is tried once more and given up. */
    method Attempt(pending: seq<nat>, backoff: nat) returns (left: Option<seq<nat>>, pause: nat, finished: bool)
      requires Valid() && inflight == 0 && batch == pending
      requires 1 <= backoff <= 30
      modifies this
      ensures Valid() && inflight == 0 && batch == (if left.Some? then pending else [])
      ensures left.Some? ==> left.value == pending && !stopped
      ensures 1 <= pause <= 30
      ensures finished ==> stopped && left.None?
      ensures acked == old(acked) || acked == old(acked) + pending
      ensures !finished && left.None? ==> acked == old(acked) + pending
      ensures !finished ==> deeds == old(deeds) + [Uploaded(pending, left.None?)]
      ensures finished ==> exists ok :: deeds == old(deeds) + [Uploaded(pending, false), Uploaded(pending, ok)]
      ensures left.Some? ==> pause == if 2 * backoff < 30 then 2 * backoff else 30
      ensures !finished && left.None? ==> pause == 1
      ensures old(arrivals) <= arrivals
    {
      hide Inv;
      left, pause, finished := Some(pending), backoff, false;
      inflight := inflight + 1;
      ProducerMoves();
      var ok := Upload();
      if ok {
        left, pause := None, 1;
      } else {
        ProducerMoves();
        if stopped {
          ok := Upload();
          if !ok {
            GiveUpBatch();
          }
          left, finished := None, true;
        } else {
          pause := if pause * 2 < MAX_BACKOFF_SECONDS then pause * 2 else MAX_BACKOFF_SECONDS;
        }
      }
      inflight := inflight - 1;
    }

    /**
     One turn of the loop in `_run`. A pending batch is uploaded again in place,
     whatever else is queued; it leaves this place only when it is acknowledged or,
     after the stop, given up. After the stop nothing stays pending: the thread
     ends, or a batch was acknowledged, or there are still events to collect.
     */
    method Turn(pending: Option<seq<nat>>, backoff: nat)
        returns (left: Option<seq<nat>>, pause: nat, finished: bool)
      requires Valid() && inflight == 0 && batch == (if pending.Some? then pending.value else [])
      requires 1 <= backoff <= 30
      requires Alternates(deeds) && Holds(deeds, pending)
      modifies this
      ensures Valid() && inflight == 0 && batch == (if left.Some? then left.value else [])
      ensures 1 <= pause <= 30
      ensures Alternates(deeds) && old(deeds) <= deeds && (!finished ==> Holds(deeds, left))
      ensures finished ==> stopped && batch == [] && (queue == [] || EndsGivingUp(deeds))
      ensures !finished && left.Some? && stopped ==> left.value == [] && queue != []
      ensures old(acked) <= acked && old(arrivals) <= arrivals
      ensures pending.Some? && acked != old(acked) ==> acked == old(acked) + pending.value
      ensures (pending.Some? && !finished) ==>
                && deeds == old(deeds) + [Uploaded(pending.value, left.None?)]
                && (if left.None? then acked == old(acked) + pending.value else left == pending)
    {
      hide Inv, Alternates, EndsGivingUp;
      left, pause, finished := pending, backoff, false;
      ProducerMoves();
      if stopped && (left.None? || left.value == []) && queue == [] {
        finished := true;
        return;
      }
      if left.None? {
        var events := CollectBatch();
        CollectionFollows(deeds, events);
        left := Some(events);
        deeds := deeds + [Collected(events)];
        if events == [] {
          ProducerMoves();
          finished := stopped && queue == [];
          return;
        }
      }
      var held := left.value;
      ghost var before := deeds;
      left, pause, finished := Attempt(held, pause);
      UploadFollows(before, held, left.None?);
      if finished {
        ghost var ok :| deeds == before + [Uploaded(held, false), Uploaded(held, ok)];
        FinalUploadFollows(before, held, ok);
      }
    }

    /** `_run`, for any number of turns. */
    method Run(turns: nat) returns (finished: bool)
      requires Valid() && inflight == 0 && batch == [] && deeds == []
      modifies this
      ensures Valid() && inflight == 0 && Alternates(deeds)
      ensures finished ==> stopped && batch == [] && (queue == [] || EndsGivingUp(deeds))
      ensures old(acked) <= acked && old(arrivals) <= arrivals
    {
      hide Inv;
      var pending: Option<seq<nat>> := None;
      var backoff := 1;
      for i := 0 to turns
        invariant Valid() && inflight == 0 && batch == (if pending.Some? then pending.value else [])
        invariant 1 <= backoff <= 30 && Alternates(deeds) && Holds(deeds, pending)
        invariant old(acked) <= acked && old(arrivals) <= arrivals
      {
        pending, backoff, finished := Turn(pending, backoff);
        if finished {
          return;
        }
      }
      finished := false;
    }
  }
}
