/**
 The load protocol of the cache (foundation/cache.py): every cold load takes a
 version and a sequence number when it begins, and may store its value only if
 both are still in place. A version object's identity is a number that is never
 used twice. A load is named by the position of its begin event in the history.
 */
module CacheLoads {

  /** What `_begin_load` hands to the load. */
  datatype Ticket<K> = Ticket(key: K, generation: nat, version: nat, seqNo: nat)

  datatype Event<K> = Began(key: K) | Ended(load: nat) | Invalidated(key: K) | Cleared

  /**
   The bookkeeping fields of the cache, the tickets of the loads in flight and
   the events so far. `users[v]` is the field of version object `v`.
   */
  datatype State<K> = State(
    generation: nat, versions: map<K, nat>, loadSeq: map<K, nat>, users: map<nat, int>,
    nextVersion: nat, live: map<nat, Ticket<K>>, history: seq<Event<K>>)

  function Initial<K>(): State<K> {
    State(0, map[], map[], map[], 0, map[], [])
  }

  function UsersOf<K>(s: State<K>, version: nat): int {
    if version in s.users then s.users[version] else 0
  }

  /** `_begin_load`. */
  function Begin<K(==)>(s: State<K>, key: K): (State<K>, Ticket<K>) {
    var known := key in s.versions;
    var version := if known then s.versions[key] else s.nextVersion;
    var seqNo := (if key in s.loadSeq then s.loadSeq[key] else 0) + 1;
    var ticket := Ticket(key, s.generation, version, seqNo);
    (State(s.generation, s.versions[key := version], s.loadSeq[key := seqNo],
           s.users[version := UsersOf(s, version) + 1],
           if known then s.nextVersion else s.nextVersion + 1,
           s.live[|s.history| := ticket], s.history + [Began(key)]),
     ticket)
  }

  predicate InPlace<K(==)>(s: State<K>, ticket: Ticket<K>) {
    ticket.key in s.versions && s.versions[ticket.key] == ticket.version
  }

  /** The three comparisons of `_store_loaded`. */
  predicate MayStore<K(==)>(s: State<K>, ticket: Ticket<K>) {
    && ticket.generation == s.generation
    && InPlace(s, ticket)
    && ticket.key in s.loadSeq && s.loadSeq[ticket.key] == ticket.seqNo
  }

  /** `_end_load`. */
  function End<K(==)>(s: State<K>, load: nat): State<K>
    requires load in s.live
  {
    var ticket := s.live[load];
    var users := UsersOf(s, ticket.version) - 1;
    var last := users == 0 && InPlace(s, ticket);
    s.(users := s.users[ticket.version := users],
       versions := if last then s.versions - {ticket.key} else s.versions,
       loadSeq := if last then s.loadSeq - {ticket.key} else s.loadSeq,
       live := s.live - {load},
       history := s.history + [Ended(load)])
  }

  function Invalidate<K(==)>(s: State<K>, key: K): State<K> {
    s.(versions := s.versions - {key}, loadSeq := s.loadSeq - {key}, history := s.history + [Invalidated(key)])
  }

  function Clear<K(==)>(s: State<K>): State<K> {
    s.(generation := s.generation + 1, versions := map[], loadSeq := map[], history := s.history + [Cleared])
  }

  // ---- What the protocol promises, in terms of the history alone ----

  predicate Supersedes<K(==)>(e: Event<K>, key: K) {
    e.Cleared? || (e.Invalidated? && e.key == key) || (e.Began? && e.key == key)
  }

  /** After its begin event, a later load of the key began, or the key was invalidated, or the cache cleared. */
  predicate Superseded<K(==)>(history: seq<Event<K>>, load: nat, key: K) {
    exists j :: load < j < |history| && Supersedes(history[j], key)
  }

  function LiveOn<K>(s: State<K>, version: nat): set<nat> {
    set l | l in s.live && s.live[l].version == version
  }

  // ---- Invariant ----

  ghost predicate Bookkeeping<K(!new)>(s: State<K>) {
    && s.loadSeq.Keys == s.versions.Keys
    && (forall k :: k in s.versions ==> s.versions[k] < s.nextVersion)
    && (forall j, k :: j in s.versions && k in s.versions && s.versions[j] == s.versions[k] ==> j == k)
    && (forall k :: k in s.versions ==> LiveOn(s, s.versions[k]) != {})
    && (forall v :: UsersOf(s, v) == |LiveOn(s, v)|)
  }

  ghost predicate Sound<K(!new)>(s: State<K>, load: nat)
    requires load in s.live
  {
    var t := s.live[load];
    && load < |s.history| && s.history[load] == Began(t.key)
    && t.version < s.nextVersion
    && (forall k :: k in s.versions && s.versions[k] == t.version ==> k == t.key)
    && (InPlace(s, t) ==> t.key in s.loadSeq && t.generation == s.generation && t.seqNo <= s.loadSeq[t.key])
    && (MayStore(s, t) <==> !Superseded(s.history, load, t.key))
  }

  ghost predicate Inv<K(!new)>(s: State<K>) {
    && Bookkeeping(s)
    && forall l :: l in s.live ==> Sound(s, l)
  }

  lemma SupersededStep<K>(history: seq<Event<K>>, e: Event<K>, load: nat, key: K)
    requires load < |history|
    ensures Superseded(history + [e], load, key) <==> Superseded(history, load, key) || Supersedes(e, key)
  {
    var longer := history + [e];
    if Superseded(history, load, key) {
      var j :| load < j < |history| && Supersedes(history[j], key);
      assert longer[j] == history[j];
    }
    if Supersedes(e, key) {
      assert longer[|history|] == e;
    }
  }

  lemma InitialInv<K(!new)>()
    ensures Inv(Initial<K>())
  {
  }

  lemma BeginCounts<K(!new)>(s: State<K>, key: K, v: nat)
    requires |s.history| !in s.live
    requires forall w :: UsersOf(s, w) == |LiveOn(s, w)|
    ensures var (after, ticket) := Begin(s, key);
      && LiveOn(after, v) == LiveOn(s, v) + (if v == ticket.version then {|s.history|} else {})
      && UsersOf(after, v) == |LiveOn(after, v)|
  {
    var (after, ticket) := Begin(s, key);
    LiveGrows(s, after, |s.history|, ticket, v);
    assert UsersOf(s, v) == |LiveOn(s, v)|;
    hide LiveOn;
  }

  lemma LiveGrows<K(!new)>(s: State<K>, t: State<K>, load: nat, ticket: Ticket<K>, v: nat)
    requires load !in s.live && t.live == s.live[load := ticket]
    ensures load !in LiveOn(s, v)
    ensures LiveOn(t, v) == LiveOn(s, v) + if v == ticket.version then {load} else {}
    ensures |LiveOn(t, v)| == |LiveOn(s, v)| + if v == ticket.version then 1 else 0
  {
    assert LiveOn(t, v) == LiveOn(s, v) + if v == ticket.version then {load} else {};
  }

  lemma BeginVersions<K(!new)>(s: State<K>, key: K)
    requires Bookkeeping(s)
    ensures var after := Begin(s, key).0;
      && after.loadSeq.Keys == after.versions.Keys
      && (forall k :: k in after.versions ==> after.versions[k] < after.nextVersion)
      && (forall j, k :: j in after.versions && k in after.versions && after.versions[j] == after.versions[k] ==>
              j == k)
      && (forall k :: k in after.versions ==>
              after.versions[k] == if k == key then Begin(s, key).1.version else s.versions[k])
      && (forall k :: k in after.versions ==> k == key || k in s.versions)
  {
  }

  lemma BeginBookkeeping<K(!new)>(s: State<K>, key: K)
    requires Bookkeeping(s) && |s.history| !in s.live
    ensures Bookkeeping(Begin(s, key).0)
  {
    var (after, ticket) := Begin(s, key);
    BeginVersions(s, key);
    forall v
      ensures LiveOn(after, v) == LiveOn(s, v) + if v == ticket.version then {|s.history|} else {}
      ensures UsersOf(after, v) == |LiveOn(after, v)|
    {
      BeginCounts(s, key, v);
    }
    forall k | k in after.versions
      ensures LiveOn(after, after.versions[k]) != {}
    {
      assert k == key ==> |s.history| in LiveOn(after, after.versions[k]);
    }
  }

  lemma BeginSoundOther<K(!new)>(s: State<K>, key: K, l: nat)
    requires Bookkeeping(s) && l in s.live && Sound(s, l)
    ensures l in Begin(s, key).0.live && Sound(Begin(s, key).0, l)
  {
    SupersededStep(s.history, Began(key), l, s.live[l].key);
  }

  lemma BeginSoundSelf<K(!new)>(s: State<K>, key: K)
    requires Bookkeeping(s)
    ensures Sound(Begin(s, key).0, |s.history|)
  {
    var (after, ticket) := Begin(s, key);
    BeginVersions(s, key);
    assert after.live[|s.history|] == ticket && InPlace(after, ticket) && MayStore(after, ticket);
    assert forall k :: k in after.versions && after.versions[k] == after.versions[key] ==> k == key;
  }

  lemma BeginKeeps<K(!new)>(s: State<K>, key: K)
    requires Inv(s)
    ensures Inv(Begin(s, key).0)
    ensures MayStore(Begin(s, key).0, Begin(s, key).1)
  {
    forall l | l in s.live
      ensures l < |s.history|
    {
      assert Sound(s, l);
    }
    BeginBookkeeping(s, key);
    BeginSoundSelf(s, key);
    forall l | l in s.live
      ensures l in Begin(s, key).0.live && Sound(Begin(s, key).0, l)
    {
      BeginSoundOther(s, key, l);
    }
  }

  lemma EndCounts<K(!new)>(s: State<K>, load: nat, v: nat)
    requires load in s.live && UsersOf(s, v) == |LiveOn(s, v)|
    ensures var after, ticket := End(s, load), s.live[load];
      && LiveOn(after, v) == LiveOn(s, v) - (if v == ticket.version then {load} else {})
      && UsersOf(after, v) == |LiveOn(after, v)|
  {
    assert load in LiveOn(s, s.live[load].version);
    assert LiveOn(End(s, load), v) == LiveOn(s, v) - if v == s.live[load].version then {load} else {};
  }

  lemma SingletonLeft<T>(all: set<T>, x: T)
    requires x in all && |all - {x}| == 0
    ensures all == {x}
  {
    assert all == (all - {x}) + {x};
  }

  /** The bookkeeping of a key goes only with the last load on its version. */
  lemma EndDropsLast<K(!new)>(s: State<K>, load: nat)
    requires load in s.live && forall v :: UsersOf(s, v) == |LiveOn(s, v)|
    requires End(s, load).versions != s.versions
    ensures LiveOn(s, s.live[load].version) == {load} && InPlace(s, s.live[load])
  {
    var version := s.live[load].version;
    EndCounts(s, load, version);
    assert load in LiveOn(s, version);
    SingletonLeft(LiveOn(s, version), load);
  }

  lemma EndBookkeeping<K(!new)>(s: State<K>, load: nat)
    requires Bookkeeping(s) && load in s.live && Sound(s, load)
    ensures Bookkeeping(End(s, load))
  {
    var after, ticket := End(s, load), s.live[load];
    forall v
      ensures UsersOf(after, v) == |LiveOn(after, v)|
    {
      EndCounts(s, load, v);
    }
    forall k | k in after.versions
      ensures k in s.versions && after.versions[k] == s.versions[k] && LiveOn(after, after.versions[k]) != {}
    {
      EndCounts(s, load, s.versions[k]);
      if s.versions[k] == ticket.version {
        assert k == ticket.key && InPlace(s, ticket);
        assert UsersOf(after, ticket.version) != 0;
      }
    }
  }

  lemma EndSound<K(!new)>(s: State<K>, load: nat, l: nat)
    requires load in s.live && l in s.live && l != load && Sound(s, load) && Sound(s, l)
    requires forall v :: UsersOf(s, v) == |LiveOn(s, v)|
    ensures l in End(s, load).live && Sound(End(s, load), l)
  {
    SupersededStep(s.history, Ended(load), l, s.live[l].key);
    if End(s, load).versions != s.versions {
      EndDropsLast(s, load);
      assert l !in LiveOn(s, s.live[load].version);
    }
  }

  lemma EndKeeps<K(!new)>(s: State<K>, load: nat)
    requires Inv(s) && load in s.live
    ensures Inv(End(s, load))
  {
    assert Sound(s, load);
    EndBookkeeping(s, load);
    forall l | l in s.live && l != load
      ensures l in End(s, load).live && Sound(End(s, load), l)
    {
      EndSound(s, load, l);
    }
  }

  lemma InvalidateSound<K(!new)>(s: State<K>, key: K, l: nat)
    requires l in s.live && Sound(s, l)
    ensures Sound(Invalidate(s, key), l)
  {
    SupersededStep(s.history, Invalidated(key), l, s.live[l].key);
  }

  lemma InvalidateKeeps<K(!new)>(s: State<K>, key: K)
    requires Inv(s)
    ensures Inv(Invalidate(s, key))
  {
    var after := Invalidate(s, key);
    forall v
      ensures LiveOn(after, v) == LiveOn(s, v) && UsersOf(after, v) == UsersOf(s, v)
    {
    }
    assert forall k :: k in after.versions ==> k in s.versions && after.versions[k] == s.versions[k];
    forall l | l in after.live
      ensures Sound(after, l)
    {
      InvalidateSound(s, key, l);
    }
  }

  lemma ClearKeeps<K(!new)>(s: State<K>)
    requires Inv(s)
    ensures Inv(Clear(s))
  {
    var after := Clear(s);
    forall v
      ensures LiveOn(after, v) == LiveOn(s, v)
    {
    }
    forall l | l in after.live
      ensures Sound(after, l)
    {
      assert Sound(s, l);
      SupersededStep(s.history, Cleared, l, s.live[l].key);
    }
  }

  // ---- Every interleaving ----

  /** One locked step of some thread or task. */
  ghost predicate Step<K(!new)>(s: State<K>, t: State<K>) {
    || (exists key :: t == Begin(s, key).0)
    || (exists load :: load in s.live && t == End(s, load))
    || (exists key :: t == Invalidate(s, key))
    || t == Clear(s)
  }

  lemma StepKeeps<K(!new)>(s: State<K>, t: State<K>)
    requires Inv(s) && Step(s, t)
    ensures Inv(t)
  {
    if key :| t == Begin(s, key).0 {
      BeginKeeps(s, key);
    } else if load :| load in s.live && t == End(s, load) {
      EndKeeps(s, load);
    } else if key :| t == Invalidate(s, key) {
      InvalidateKeeps(s, key);
    } else {
      ClearKeeps(s);
    }
  }

  ghost predicate Trace<K(!new)>(states: seq<State<K>>) {
    && states != [] && states[0] == Initial()
    && forall i :: 0 <= i < |states| - 1 ==> Step(states[i], states[i + 1])
  }

  lemma {:induction false} TraceInv<K(!new)>(states: seq<State<K>>)
    requires Trace(states)
    ensures Inv(states[|states| - 1])
    decreases |states|
  {
    if |states| == 1 {
      InitialInv<K>();
    } else {
      TraceInv(states[..|states| - 1]);
      assert states[..|states| - 1][|states| - 2] == states[|states| - 2];
      StepKeeps(states[|states| - 2], states[|states| - 1]);
    }
  }

  /**
   Under every interleaving a load in flight may store its value if and only
   if since its begin no later load of its key began, its key was not
   invalidated and the cache was not cleared.
   */
  lemma StoresExactlyNewest<K(!new)>(states: seq<State<K>>, load: nat)
    requires Trace(states) && load in states[|states| - 1].live
    ensures var s := states[|states| - 1];
      MayStore(s, s.live[load]) <==> !Superseded(s.history, load, s.live[load].key)
  {
    TraceInv(states);
    assert Sound(states[|states| - 1], load);
  }

  /** A version's `users` counts its live loads, and without live loads nothing is kept. */
  lemma BookkeepingIsExact<K(!new)>(states: seq<State<K>>, version: nat)
    requires Trace(states)
    ensures var s := states[|states| - 1];
      && UsersOf(s, version) == |LiveOn(s, version)|
      && (s.live == map[] ==> s.versions == map[] && s.loadSeq == map[])
  {
    TraceInv(states);
    var s := states[|states| - 1];
    if s.live == map[] {
      assert forall v :: LiveOn(s, v) == {};
      assert forall k :: k !in s.versions;
    }
  }

  /** Ending a load never removes the bookkeeping of another version or of another key. */
  lemma EndSparesOthers<K(!new)>(s: State<K>, load: nat, key: K)
    requires Inv(s) && load in s.live && key in s.versions
    requires key != s.live[load].key || s.versions[key] != s.live[load].version || |LiveOn(s, s.versions[key])| >= 2
    ensures var t := End(s, load);
      && key in t.versions && t.versions[key] == s.versions[key]
      && key in t.loadSeq && t.loadSeq[key] == s.loadSeq[key]
  {
  }
}
