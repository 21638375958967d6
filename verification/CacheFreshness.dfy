/**
 The entries and the load protocol of the cache together (foundation/cache.py):
 every stored value is stamped with the load that produced it, and all locked
 operations interleave freely.
 */
module CacheFreshness {
  import opened Wrappers
  import opened CacheItems
  import L = CacheLoads

  /** A cached value; `load` is None if it came from an explicit `set`. */
  datatype Stamped<V> = Stamped(value: V, load: Option<nat>)

  datatype World<K, V> = World(items: seq<Entry<K, Stamped<V>>>, loads: L.State<K>)

  datatype Move<K, V> =
    | Read(key: K, now: real)
    | Write(key: K, value: V, now: real)
    | BeginLoad(key: K)
    | StoreLoaded(load: nat, value: V, now: real)
    | EndLoad(load: nat)
    | Drop(key: K)
    | DropAll

  predicate Enabled<K, V>(w: World<K, V>, m: Move<K, V>) {
    m.StoreLoaded? || m.EndLoad? ==> m.load in w.loads.live
  }

  /** The cache after one locked operation. */
  function Next<K(==), V>(w: World<K, V>, config: Config, m: Move<K, V>): World<K, V>
    requires Enabled(w, m)
  {
    match m
    case Read(key, now) => w.(items := After(w.items, config, Get(key, now)))
    case Write(key, value, now) => w.(items := After(w.items, config, Set(key, Stamped(value, None), now)))
    case BeginLoad(key) => w.(loads := L.Begin(w.loads, key).0)
    case StoreLoaded(load, value, now) =>
      var ticket := w.loads.live[load];
      if L.MayStore(w.loads, ticket)
      then w.(items := After(w.items, config, Set(ticket.key, Stamped(value, Some(load)), now)))
      else w
    case EndLoad(load) => w.(loads := L.End(w.loads, load))
    case Drop(key) => World(After(w.items, config, Invalidate(key)), L.Invalidate(w.loads, key))
    case DropAll => World(After(w.items, config, Clear), L.Clear(w.loads))
  }

  predicate Drops<K(==)>(e: L.Event<K>, key: K) {
    e.Cleared? || (e.Invalidated? && e.key == key)
  }

  /** The load began for this key, and since then the key was not invalidated and the cache not cleared. */
  ghost predicate Undisturbed<K>(history: seq<L.Event<K>>, load: nat, key: K) {
    && load < |history| && history[load] == L.Began(key)
    && forall j :: load < j < |history| ==> !Drops(history[j], key)
  }

  /** Every loaded value in the cache is of an undisturbed load of its key. */
  ghost predicate Fresh<K, V>(w: World<K, V>) {
    forall e :: e in w.items && e.value.load.Some? ==> Undisturbed(w.loads.history, e.value.load.value, e.key)
  }

  ghost predicate WorldInv<K(!new), V>(w: World<K, V>, config: Config) {
    config.Valid() && Bounded(w.items, config) && L.Inv(w.loads) && Fresh(w)
  }

  lemma UndisturbedGrows<K>(history: seq<L.Event<K>>, e: L.Event<K>, load: nat, key: K)
    requires Undisturbed(history, load, key) && !Drops(e, key)
    ensures Undisturbed(history + [e], load, key)
  {}

  /** A load that may store is undisturbed. */
  lemma MayStoreIsUndisturbed<K(!new)>(s: L.State<K>, load: nat)
    requires L.Inv(s) && load in s.live && L.MayStore(s, s.live[load])
    ensures Undisturbed(s.history, load, s.live[load].key)
  {
    assert L.Sound(s, load);
    forall j | load < j < |s.history|
      ensures !Drops(s.history[j], s.live[load].key)
    {
      assert !L.Supersedes(s.history[j], s.live[load].key);
    }
  }

  /** An operation on the entries adds at most the entry it writes. */
  lemma ItemsStayFresh<K, V>(w: World<K, V>, config: Config, op: Op<K, Stamped<V>>)
    requires config.Valid() && Bounded(w.items, config) && Fresh(w)
    requires op.Set? && op.value.load.Some? ==> Undisturbed(w.loads.history, op.value.load.value, op.key)
    ensures Fresh(w.(items := After(w.items, config, op))) && Bounded(After(w.items, config, op), config)
  {
    AfterBounded(w.items, config, op);
    forall e | e in After(w.items, config, op) && e.value.load.Some?
      ensures Undisturbed(w.loads.history, e.value.load.value, e.key)
    {
      AfterEntries(w.items, config, op, e);
    }
  }

  /** An event that drops no cached key leaves the cache fresh. */
  lemma EventKeepsFresh<K, V>(w: World<K, V>, loads: L.State<K>, e: L.Event<K>)
    requires Fresh(w) && loads.history == w.loads.history + [e]
    requires forall i :: i in w.items ==> !Drops(e, i.key)
    ensures Fresh(w.(loads := loads))
  {
    forall i | i in w.items && i.value.load.Some?
      ensures Undisturbed(loads.history, i.value.load.value, i.key)
    {
      UndisturbedGrows(w.loads.history, e, i.value.load.value, i.key);
    }
  }

  lemma NextKeeps<K(!new), V>(w: World<K, V>, config: Config, m: Move<K, V>)
    requires WorldInv(w, config) && Enabled(w, m)
    ensures WorldInv(Next(w, config, m), config)
  {
    hide L.Inv, L.MayStore, Bounded, Fresh;
    match m
    case Read(key, now) => ItemsStayFresh(w, config, Get(key, now));
    case Write(key, value, now) => ItemsStayFresh(w, config, Set(key, Stamped(value, None), now));
    case BeginLoad(key) =>
      L.BeginKeeps(w.loads, key);
      EventKeepsFresh(w, L.Begin(w.loads, key).0, L.Began(key));
    case StoreLoaded(load, value, now) =>
      if L.MayStore(w.loads, w.loads.live[load]) {
        MayStoreIsUndisturbed(w.loads, load);
        ItemsStayFresh(w, config, Set(w.loads.live[load].key, Stamped(value, Some(load)), now));
      }
    case EndLoad(load) =>
      L.EndKeeps(w.loads, load);
      EventKeepsFresh(w, L.End(w.loads, load), L.Ended(load));
    case Drop(key) =>
      L.InvalidateKeeps(w.loads, key);
      ItemsStayFresh(w, config, Invalidate(key));
      KeyIsGone(w.items, config, key);
      EventKeepsFresh(w.(items := Without(w.items, key)), L.Invalidate(w.loads, key), L.Invalidated(key));
    case DropAll =>
      L.ClearKeeps(w.loads);
      ItemsStayFresh(w, config, Clear);
      EventKeepsFresh(w.(items := []), L.Clear(w.loads), L.Cleared);
  }

  lemma KeyIsGone<K, V>(items: seq<Entry<K, V>>, config: Config, key: K)
    requires Bounded(items, config)
    ensures forall e :: e in Without(items, key) ==> e.key != key
  {
    WithoutExact(items, key);
  }

  // ---- Every interleaving ----

  ghost predicate Trace<K, V>(worlds: seq<World<K, V>>, config: Config, moves: seq<Move<K, V>>) {
    && |worlds| == |moves| + 1 && worlds[0] == World([], L.Initial())
    && forall i :: 0 <= i < |moves| ==>
         Enabled(worlds[i], moves[i]) && worlds[i + 1] == Next(worlds[i], config, moves[i])
  }

  lemma {:induction false} TraceKeeps<K(!new), V>(worlds: seq<World<K, V>>, config: Config, moves: seq<Move<K, V>>)
    requires config.Valid() && Trace(worlds, config, moves)
    ensures WorldInv(worlds[|moves|], config)
    decreases |moves|
  {
    hide L.Inv, Next, Enabled;
    if moves == [] {
      L.InitialInv<K>();
    } else {
      var n := |moves| - 1;
      TraceKeeps(worlds[..n + 1], config, moves[..n]);
      NextKeeps(worlds[n], config, moves[n]);
    }
  }

  /**
   In every interleaving a hit never returns the value of a load that began
   before the latest invalidation of its key or the latest clear.
   */
  lemma HitsAreFresh<K(!new), V>(worlds: seq<World<K, V>>, config: Config, moves: seq<Move<K, V>>, key: K, now: real)
    requires config.Valid() && Trace(worlds, config, moves)
    ensures var w := worlds[|moves|];
            var hit := Lookup(w.items, config, key, now);
            hit.Some? && hit.value.load.Some? ==> Undisturbed(w.loads.history, hit.value.load.value, key)
  {
    TraceKeeps(worlds, config, moves);
    var items := worlds[|moves|].items;
    if Hits(items, config, key, now) {
      assert items[Find(items, key).value] in items;
    }
  }
}
