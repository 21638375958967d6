/**
 The cache object (foundation/cache.py). Each method runs under the cache lock,
 so every interleaving of threads and tasks is a sequence of these calls.
 */
module TtlCache {
  import opened Wrappers
  import opened CacheItems
  import L = CacheLoads

  /** Entries whose key is not in `gone`. */
  function Excluding<K(==), V>(items: seq<Entry<K, V>>, gone: set<K>): seq<Entry<K, V>> {
    if items == [] then []
    else
      var last := items[|items| - 1];
      var front := Excluding(items[..|items| - 1], gone);
      if last.key in gone then front else front + [last]
  }

  lemma {:induction false} ExcludingNothing<K, V>(items: seq<Entry<K, V>>, gone: set<K>)
    requires forall e :: e in items ==> e.key !in gone
    ensures Excluding(items, gone) == items
  {
    if items != [] {
      ExcludingNothing(items[..|items| - 1], gone);
    }
  }

  lemma WithoutAbsent<K, V>(items: seq<Entry<K, V>>, key: K)
    requires forall e :: e in items ==> e.key != key
    ensures Without(items, key) == items
  {
  }

  /** Removing a key from a longer list, when the last entry is the one or when it is another. */
  lemma WithoutAppend<K, V>(rest: seq<Entry<K, V>>, last: Entry<K, V>, key: K)
    requires last.key == key ==> forall e :: e in rest ==> e.key != key
    ensures Without(rest + [last], key) == if last.key == key then rest else Without(rest, key) + [last]
  {
    var all := rest + [last];
    assert all[..|all| - 1] == rest && all[|all| - 1] == last;
    if last.key == key {
      assert all[..|rest|] + all[|rest| + 1..] == rest;
    } else if Find(rest, key).Some? {
      var i := Find(rest, key).value;
      assert all[..i] + all[i + 1..] == rest[..i] + rest[i + 1..] + [last];
    }
  }

  lemma {:induction false} ExcludingLacks<K, V>(items: seq<Entry<K, V>>, gone: set<K>, key: K)
    requires forall i :: 0 <= i < |items| ==> items[i].key != key
    ensures Without(Excluding(items, gone), key) == Excluding(items, gone) == Excluding(items, gone + {key})
    ensures forall e :: e in Excluding(items, gone) ==> e.key != key
  {
    if items != [] {
      ExcludingLacks(items[..|items| - 1], gone, key);
      assert items[|items| - 1].key != key;
    }
    WithoutAbsent(Excluding(items, gone), key);
  }

  lemma {:induction false} ExcludeOneMore<K, V>(items: seq<Entry<K, V>>, gone: set<K>, key: K)
    requires Distinct(items)
    ensures Without(Excluding(items, gone), key) == Excluding(items, gone + {key})
  {
    if items != [] {
      var front, last := items[..|items| - 1], items[|items| - 1];
      if last.key == key {
        ExcludingLacks(front, gone, key);
      } else {
        ExcludeOneMore(front, gone, key);
      }
      if last.key !in gone {
        WithoutAppend(Excluding(front, gone), last, key);
      }
    }
  }

  lemma {:induction false} ExcludingExpired<K, V>(items: seq<Entry<K, V>>, config: Config, now: real, gone: set<K>)
    requires forall e :: e in items ==> (e.key in gone <==> config.Expired(e, now))
    ensures Excluding(items, gone) == Unexpired(items, config, now)
  {
    if items != [] {
      assert items[|items| - 1] in items;
      ExcludingExpired(items[..|items| - 1], config, now, gone);
    }
  }

  function KeysOf<K, V>(items: seq<Entry<K, V>>): seq<K> {
    seq(|items|, i requires 0 <= i < |items| => items[i].key)
  }

  lemma KeysGrow<K, V>(items: seq<Entry<K, V>>, i: nat)
    requires Distinct(items) && i < |items|
    ensures items[i].key !in KeysOf(items[..i])
    ensures KeysOf(items[..i + 1]) == KeysOf(items[..i]) + [items[i].key]
  {
  }

  class Cache<K(==, !new), V> {
    const config: Config
    var items: seq<Entry<K, V>>
    var generation: nat
    var keyVersions: map<K, nat>
    var loadSeq: map<K, nat>
    /** The `users` field of each version object, and the identity of the next one. */
    var users: map<nat, int>
    var nextVersion: nat
    ghost var live: map<nat, L.Ticket<K>>
    ghost var history: seq<L.Event<K>>

    ghost function Loads(): L.State<K>
      reads this
    {
      L.State(generation, keyVersions, loadSeq, users, nextVersion, live, history)
    }

    ghost predicate Valid()
      reads this
    {
      config.Valid() && Bounded(items, config) && L.Inv(Loads())
    }

    constructor (config: Config)
      requires config.Valid()
      ensures Valid() && this.config == config && items == [] && Loads() == L.Initial()
    {
      this.config := config;
      items := [];
      generation, keyVersions, loadSeq, users, nextVersion := 0, map[], map[], map[], 0;
      live, history := map[], [];
      new;
      L.InitialInv<K>();
    }

    method Get(key: K, now: real) returns (value: Option<V>)
      requires Valid()
      modifies this
      ensures Valid() && Loads() == old(Loads())
      ensures items == After(old(items), config, Op.Get(key, now))
      ensures value == Lookup(old(items), config, key, now)
    {
      hide L.Inv;
      AfterBounded(items, config, Op.Get(key, now));
      var i := Find(items, key);
      if i.None? {
        return None;
      }
      var item := items[i.value];
      if now - item.createdAt >= config.ttl {
        items := Without(items, key);
        return None;
      }
      items := Without(items, key) + [item];
      value := Some(item.value);
    }

    method Set(key: K, value: V, now: real)
      requires Valid()
      modifies this
      ensures Valid() && Loads() == old(Loads())
      ensures items == After(old(items), config, Op.Set(key, value, now))
    {
      hide L.Inv;
      AfterBounded(items, config, Op.Set(key, value, now));
      DropExpired(now);
      if config.ttl == 0.0 {
        return;
      }
      items := Without(items, key) + [Entry(key, now, value)];
      EvictOldest();
    }

    /** `popitem(last=False)` until the bound is met. */
    method EvictOldest()
      modifies this`items
      ensures items == Trimmed(old(items), config)
    {
      if config.maxEntries.Some? {
        while |items| > config.maxEntries.value
          invariant |items| <= |old(items)| && items == old(items)[|old(items)| - |items|..]
          invariant |items| >= config.maxEntries.value || items == old(items)
        {
          items := items[1..];
        }
      }
    }

    method DropExpired(now: real)
      requires Distinct(items)
      modifies this`items
      ensures items == Unexpired(old(items), config, now)
    {
      var expired: seq<K> := [];
      ghost var gone: set<K> := {};
      for i := 0 to |items|
        invariant items == old(items)
        invariant gone == set k | k in expired
        invariant forall j :: 0 <= j < i ==> (items[j].key in gone <==> config.Expired(items[j], now))
        invariant forall k :: k in gone ==> k in KeysOf(items[..i])
      {
        KeysGrow(items, i);
        if now - items[i].createdAt >= config.ttl {
          expired := expired + [items[i].key];
          gone := gone + {items[i].key};
        }
      }
      DeleteAll(expired, gone);
      ExcludingExpired(old(items), config, now, gone);
    }

    method DeleteAll(keys: seq<K>, ghost gone: set<K>)
      requires Distinct(items) && gone == set k | k in keys
      modifies this`items
      ensures items == Excluding(old(items), gone)
    {
      ghost var begin := items;
      ghost var done: set<K> := {};
      ExcludingNothing(items, done);
      for j := 0 to |keys|
        invariant done == set k | k in keys[..j]
        invariant items == Excluding(begin, done)
      {
        ExcludeOneMore(begin, done, keys[j]);
        items := Without(items, keys[j]);
        done := done + {keys[j]};
      }
      assert keys[..|keys|] == keys;
    }

    /** `setdefault`: the version object of the key, a fresh one if it has none. */
    method VersionOf(key: K) returns (version: nat)
      modifies this`keyVersions, this`nextVersion
      ensures version == if key in old(keyVersions) then old(keyVersions)[key] else old(nextVersion)
      ensures keyVersions == old(keyVersions)[key := version]
      ensures nextVersion == if key in old(keyVersions) then old(nextVersion) else old(nextVersion) + 1
    {
      if key !in keyVersions {
        keyVersions := keyVersions[key := nextVersion];
        nextVersion := nextVersion + 1;
      }
      version := keyVersions[key];
    }

    method BeginLoad(key: K) returns (ghost load: nat, ticket: L.Ticket<K>)
      requires Valid()
      modifies this
      ensures Valid() && items == old(items)
      ensures (Loads(), ticket) == L.Begin(old(Loads()), key)
      ensures load == |old(history)| && load in live && live[load] == ticket
    {
      hide L.Inv, L.MayStore, Bounded;
      L.BeginKeeps(Loads(), key);
      load := |history|;
      var version := VersionOf(key);
      var seqNo := (if key in loadSeq then loadSeq[key] else 0) + 1;
      ticket := L.Ticket(key, generation, version, seqNo);
      Enter(ticket);
    }

    /** Counts the user and notes the sequence number. */
    method Enter(ticket: L.Ticket<K>)
      modifies this`users, this`loadSeq, this`live, this`history
      ensures users == old(users)[ticket.version := L.UsersOf(old(Loads()), ticket.version) + 1]
      ensures loadSeq == old(loadSeq)[ticket.key := ticket.seqNo]
      ensures live == old(live)[|old(history)| := ticket] && history == old(history) + [L.Began(ticket.key)]
    {
      users := users[ticket.version := (if ticket.version in users then users[ticket.version] else 0) + 1];
      loadSeq := loadSeq[ticket.key := ticket.seqNo];
      live := live[|history| := ticket];
      history := history + [L.Began(ticket.key)];
    }

    /** Stores the loaded value if and only if the load has not been superseded since it began. */
    method StoreLoaded(ticket: L.Ticket<K>, value: V, now: real, ghost load: nat) returns (stored: bool)
      requires Valid() && load in live && live[load] == ticket
      modifies this
      ensures Valid() && Loads() == old(Loads())
      ensures stored <==> !L.Superseded(history, load, ticket.key)
      ensures items == if stored then After(old(items), config, Op.Set(ticket.key, value, now)) else old(items)
    {
      assert L.Sound(Loads(), load);
      stored := false;
      if ticket.generation == generation
        && ticket.key in keyVersions && keyVersions[ticket.key] == ticket.version
        && ticket.key in loadSeq && loadSeq[ticket.key] == ticket.seqNo {
        Set(ticket.key, value, now);
        stored := true;
      }
    }

    method EndLoad(ticket: L.Ticket<K>, ghost load: nat)
      requires Valid() && load in live && live[load] == ticket
      modifies this
      ensures Valid() && items == old(items) && Loads() == L.End(old(Loads()), load)
    {
      hide L.Inv;
      L.EndKeeps(Loads(), load);
      var version := ticket.version;
      users := users[version := (if version in users then users[version] else 0) - 1];
      if users[version] == 0 && ticket.key in keyVersions && keyVersions[ticket.key] == version {
        keyVersions := keyVersions - {ticket.key};
        loadSeq := loadSeq - {ticket.key};
      }
      live := live - {load};
      history := history + [L.Ended(load)];
      assert Loads() == L.End(old(Loads()), load);
    }

    method Invalidate(key: K)
      requires Valid()
      modifies this
      ensures Valid()
      ensures items == After(old(items), config, Op.Invalidate(key))
      ensures Loads() == L.Invalidate(old(Loads()), key)
    {
      hide L.Inv;
      AfterBounded(items, config, Op.Invalidate(key));
      L.InvalidateKeeps(Loads(), key);
      items := Without(items, key);
      keyVersions := keyVersions - {key};
      loadSeq := loadSeq - {key};
      history := history + [L.Invalidated(key)];
    }

    method Clear()
      requires Valid()
      modifies this
      ensures Valid() && items == [] && Loads() == L.Clear(old(Loads()))
    {
      hide L.Inv;
      L.ClearKeeps(Loads());
      items := [];
      generation := generation + 1;
      keyVersions, loadSeq := map[], map[];
      history := history + [L.Cleared];
    }
  }
}
