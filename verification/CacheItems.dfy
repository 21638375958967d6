/**
 The entries of the cache (foundation/cache.py): an ordered dictionary, least
 recently used entry first, as a sequence of entries with distinct keys.
 */
module CacheItems {
  import opened Wrappers

  datatype Entry<K, V> = Entry(key: K, createdAt: real, value: V)

  /** `maxEntries` is None for an unbounded cache. */
  datatype Config = Config(ttl: real, maxEntries: Option<nat>) {
    predicate Valid() {
      ttl >= 0.0 && (maxEntries.Some? ==> maxEntries.value >= 1)
    }

    predicate Expired<K, V>(e: Entry<K, V>, now: real) {
      now - e.createdAt >= ttl
    }
  }

  function Find<K(==), V>(items: seq<Entry<K, V>>, key: K): (r: Option<nat>)
    ensures r.Some? ==> r.value < |items| && items[r.value].key == key
    ensures r.None? ==> forall e :: e in items ==> e.key != key
  {
    if items == [] then None
    else if items[|items| - 1].key == key then Some(|items| - 1)
    else Find(items[..|items| - 1], key)
  }

  /** `pop(key, None)`. */
  function Without<K(==), V>(items: seq<Entry<K, V>>, key: K): (r: seq<Entry<K, V>>)
    ensures forall e :: e in r ==> e in items
  {
    var i := Find(items, key);
    if i.Some? then items[..i.value] + items[i.value + 1..] else items
  }

  function Unexpired<K, V>(items: seq<Entry<K, V>>, config: Config, now: real): (r: seq<Entry<K, V>>)
    ensures |r| <= |items|
    ensures forall e :: e in r ==> e in items && !config.Expired(e, now)
    ensures forall e :: e in items && !config.Expired(e, now) ==> e in r
  {
    if items == [] then []
    else
      var last := items[|items| - 1];
      Unexpired(items[..|items| - 1], config, now) + if config.Expired(last, now) then [] else [last]
  }

  /** Drops the least recently used entries until the bound is met. */
  function Trimmed<K, V>(items: seq<Entry<K, V>>, config: Config): seq<Entry<K, V>> {
    if config.maxEntries.Some? && |items| > config.maxEntries.value
    then items[|items| - config.maxEntries.value..] else items
  }

  datatype Op<K, V> = Get(key: K, now: real) | Set(key: K, value: V, now: real) | Invalidate(key: K) | Clear

  predicate Hits<K(==), V>(items: seq<Entry<K, V>>, config: Config, key: K, now: real) {
    Find(items, key).Some? && !config.Expired(items[Find(items, key).value], now)
  }

  function Lookup<K(==), V>(items: seq<Entry<K, V>>, config: Config, key: K, now: real): Option<V> {
    if Hits(items, config, key, now) then Some(items[Find(items, key).value].value) else None
  }

  /** The entries after one call. */
  function After<K(==), V>(items: seq<Entry<K, V>>, config: Config, op: Op<K, V>): seq<Entry<K, V>> {
    match op
    case Get(key, now) =>
      if Find(items, key).None? then items
      else if Hits(items, config, key, now) then Without(items, key) + [items[Find(items, key).value]]
      else Without(items, key)
    case Set(key, value, now) =>
      var kept := Unexpired(items, config, now);
      if config.ttl == 0.0 then kept
      else Trimmed(Without(kept, key) + [Entry(key, now, value)], config)
    case Invalidate(key) => Without(items, key)
    case Clear => []
  }

  function Run<K(==), V>(items: seq<Entry<K, V>>, config: Config, ops: seq<Op<K, V>>): seq<Entry<K, V>> {
    if ops == [] then items else After(Run(items, config, ops[..|ops| - 1]), config, ops[|ops| - 1])
  }

  // ---- Invariant ----

  ghost predicate Distinct<K, V>(items: seq<Entry<K, V>>) {
    forall i, j :: 0 <= i < j < |items| ==> items[i].key != items[j].key
  }

  ghost predicate Bounded<K, V>(items: seq<Entry<K, V>>, config: Config) {
    && Distinct(items)
    && (config.maxEntries.Some? ==> |items| <= config.maxEntries.value)
    && (config.ttl == 0.0 ==> items == [])
  }

  lemma CutOut<T>(s: seq<T>, i: nat)
    requires i < |s|
    ensures forall x :: x in s[..i] + s[i + 1..] ==> x in s
    ensures forall x :: x in s && x != s[i] ==> x in s[..i] + s[i + 1..]
  {
    assert s == s[..i] + [s[i]] + s[i + 1..];
  }

  lemma WithoutExact<K, V>(items: seq<Entry<K, V>>, key: K)
    requires Distinct(items)
    ensures Distinct(Without(items, key))
    ensures forall e :: e in Without(items, key) ==> e in items && e.key != key
    ensures forall e :: e in items && e.key != key ==> e in Without(items, key)
  {
    if Find(items, key).Some? {
      var i := Find(items, key).value;
      CutOut(items, i);
      var rest := Without(items, key);
      assert forall j :: 0 <= j < |rest| ==> rest[j].key != key;
    }
  }

  lemma {:induction false} UnexpiredDistinct<K, V>(items: seq<Entry<K, V>>, config: Config, now: real)
    requires Distinct(items)
    ensures Distinct(Unexpired(items, config, now))
  {
    if items != [] {
      var front := items[..|items| - 1];
      UnexpiredDistinct(front, config, now);
      forall e | e in Unexpired(front, config, now)
        ensures e.key != items[|items| - 1].key
      {
        assert e in front;
      }
    }
  }

  lemma AfterBounded<K, V>(items: seq<Entry<K, V>>, config: Config, op: Op<K, V>)
    requires config.Valid() && Bounded(items, config)
    ensures Bounded(After(items, config, op), config)
  {
    match op
    case Get(key, now) =>
      WithoutExact(items, key);
    case Set(key, value, now) =>
      UnexpiredDistinct(items, config, now);
      PlacedDistinct(Unexpired(items, config, now), key, Entry(key, now, value));
    case Invalidate(key) =>
      WithoutExact(items, key);
    case Clear =>
  }

  /** The size bound and the distinct keys hold in every run. */
  lemma {:induction false} RunBounded<K, V>(items: seq<Entry<K, V>>, config: Config, ops: seq<Op<K, V>>)
    requires config.Valid() && Bounded(items, config)
    ensures Bounded(Run(items, config, ops), config)
  {
    if ops != [] {
      RunBounded(items, config, ops[..|ops| - 1]);
      AfterBounded(Run(items, config, ops[..|ops| - 1]), config, ops[|ops| - 1]);
    }
  }

  // ---- A hit is the last write ----

  predicate Removes<K(==), V>(op: Op<K, V>, key: K) {
    op.Clear? || (op.Invalidate? && op.key == key)
  }

  /** Write `i` is the last one of its key, and nothing removed the key since. */
  ghost predicate StillLast<K, V>(ops: seq<Op<K, V>>, i: int) {
    && 0 <= i < |ops| && ops[i].Set?
    && forall j :: i < j < |ops| ==> !Removes(ops[j], ops[i].key) && !(ops[j].Set? && ops[j].key == ops[i].key)
  }

  lemma AfterEntries<K, V>(items: seq<Entry<K, V>>, config: Config, op: Op<K, V>, e: Entry<K, V>)
    requires config.Valid() && Bounded(items, config)
    requires e in After(items, config, op)
    ensures (op.Set? && e == Entry(op.key, op.now, op.value))
         || (e in items && !Removes(op, e.key) && !(op.Set? && op.key == e.key))
  {
    match op
    case Get(key, now) =>
      WithoutExact(items, key);
    case Set(key, value, now) =>
      UnexpiredDistinct(items, config, now);
      WithoutExact(Unexpired(items, config, now), key);
    case Invalidate(key) =>
      WithoutExact(items, key);
    case Clear =>
  }

  /** `e` comes from the write at position `i`. */
  ghost predicate WrittenAt<K, V>(ops: seq<Op<K, V>>, i: int, e: Entry<K, V>) {
    StillLast(ops, i) && ops[i] == Set(e.key, e.value, e.createdAt)
  }

  lemma WrittenAtExtends<K, V>(ops: seq<Op<K, V>>, last: Op<K, V>, i: int, e: Entry<K, V>)
    requires WrittenAt(ops, i, e) && !Removes(last, e.key) && !(last.Set? && last.key == e.key)
    ensures WrittenAt(ops + [last], i, e)
  {
  }

  lemma {:induction false} EntryIsLastWrite<K, V>(config: Config, ops: seq<Op<K, V>>, e: Entry<K, V>)
    requires config.Valid() && e in Run([], config, ops)
    ensures exists i :: WrittenAt(ops, i, e)
    decreases |ops|
  {
    if ops != [] {
      var front, last := ops[..|ops| - 1], ops[|ops| - 1];
      assert ops == front + [last];
      var before := Run([], config, front);
      RunBounded([], config, front);
      AfterEntries(before, config, last, e);
      if last.Set? && e == Entry(last.key, last.now, last.value) {
        assert WrittenAt(ops, |ops| - 1, e);
      } else {
        EntryIsLastWrite(config, front, e);
        var i :| WrittenAt(front, i, e);
        WrittenAtExtends(front, last, i, e);
      }
    }
  }

  /** A hit returns the value last written for its key, not removed since and younger than the ttl. */
  lemma HitIsLastWrite<K, V>(config: Config, ops: seq<Op<K, V>>, key: K, now: real)
    requires config.Valid() && Lookup(Run([], config, ops), config, key, now).Some?
    ensures exists i :: (StillLast(ops, i) && ops[i].key == key && now - ops[i].now < config.ttl
                         && Lookup(Run([], config, ops), config, key, now) == Some(ops[i].value))
  {
    var items := Run([], config, ops);
    var e := items[Find(items, key).value];
    assert e in items;
    EntryIsLastWrite(config, ops, e);
    var i :| WrittenAt(ops, i, e);
    assert StillLast(ops, i) && ops[i].key == key && now - ops[i].now < config.ttl;
  }

  // ---- Only use of other keys evicts ----

  /** The key that a call moves to the recent end, if it does. */
  function Touched<K(==), V>(items: seq<Entry<K, V>>, config: Config, op: Op<K, V>): set<K> {
    match op
    case Get(key, now) => if Hits(items, config, key, now) then {key} else {}
    case Set(key, _, _) => {key}
    case _ => {}
  }

  /** All keys set or hit during a run that starts with `items`. */
  function TouchedSince<K(==), V>(items: seq<Entry<K, V>>, config: Config, ops: seq<Op<K, V>>): set<K> {
    if ops == [] then {}
    else
      var front := ops[..|ops| - 1];
      TouchedSince(items, config, front) + Touched(Run(items, config, front), config, ops[|ops| - 1])
  }

  /** A call that neither replaces nor removes `e`, which has not expired at its time. */
  predicate Spares<K(==), V>(op: Op<K, V>, config: Config, e: Entry<K, V>) {
    match op
    case Get(key, now) => key != e.key || !config.Expired(e, now)
    case Set(key, _, now) => key != e.key && !config.Expired(e, now)
    case Invalidate(key) => key != e.key
    case Clear => false
  }

  /** `e` is at some position and every entry behind it is among `newer`. */
  ghost predicate Kept<K, V>(items: seq<Entry<K, V>>, e: Entry<K, V>, newer: set<K>) {
    exists p :: KeptAt(items, e, newer, p)
  }

  ghost predicate KeptAt<K, V>(items: seq<Entry<K, V>>, e: Entry<K, V>, newer: set<K>, p: nat) {
    p < |items| && items[p] == e && forall j :: p < j < |items| ==> items[j].key in newer
  }

  lemma {:induction false} UnexpiredKeeps<K, V>(items: seq<Entry<K, V>>, config: Config, now: real, e: Entry<K, V>,
                                                newer: set<K>, p: nat)
    requires KeptAt(items, e, newer, p) && !config.Expired(e, now)
    ensures Kept(Unexpired(items, config, now), e, newer)
  {
    var front, last := items[..|items| - 1], items[|items| - 1];
    var kept := Unexpired(items, config, now);
    if p == |front| {
      assert KeptAt(kept, e, newer, |kept| - 1);
    } else {
      assert KeptAt(front, e, newer, p);
      UnexpiredKeeps(front, config, now, e, newer, p);
      var q :| KeptAt(Unexpired(front, config, now), e, newer, q);
      assert KeptAt(kept, e, newer, q);
    }
  }

  lemma WithoutKeeps<K, V>(items: seq<Entry<K, V>>, key: K, e: Entry<K, V>, newer: set<K>, p: nat)
    requires Distinct(items) && KeptAt(items, e, newer, p) && key != e.key
    ensures Kept(Without(items, key), e, newer)
  {
    var i := Find(items, key);
    var q := if i.Some? && i.value < p then p - 1 else p;
    assert KeptAt(Without(items, key), e, newer, q);
  }

  /** Entries with distinct keys out of `newer` are at most as many as `newer`. */
  lemma {:induction false} DistinctFits<K, V>(items: seq<Entry<K, V>>, newer: set<K>)
    requires Distinct(items) && forall e :: e in items ==> e.key in newer
    ensures |items| <= |newer|
  {
    if items != [] {
      var front, last := items[..|items| - 1], items[|items| - 1];
      assert last in items;
      forall e | e in front
        ensures e.key in newer - {last.key}
      {
        assert e in items;
      }
      DistinctFits(front, newer - {last.key});
    }
  }

  lemma TrimKeeps<K, V>(items: seq<Entry<K, V>>, config: Config, e: Entry<K, V>, newer: set<K>, p: nat)
    requires Distinct(items) && KeptAt(items, e, newer, p)
    requires config.maxEntries.Some? ==> |newer| < config.maxEntries.value
    ensures Kept(Trimmed(items, config), e, newer)
  {
    if config.maxEntries.Some? && |items| > config.maxEntries.value {
      DistinctFits(items[p + 1..], newer);
      var cut := |items| - config.maxEntries.value;
      assert KeptAt(Trimmed(items, config), e, newer, p - cut);
    } else {
      assert KeptAt(Trimmed(items, config), e, newer, p);
    }
  }

  lemma GetKeeps<K, V>(items: seq<Entry<K, V>>, config: Config, key: K, now: real, e: Entry<K, V>, all: set<K>, p: nat)
    requires Distinct(items) && KeptAt(items, e, all, p) && (key != e.key || !config.Expired(e, now))
    requires Touched(items, config, Op<K, V>.Get(key, now)) <= all
    ensures Kept(After(items, config, Get(key, now)), e, all)
  {
    if key == e.key {
      assert Find(items, key) == Some(p);
      assert KeptAt(Without(items, key) + [e], e, all, |Without(items, key)|);
      return;
    }
    WithoutKeeps(items, key, e, all, p);
    var q :| KeptAt(Without(items, key), e, all, q);
    if Hits(items, config, key, now) {
      assert KeptAt(Without(items, key) + [items[Find(items, key).value]], e, all, q);
    }
  }

  lemma PlacedDistinct<K, V>(items: seq<Entry<K, V>>, key: K, placed: Entry<K, V>)
    requires Distinct(items) && placed.key == key
    ensures Distinct(Without(items, key) + [placed])
  {
    WithoutExact(items, key);
    var all := Without(items, key) + [placed];
    forall i, j | 0 <= i < j < |all|
      ensures all[i].key != all[j].key
    {
      assert i < |Without(items, key)| ==> all[i] in Without(items, key);
    }
  }

  lemma SetKeeps<K, V>(items: seq<Entry<K, V>>, config: Config, key: K, value: V, now: real,
                   e: Entry<K, V>, all: set<K>, p: nat)
    requires config.ttl != 0.0 && Distinct(items) && KeptAt(items, e, all, p)
    requires key != e.key && key in all && !config.Expired(e, now)
    requires config.maxEntries.Some? ==> |all| < config.maxEntries.value
    ensures Kept(After(items, config, Set(key, value, now)), e, all)
  {
    UnexpiredDistinct(items, config, now);
    UnexpiredKeeps(items, config, now, e, all, p);
    var kept := Unexpired(items, config, now);
    var q :| KeptAt(kept, e, all, q);
    WithoutKeeps(kept, key, e, all, q);
    var r :| KeptAt(Without(kept, key), e, all, r);
    var placed := Entry(key, now, value);
    PlacedDistinct(kept, key, placed);
    assert KeptAt(Without(kept, key) + [placed], e, all, r);
    TrimKeeps(Without(kept, key) + [placed], config, e, all, r);
  }

  lemma AfterKeeps<K, V>(items: seq<Entry<K, V>>, config: Config, op: Op<K, V>, e: Entry<K, V>, newer: set<K>)
    requires config.Valid() && Bounded(items, config) && Kept(items, e, newer) && Spares(op, config, e)
    requires config.maxEntries.Some? ==> |newer + Touched(items, config, op)| < config.maxEntries.value
    ensures Kept(After(items, config, op), e, newer + Touched(items, config, op))
  {
    var all := newer + Touched(items, config, op);
    var p :| KeptAt(items, e, newer, p);
    assert KeptAt(items, e, all, p);
    match op
    case Get(key, now) =>
      GetKeeps(items, config, key, now, e, all, p);
    case Set(key, value, now) =>
      SetKeeps(items, config, key, value, now, e, all, p);
    case Invalidate(key) =>
      WithoutKeeps(items, key, e, all, p);
  }

  /**
   An entry that was just set or hit, and that has not expired or been removed
   since, is still there unless `maxEntries` or more distinct other keys have
   been set or hit.
   */
  lemma {:induction false} EvictionNeedsOtherKeys<K, V>(items: seq<Entry<K, V>>, config: Config, ops: seq<Op<K, V>>)
    requires config.Valid() && Bounded(items, config) && items != []
    requires forall i :: 0 <= i < |ops| ==> Spares(ops[i], config, items[|items| - 1])
    requires config.maxEntries.Some? ==> |TouchedSince(items, config, ops)| < config.maxEntries.value
    ensures Kept(Run(items, config, ops), items[|items| - 1], TouchedSince(items, config, ops))
    decreases |ops|
  {
    var e := items[|items| - 1];
    if ops == [] {
      assert KeptAt(items, e, {}, |items| - 1);
    } else {
      var front, last := ops[..|ops| - 1], ops[|ops| - 1];
      var newer := TouchedSince(items, config, front);
      SubsetSize(newer, TouchedSince(items, config, ops));
      EvictionNeedsOtherKeys(items, config, front);
      RunBounded(items, config, front);
      assert Spares(last, config, e);
      AfterKeeps(Run(items, config, front), config, last, e, newer);
    }
  }

  lemma SubsetSize<T>(a: set<T>, b: set<T>)
    requires a <= b
    ensures |a| <= |b|
  {
    assert b == a + (b - a);
  }

  /** A set or a hit leaves its key at the recent end, where the previous lemma starts. */
  lemma TouchedIsMostRecent<K, V>(items: seq<Entry<K, V>>, config: Config, op: Op<K, V>)
    requires config.Valid() && Bounded(items, config) && (op.Get? || op.Set?) && config.ttl > 0.0
    requires op.key in Touched(items, config, op)
    ensures var after := After(items, config, op);
      && after != [] && after[|after| - 1].key == op.key
      && (op.Set? ==> after[|after| - 1] == Entry(op.key, op.now, op.value))
      && (op.Get? ==> Lookup(items, config, op.key, op.now) == Some(after[|after| - 1].value))
  {
  }

  // ---- When a read must hit ----

  /** The keys that the calls set or ask for. */
  function Mentioned<K(==), V>(ops: seq<Op<K, V>>): set<K> {
    if ops == [] then {}
    else
      var last := ops[|ops| - 1];
      Mentioned(ops[..|ops| - 1]) + if last.Get? || last.Set? then {last.key} else {}
  }

  lemma {:induction false} TouchedIsMentioned<K, V>(items: seq<Entry<K, V>>, config: Config, ops: seq<Op<K, V>>)
    ensures TouchedSince(items, config, ops) <= Mentioned(ops)
    decreases |ops|
  {
    if ops != [] {
      TouchedIsMentioned(items, config, ops[..|ops| - 1]);
    }
  }

  lemma KeptIsFound<K, V>(items: seq<Entry<K, V>>, e: Entry<K, V>, newer: set<K>)
    requires Distinct(items) && Kept(items, e, newer)
    ensures Find(items, e.key).Some? && items[Find(items, e.key).value] == e
  {
    var p: nat :| KeptAt(items, e, newer, p);
    assert items[p] == e;
  }

  /** The call leaves the value of `key`, written at time `at`, in place and young. */
  predicate LeavesAlone<K(==), V>(op: Op<K, V>, key: K, at: real, ttl: real) {
    match op
    case Get(other, now) => other != key || now - at < ttl
    case Set(other, _, now) => other != key && now - at < ttl
    case Invalidate(other) => other != key
    case Clear => false
  }

  /**
   A value that was set is hit for its whole time to live: until its key is
   set again, removed or expired, or `maxEntries` keys were set or asked for.
   */
  lemma YoungValueIsHit<K, V>(items: seq<Entry<K, V>>, config: Config, key: K, value: V, at: real,
                              ops: seq<Op<K, V>>, now: real)
    requires config.Valid() && Bounded(items, config) && config.ttl > 0.0
    requires forall i :: 0 <= i < |ops| ==> LeavesAlone(ops[i], key, at, config.ttl)
    requires config.maxEntries.Some? ==> |Mentioned(ops)| < config.maxEntries.value
    requires now - at < config.ttl
    ensures Lookup(Run(After(items, config, Set(key, value, at)), config, ops), config, key, now) == Some(value)
  {
    var start := After(items, config, Set(key, value, at));
    AfterBounded(items, config, Set(key, value, at));
    TouchedIsMostRecent(items, config, Set(key, value, at));
    var e := start[|start| - 1];
    assert e == Entry(key, at, value);
    forall i | 0 <= i < |ops|
      ensures Spares(ops[i], config, e)
    {
      assert LeavesAlone(ops[i], key, at, config.ttl);
    }
    TouchedIsMentioned(start, config, ops);
    SubsetSize(TouchedSince(start, config, ops), Mentioned(ops));
    EvictionNeedsOtherKeys(start, config, ops);
    RunBounded(start, config, ops);
    KeptIsFound(Run(start, config, ops), e, TouchedSince(start, config, ops));
  }
}
