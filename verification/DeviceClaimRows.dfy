/**
 What each call of the device claim registry does to each row of the table,
 and when it is accepted, in terms of the rows and the arguments alone
 (foundation/device_claims.py).
 */
module DeviceClaimRows {
  import opened Wrappers
  import opened Strings
  import opened DeviceClaims
  import opened DeviceClaimTokens

  /** The claim is active and has not expired at `now`. */
  predicate IsLive(c: Claim, now: int) {
    c.status == Active && now < c.expiresAt
  }

  /** An expiry is never less than 30 seconds, nor less than the time asked for, ahead of the clock. */
  lemma ExpiryIsFar(clock: int, ttlSeconds: int)
    ensures ExpiryAt(clock, ttlSeconds) >= clock + 30 && ExpiryAt(clock, ttlSeconds) >= clock + ttlSeconds
    ensures ExpiryAt(clock, ttlSeconds) == clock + 30 || ExpiryAt(clock, ttlSeconds) == clock + ttlSeconds
  {}

  /** The row as the expiry sweep at `now` leaves it. */
  function Swept(c: Claim, now: int): Claim {
    if c.status == Active && c.expiresAt <= now then c.(status := Expired, releasedAt := Some(now)) else c
  }

  // ---- Calls that change rows in place ----

  lemma LookRow(t: Table, now: int, i: nat)
    requires i < |t|
    ensures |After(t, Look(now))| == |t| && After(t, Look(now))[i] == Swept(t[i], now)
  {}

  lemma RenewRow(t: Table, sourceId: string, keys: seq<string>, now: int, expiresAt: int, i: nat)
    requires i < |t|
    ensures var after := After(t, Renew(sourceId, keys, now, expiresAt));
      && |after| == |t|
      && after[i] == if IsLive(t[i], now) && t[i].sourceId == sourceId && (keys != [] ==> t[i].deviceKey in keys)
                     then t[i].(heartbeatAt := now, expiresAt := expiresAt) else Swept(t[i], now)
  {}

  lemma ReleaseRow(t: Table, sourceId: string, status: Status, keys: seq<string>, now: int, i: nat)
    requires i < |t| && status != Active
    ensures var after := After(t, Release(sourceId, status, keys, now));
      && |after| == |t|
      && after[i] ==
         (if t[i].status == Active && t[i].sourceId == sourceId && (keys != [] ==> t[i].deviceKey in keys)
          then t[i].(status := status, releasedAt := Some(now)) else t[i])
  {}

  lemma ForceRow(t: Table, key: string, now: int, i: nat)
    requires Ordered(t) && i < |t|
    ensures var after := After(t, Force(key, now));
      && |after| == |t|
      && after[i] == if t[i].status == Active && t[i].deviceKey == key
                     then t[i].(status := Cancelled, releasedAt := Some(now)) else t[i]
  {}

  lemma RevokeRow(t: Table, token: Token, now: int, i: nat)
    requires Ordered(t) && i < |t| && Current(t, token, now)
    ensures token.id < |t|
    ensures var after, holder := After(t, Revoke(token, now)), t[token.id];
      && |after| == |t|
      && after[i] ==
         (if IsLive(t[i], now) && t[i].sourceId == token.sourceId && t[i].ownerId == holder.ownerId
             && t[i].workerId == holder.workerId
          then t[i].(status := Cancelled, releasedAt := Some(now)) else Swept(t[i], now))
  {
    CurrentMeansRow(t, token, now);
  }

  // ---- Transfers ----

  /** Some row is live under the source. */
  predicate HasLive(t: Table, sourceId: string, now: int) {
    exists i :: 0 <= i < |t| && IsLive(t[i], now) && t[i].sourceId == sourceId
  }

  lemma SweptSelect(t: Table, sourceId: string, now: int, c: Claim)
    ensures c in Select(Expire(t, now), (x: Claim) => UnderSource(x, sourceId, []))
       <==> c in t && IsLive(c, now) && c.sourceId == sourceId
  {
    SelectExact(Expire(t, now), (x: Claim) => UnderSource(x, sourceId, []), c);
    if c in t && IsLive(c, now) {
      var i :| 0 <= i < |t| && t[i] == c;
      assert Expire(t, now)[i] == c;
    }
  }

  /**
   A transfer is accepted exactly if the old source has live claims, all of the
   given owner if there is one, and on exactly the given devices if there are any.
   */
  lemma TransferAccepted(t: Table, oldSource: string, owner: Option<string>, keys: seq<string>, now: int)
    ensures Transferable(Expire(t, now), oldSource, owner, keys) <==>
      && HasLive(t, oldSource, now)
      && (owner.Some? && owner.value != "" ==>
            forall c :: c in t && IsLive(c, now) && c.sourceId == oldSource ==> c.ownerId == owner.value)
      && (keys != [] ==>
            && (forall c :: c in t && IsLive(c, now) && c.sourceId == oldSource ==> c.deviceKey in keys)
            && (forall k :: k in keys ==>
                  exists c :: c in t && IsLive(c, now) && c.sourceId == oldSource && c.deviceKey == k))
  {
    var rows := Select(Expire(t, now), (c: Claim) => UnderSource(c, oldSource, []));
    forall c
      ensures c in rows <==> c in t && IsLive(c, now) && c.sourceId == oldSource
    {
      SweptSelect(t, oldSource, now, c);
    }
    assert rows != [] <==> HasLive(t, oldSource, now) by {
      if rows != [] {
        assert rows[0] in rows;
        var i :| 0 <= i < |t| && t[i] == rows[0];
        assert IsLive(t[i], now) && t[i].sourceId == oldSource;
      }
    }
    hide IsLive, Select, UnderSource, Expire;
    KeySetsAgree(rows, keys);
  }

  lemma KeySetsAgree(rows: seq<Claim>, keys: seq<string>)
    ensures (set c | c in rows :: c.deviceKey) == (set k | k in keys) <==>
      && (forall c :: c in rows ==> c.deviceKey in keys)
      && (forall k :: k in keys ==> exists c :: c in rows && c.deviceKey == k)
  {
    var found, wanted := set c | c in rows :: c.deviceKey, set k | k in keys;
    if found == wanted {
      forall k | k in keys
        ensures exists c :: c in rows && c.deviceKey == k
      {
        assert k in found;
      }
      forall c | c in rows
        ensures c.deviceKey in keys
      {
        assert c.deviceKey in wanted;
      }
    }
  }

  lemma TransferRow(t: Table, call: Call, i: nat)
    requires call.Transfer? && i < |t|
    requires Transferable(Expire(t, call.now), call.oldSource, call.ownerFilter, call.keys)
    ensures |After(t, call)| == |t|
    ensures After(t, call)[i] ==
      if IsLive(t[i], call.now) && t[i].sourceId == call.oldSource
      then t[i].(sourceId := call.newSource, sourceType := call.kind, heartbeatAt := call.now,
                 expiresAt := call.expiresAt)
      else Swept(t[i], call.now)
  {}

  // ---- Acquiring ----

  /** Device `i` of the request is complete, and no earlier complete one has its key. */
  predicate Counts(devices: seq<RawDevice>, i: nat)
    requires i < |devices|
  {
    IsWhole(devices[i]) && forall j :: 0 <= j < i && IsWhole(devices[j]) ==>
      Strip(devices[j].deviceKey) != Strip(devices[i].deviceKey)
  }

  predicate IsWhole(d: RawDevice) {
    Strip(d.deviceKey) != "" && Strip(d.workerId) != "" && Strip(d.serial) != ""
  }

  /** `d` is entry `i`, stripped and with a floor of at least 1. */
  predicate IsEntry(devices: seq<RawDevice>, i: nat, d: RawDevice)
    requires i < |devices|
  {
    && Counts(devices, i)
    && d.deviceKey == Strip(devices[i].deviceKey) && d.workerId == Strip(devices[i].workerId)
    && d.serial == Strip(devices[i].serial)
    && d.generationFloor == if devices[i].generationFloor < 1 then 1 else devices[i].generationFloor
  }

  lemma EntryOfFront(devices: seq<RawDevice>, n: nat, i: nat, d: RawDevice)
    requires i < n <= |devices|
    ensures IsEntry(devices, i, d) <==> IsEntry(devices[..n], i, d)
  {
    hide Strip;
    assert forall j :: 0 <= j <= i ==> devices[..n][j] == devices[j];
  }

  lemma LastEntry(devices: seq<RawDevice>, d: RawDevice)
    requires devices != []
    ensures IsEntry(devices, |devices| - 1, d) <==>
      && IsWhole(devices[|devices| - 1]) && d == Clean(devices[|devices| - 1])
      && Strip(devices[|devices| - 1].deviceKey) !in Keys(Normalized(devices[..|devices| - 1]))
  {
    hide Strip, Normalized;
    var n := |devices| - 1;
    KeysOfNormalized(devices[..n], Strip(devices[n].deviceKey));
    assert forall j :: 0 <= j < n ==> devices[..n][j] == devices[j];
  }

  lemma NormalizedStep(devices: seq<RawDevice>, d: RawDevice)
    requires devices != []
    ensures var front, last := devices[..|devices| - 1], devices[|devices| - 1];
      d in Normalized(devices) <==>
        (d in Normalized(front)
         || (IsWhole(last) && d == Clean(last) && Strip(last.deviceKey) !in Keys(Normalized(front))))
  {
    hide Strip;
  }

  predicate HasEntry(devices: seq<RawDevice>, d: RawDevice) {
    exists i :: 0 <= i < |devices| && IsEntry(devices, i, d)
  }

  lemma HasEntryStep(devices: seq<RawDevice>, d: RawDevice)
    requires devices != []
    ensures HasEntry(devices, d) <==>
      HasEntry(devices[..|devices| - 1], d) || IsEntry(devices, |devices| - 1, d)
  {
    hide IsEntry;
    var n := |devices| - 1;
    forall i | 0 <= i < n
      ensures IsEntry(devices, i, d) <==> IsEntry(devices[..n], i, d)
    {
      EntryOfFront(devices, n, i, d);
    }
  }

  /** The normalised request: the first complete entry of each key, stripped, with a floor of at least 1. */
  lemma {:induction false} NormalizedExactly(devices: seq<RawDevice>, d: RawDevice)
    ensures d in Normalized(devices) <==> HasEntry(devices, d)
    decreases |devices|
  {
    if devices != [] {
      hide IsEntry, HasEntry, Strip, Keys, IsWhole, Normalized, Clean;
      NormalizedExactly(devices[..|devices| - 1], d);
      LastEntry(devices, d);
      NormalizedStep(devices, d);
      HasEntryStep(devices, d);
    }
  }

  /** Some complete entry has the key. */
  predicate HasWhole(devices: seq<RawDevice>, key: string) {
    exists j :: 0 <= j < |devices| && IsWhole(devices[j]) && Strip(devices[j].deviceKey) == key
  }

  lemma HasWholeStep(devices: seq<RawDevice>, key: string)
    requires devices != []
    ensures HasWhole(devices, key) <==>
      HasWhole(devices[..|devices| - 1], key)
      || (IsWhole(devices[|devices| - 1]) && Strip(devices[|devices| - 1].deviceKey) == key)
  {
    hide IsWhole, Strip;
    var front, last := devices[..|devices| - 1], devices[|devices| - 1];
    if HasWhole(front, key) {
      var j :| 0 <= j < |front| && IsWhole(front[j]) && Strip(front[j].deviceKey) == key;
      assert devices[j] == front[j];
    }
    if HasWhole(devices, key) {
      var j :| 0 <= j < |devices| && IsWhole(devices[j]) && Strip(devices[j].deviceKey) == key;
      assert j < |front| ==> front[j] == devices[j];
    }
  }

  lemma KeysOfAppend(rest: seq<RawDevice>, d: RawDevice)
    ensures Keys(rest + [d]) == Keys(rest) + {d.deviceKey}
  {
    assert forall x :: x in rest ==> x in rest + [d];
    assert d in rest + [d];
  }

  /** A key is in the normalised request exactly if some complete entry has it. */
  lemma {:induction false} KeysOfNormalized(devices: seq<RawDevice>, key: string)
    ensures key in Keys(Normalized(devices)) <==> HasWhole(devices, key)
    decreases |devices|
  {
    if devices != [] {
      hide Strip, HasWhole, Keys;
      var front, last := devices[..|devices| - 1], devices[|devices| - 1];
      KeysOfNormalized(front, key);
      KeysOfNormalized(front, Strip(last.deviceKey));
      HasWholeStep(devices, key);
      KeysOfAppend(Normalized(front), Clean(last));
    } else {
      assert Keys([]) == {};
    }
  }

  /**
   An acquire with proper arguments is refused exactly if a requested device has
   a live claim of another owner or source, or any live claim where existing
   ones are not allowed.
   */
  lemma AcquireRefused(t: Table, call: Call)
    requires Ordered(t) && call.Acquire?
    ensures Refused(t, call) <==> exists d, c :: d in Normalized(call.devices) && StandsInTheWay(t, call, d, c)
  {
    hide Ordered, Normalized, Conflicts, StandsInTheWay, Expire, RequestOf, ActiveRow, Blocks;
    var swept, devices, request := Expire(t, call.now), Normalized(call.devices), RequestOf(call);
    ConflictsMean(swept, devices, request);
    forall d | d in devices
      ensures BlockedBy(swept, d, request) <==> exists c :: StandsInTheWay(t, call, d, c)
    {
      BlockedMeans(t, call, d);
    }
  }

  /** `c` is a live claim on the device that the call may not reuse. */
  predicate StandsInTheWay(t: Table, call: Call, d: RawDevice, c: Claim)
    requires call.Acquire?
  {
    && c in t && IsLive(c, call.now) && c.deviceKey == d.deviceKey
    && (c.ownerId != Strip(call.owner) || c.sourceId != Strip(call.source) || !call.allowExisting)
  }

  predicate BlockedBy(t: Table, d: RawDevice, request: Request) {
    ActiveRow(t, d.deviceKey).Some? && Blocks(t[ActiveRow(t, d.deviceKey).value], request)
  }

  lemma BlockedMeans(t: Table, call: Call, d: RawDevice)
    requires Ordered(t) && call.Acquire?
    ensures BlockedBy(Expire(t, call.now), d, RequestOf(call)) <==> exists c :: StandsInTheWay(t, call, d, c)
  {
    hide Strip;
    var swept := Expire(t, call.now);
    ExpireEdits(t, call.now);
    EditedKeeps(t, swept);
    if BlockedBy(swept, d, RequestOf(call)) {
      var row := ActiveRow(swept, d.deviceKey).value;
      assert swept[row] == t[row] && t[row] in t;
      assert StandsInTheWay(t, call, d, t[row]);
    }
    if c :| StandsInTheWay(t, call, d, c) {
      var i :| 0 <= i < |t| && t[i] == c;
      assert swept[i] == c && HoldsKey(swept[i], d.deviceKey);
      ActiveRowIs(swept, d.deviceKey, i);
    }
  }

  lemma {:induction false} ConflictsMean(t: Table, devices: seq<RawDevice>, request: Request)
    ensures Conflicts(t, devices, request) != [] <==> exists d :: d in devices && BlockedBy(t, d, request)
    decreases |devices|
  {
    if devices != [] {
      hide BlockedBy;
      var front, last := devices[..|devices| - 1], devices[|devices| - 1];
      ConflictsMean(t, front, request);
      ConflictsStep(t, devices, request);
      assert devices == front + [last];
      if d :| d in devices && BlockedBy(t, d, request) {
        assert d in front || d == last;
      }
      assert last in devices && forall d :: d in front ==> d in devices;
    }
  }

  lemma ConflictsStep(t: Table, devices: seq<RawDevice>, request: Request)
    requires devices != []
    ensures Conflicts(t, devices, request) != [] <==>
      Conflicts(t, devices[..|devices| - 1], request) != [] || BlockedBy(t, devices[|devices| - 1], request)
  {}

  /** A new row: everything it says comes from the request, and its generation fences off all earlier rows. */
  ghost predicate IsInserted(t: Table, d: RawDevice, call: Call, c: Claim)
    requires call.Acquire?
  {
    && c.deviceKey == d.deviceKey && c.workerId == d.workerId && c.serial == d.serial
    && c.ownerId == Strip(call.owner)
    && c.username == (if call.username == "" then Strip(call.owner) else call.username)
    && c.sourceType == (if call.kind == "" then "unknown" else call.kind) && c.sourceId == Strip(call.source)
    && c.status == Active && c.acquiredAt == call.now && c.heartbeatAt == call.now && c.expiresAt == call.expiresAt
    && c.releasedAt == None
    && c.generation >= d.generationFloor
    && (forall r :: r in t && r.deviceKey == d.deviceKey ==> r.generation < c.generation)
    && (c.generation == d.generationFloor
        || exists r :: r in t && r.deviceKey == d.deviceKey && c.generation == r.generation + 1)
  }

  lemma {:induction false} MaxGenerationAttained(t: Table, key: string)
    ensures MaxGeneration(t, key) == 0 ||
      exists r :: r in t && r.deviceKey == key && r.generation == MaxGeneration(t, key)
    decreases |t|
  {
    if t != [] {
      MaxGenerationAttained(t[..|t| - 1], key);
      assert t[|t| - 1] in t;
      assert forall r :: r in t[..|t| - 1] ==> r in t;
    }
  }

  /** What a granted device's active row is: the live one with a new expiry, or a new row. */
  ghost predicate IsGranted(t: Table, d: RawDevice, call: Call, row: nat, c: Claim)
    requires call.Acquire?
  {
    if row < |t| then IsLive(t[row], call.now) && c == t[row].(heartbeatAt := call.now, expiresAt := call.expiresAt)
    else IsInserted(t, d, call, c)
  }

  /** After an accepted acquire the active row of every requested device is such a row. */
  lemma AcquiredRow(t: Table, call: Call, d: RawDevice, row: nat)
    requires Ordered(t) && call.Acquire? && !BadArguments(call) && !Refused(t, call)
    requires d in Normalized(call.devices)
    requires row < |After(t, call)| && HoldsKey(After(t, call)[row], d.deviceKey)
    ensures IsGranted(t, d, call, row, After(t, call)[row])
  {
    var swept, devices := Expire(t, call.now), Normalized(call.devices);
    assert After(t, call) == TakenAll(swept, devices, RequestOf(call));
    hide After, TakenAll, Normalized, IsInserted, BadArguments, Refused, Strip;
    ExpireEdits(t, call.now);
    EditedKeeps(t, swept);
    var k :| 0 <= k < |devices| && devices[k] == d;
    TakenRowIs(swept, devices, call, k, row);
    if row < |t| {
      assert swept[row] == t[row] && IsLive(t[row], call.now);
    } else {
      InsertedBeforeSweep(t, d, call, After(t, call)[row]);
    }
  }

  /** The sweep changes no generation. */
  lemma InsertedBeforeSweep(t: Table, d: RawDevice, call: Call, c: Claim)
    requires call.Acquire? && IsInserted(Expire(t, call.now), d, call, c)
    ensures IsInserted(t, d, call, c)
  {
    hide Strip;
    var swept := Expire(t, call.now);
    forall r | r in t && r.deviceKey == d.deviceKey
      ensures r.generation < c.generation
    {
      var i :| 0 <= i < |t| && t[i] == r;
      assert swept[i] in swept;
    }
    if r :| r in swept && r.deviceKey == d.deviceKey && c.generation == r.generation + 1 {
      var i :| 0 <= i < |swept| && swept[i] == r;
      assert t[i] in t;
    }
  }

  /** The same on the table after the sweep, for any list of devices with distinct keys. */
  ghost predicate IsTaken(t: Table, d: RawDevice, call: Call, row: nat, c: Claim)
    requires call.Acquire?
  {
    if row < |t| then t[row].status == Active && c == t[row].(heartbeatAt := call.now, expiresAt := call.expiresAt)
    else IsInserted(t, d, call, c)
  }

  ghost predicate IsRequest(devices: seq<RawDevice>) {
    && (forall i, j :: 0 <= i < j < |devices| ==> devices[i].deviceKey != devices[j].deviceKey)
    && (forall d :: d in devices ==> d.generationFloor >= 1)
  }

  lemma FrontIsRequest(devices: seq<RawDevice>)
    requires devices != [] && IsRequest(devices)
    ensures IsRequest(devices[..|devices| - 1])
    ensures devices[|devices| - 1].generationFloor >= 1
    ensures devices[|devices| - 1].deviceKey !in Keys(devices[..|devices| - 1])
    ensures forall k :: 0 <= k < |devices| - 1 ==> devices[k].deviceKey != devices[|devices| - 1].deviceKey
  {
    var front, last := devices[..|devices| - 1], devices[|devices| - 1];
    assert last in devices;
    forall d | d in front
      ensures d.deviceKey != last.deviceKey && d in devices
    {
      var i :| 0 <= i < |front| && front[i] == d;
      assert devices[i] == d;
    }
  }

  lemma {:induction false} TakenRowIs(t: Table, devices: seq<RawDevice>, call: Call, k: nat, row: nat)
    requires Ordered(t) && call.Acquire? && k < |devices| && IsRequest(devices)
    requires var after := TakenAll(t, devices, RequestOf(call));
      row < |after| && HoldsKey(after[row], devices[k].deviceKey)
    ensures IsTaken(t, devices[k], call, row, TakenAll(t, devices, RequestOf(call))[row])
    decreases |devices|
  {
    hide TakenAll, Taken, IsTaken, Ordered, RequestOf, IsRequest, Keys;
    var n := |devices| - 1;
    var front, last, request := devices[..n], devices[n], RequestOf(call);
    TakenAllStep(t, devices, request);
    FrontIsRequest(devices);
    if k < n {
      TakenOther(TakenAll(t, front, request), last, request, row);
      TakenRowIs(t, front, call, k, row);
    } else {
      LastRowIs(t, front, last, call, row);
    }
  }

  lemma TakenAllStep(t: Table, devices: seq<RawDevice>, request: Request)
    requires devices != []
    ensures TakenAll(t, devices, request)
         == Taken(TakenAll(t, devices[..|devices| - 1], request), devices[|devices| - 1], request)
  {}

  lemma LastRowIs(t: Table, front: seq<RawDevice>, last: RawDevice, call: Call, row: nat)
    requires Ordered(t) && call.Acquire? && last.deviceKey !in Keys(front) && last.generationFloor >= 1
    requires var after := Taken(TakenAll(t, front, RequestOf(call)), last, RequestOf(call));
      row < |after| && HoldsKey(after[row], last.deviceKey)
    ensures IsTaken(t, last, call, row, Taken(TakenAll(t, front, RequestOf(call)), last, RequestOf(call))[row])
  {
    var request := RequestOf(call);
    var before := TakenAll(t, front, request);
    TakenAllKeeps(t, front, request);
    TakenKeeps(before, last, request);
    var active := ActiveRow(before, last.deviceKey);
    if active.Some? {
      TakenAllOthers(t, front, request, active.value);
    } else {
      SameKeyRows(t, front, request, last.deviceKey);
      MaxGenerationBounds(before, last.deviceKey);
      MaxGenerationAttained(before, last.deviceKey);
    }
  }

  ghost predicate HasGeneration(t: Table, key: string, generation: int) {
    exists r :: r in t && r.deviceKey == key && r.generation == generation
  }

  /** The rows of a device that is not among `devices` are the same before and after. */
  lemma SameKeyRows(t: Table, devices: seq<RawDevice>, request: Request, key: string)
    requires Ordered(t) && key !in Keys(devices)
    ensures forall r :: r in t && r.deviceKey == key ==> HasGeneration(TakenAll(t, devices, request), key, r.generation)
    ensures forall r :: r in TakenAll(t, devices, request) && r.deviceKey == key ==> r in t
  {
    var after := TakenAll(t, devices, request);
    TakenAllKeeps(t, devices, request);
    forall r | r in t && r.deviceKey == key
      ensures HasGeneration(after, key, r.generation)
    {
      var i :| 0 <= i < |t| && t[i] == r;
      assert LaterVersion(t[i], after[i]) && after[i] in after;
    }
    forall r | r in after && r.deviceKey == key
      ensures r in t
    {
      var i :| 0 <= i < |after| && after[i] == r;
      TakenAllOthers(t, devices, request, i);
    }
  }
}
