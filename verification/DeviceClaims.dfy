/**
 The device claim registry (foundation/device_claims.py). The SQL table is a
 sequence of rows in insertion order and every method is one transaction. The
 clock is an argument that may go backwards. A claim's id, a fresh UUID in the
 source, is the position at which its row was inserted.
 */
module DeviceClaims {
  import opened Wrappers
  import opened Strings

  datatype Status = Active | Released | Cancelled | Converted | Expired | Failed | Reconciled

  datatype Claim = Claim(
    id: nat, deviceKey: string, workerId: string, serial: string, ownerId: string, username: string,
    sourceType: string, sourceId: string, status: Status, generation: int,
    acquiredAt: int, heartbeatAt: int, expiresAt: int, releasedAt: Option<int>)

  type Table = seq<Claim>

  function Max(a: int, b: int): int {
    if a < b then b else a
  }

  /** `_expires`, from a clock reading of its own. */
  function ExpiryAt(clock: int, ttlSeconds: int): int {
    clock + Max(30, ttlSeconds)
  }

  // ---- SQL statements ----

  /** UPDATE ... SET ... WHERE ... */
  function Update(t: Table, where: Claim -> bool, change: Claim -> Claim): (r: Table) {
    seq(|t|, i requires 0 <= i < |t| => if where(t[i]) then change(t[i]) else t[i])
  }

  /** SELECT * ... WHERE ... */
  function Select(t: Table, where: Claim -> bool): seq<Claim> {
    if t == [] then []
    else Select(t[..|t| - 1], where) + if where(t[|t| - 1]) then [t[|t| - 1]] else []
  }

  lemma {:induction false} SelectExact(t: Table, where: Claim -> bool, c: Claim)
    ensures c in Select(t, where) <==> c in t && where(c)
  {
    if t != [] {
      SelectExact(t[..|t| - 1], where, c);
    }
  }

  /** SELECT COALESCE(MAX(generation),0) ... WHERE device_key=? */
  function MaxGeneration(t: Table, key: string): int {
    if t == [] then 0
    else
      var rest := MaxGeneration(t[..|t| - 1], key);
      if t[|t| - 1].deviceKey == key then Max(rest, t[|t| - 1].generation) else rest
  }

  lemma {:induction false} MaxGenerationBounds(t: Table, key: string)
    ensures forall i :: 0 <= i < |t| && t[i].deviceKey == key ==> t[i].generation <= MaxGeneration(t, key)
  {
    if t != [] {
      MaxGenerationBounds(t[..|t| - 1], key);
    }
  }

  predicate HoldsKey(c: Claim, key: string) {
    c.status == Active && c.deviceKey == key
  }

  /** The row of the active claim on `key`. */
  function ActiveRow(t: Table, key: string): (r: Option<nat>)
    ensures r.Some? ==> r.value < |t| && HoldsKey(t[r.value], key)
    ensures r.None? ==> forall i :: 0 <= i < |t| ==> !HoldsKey(t[i], key)
  {
    if t == [] then None
    else if HoldsKey(t[|t| - 1], key) then Some(|t| - 1)
    else ActiveRow(t[..|t| - 1], key)
  }

  // ---- Transactions as functions on the table ----

  function Expire(t: Table, now: int): Table {
    Update(t, (c: Claim) => c.status == Active && c.expiresAt <= now,
      (c: Claim) => c.(status := Expired, releasedAt := Some(now)))
  }

  predicate UnderSource(c: Claim, sourceId: string, keys: seq<string>) {
    c.sourceId == sourceId && c.status == Active && (keys != [] ==> c.deviceKey in keys)
  }

  function Renewed(t: Table, sourceId: string, keys: seq<string>, now: int, expiresAt: int): Table {
    Update(Expire(t, now), (c: Claim) => UnderSource(c, sourceId, keys),
      (c: Claim) => c.(heartbeatAt := now, expiresAt := expiresAt))
  }

  /** The checks of `transfer` that precede its update. */
  predicate Transferable(t: Table, sourceId: string, owner: Option<string>, keys: seq<string>) {
    var rows := Select(t, (c: Claim) => UnderSource(c, sourceId, []));
    && rows != []
    && (owner.Some? && owner.value != "" ==> forall c :: c in rows ==> c.ownerId == owner.value)
    && (keys != [] ==> (set c | c in rows :: c.deviceKey) == set k | k in keys)
  }

  function Transferred(t: Table, oldSource: string, newSource: string, sourceType: string,
                       now: int, expiresAt: int): Table {
    Update(Expire(t, now), (c: Claim) => UnderSource(c, oldSource, []),
      (c: Claim) => c.(sourceId := newSource, sourceType := sourceType, heartbeatAt := now, expiresAt := expiresAt))
  }

  function Freed(t: Table, sourceId: string, status: Status, keys: seq<string>, now: int): Table {
    Update(t, (c: Claim) => UnderSource(c, sourceId, keys), (c: Claim) => c.(status := status, releasedAt := Some(now)))
  }

  /** What a caller presents to revoke one operation. */
  datatype Token = Token(deviceKey: string, id: nat, generation: int, sourceId: string)

  predicate Presents(c: Claim, token: Token) {
    && c.deviceKey == token.deviceKey && c.id == token.id && c.generation == token.generation
    && c.sourceId == token.sourceId && c.status == Active
  }

  predicate Current(t: Table, token: Token, now: int) {
    exists c :: c in Expire(t, now) && Presents(c, token)
  }

  function Revoked(t: Table, sourceId: string, ownerId: string, workerId: string, now: int): Table {
    Update(Expire(t, now),
      (c: Claim) => c.sourceId == sourceId && c.ownerId == ownerId && c.workerId == workerId && c.status == Active,
      (c: Claim) => c.(status := Cancelled, releasedAt := Some(now)))
  }

  function CancelRow(t: Table, row: nat, now: int): Table
    requires row < |t|
  {
    t[row := t[row].(status := Cancelled, releasedAt := Some(now))]
  }

  // ---- Acquiring ----

  datatype RawDevice = RawDevice(deviceKey: string, workerId: string, serial: string, generationFloor: int)

  function Clean(d: RawDevice): RawDevice {
    RawDevice(Strip(d.deviceKey), Strip(d.workerId), Strip(d.serial), Max(1, d.generationFloor))
  }

  function Keys(devices: seq<RawDevice>): set<string> {
    set d | d in devices :: d.deviceKey
  }

  /** Cleaned devices without the incomplete ones; the first of each key is kept. */
  function Normalized(devices: seq<RawDevice>): (r: seq<RawDevice>)
    ensures forall i, j :: 0 <= i < j < |r| ==> r[i].deviceKey != r[j].deviceKey
    ensures forall d :: d in r ==> d.deviceKey != "" && d.workerId != "" && d.serial != "" && d.generationFloor >= 1
  {
    if devices == [] then []
    else
      var rest := Normalized(devices[..|devices| - 1]);
      var d := Clean(devices[|devices| - 1]);
      if d.deviceKey == "" || d.workerId == "" || d.serial == "" || d.deviceKey in Keys(rest) then rest
      else rest + [d]
  }

  /** Who asks, and the two clock readings of the call. */
  datatype Request = Request(ownerId: string, username: string, sourceType: string, sourceId: string,
                             now: int, expiresAt: int, allowExisting: bool)

  predicate Blocks(c: Claim, request: Request) {
    c.ownerId != request.ownerId || c.sourceId != request.sourceId || !request.allowExisting
  }

  /** The active claims that stand in the way, in the order of the requested devices. */
  function Conflicts(t: Table, devices: seq<RawDevice>, request: Request): seq<Claim> {
    if devices == [] then []
    else
      var row := ActiveRow(t, devices[|devices| - 1].deviceKey);
      Conflicts(t, devices[..|devices| - 1], request)
        + if row.Some? && Blocks(t[row.value], request) then [t[row.value]] else []
  }

  function NewClaim(t: Table, d: RawDevice, request: Request): Claim {
    Claim(|t|, d.deviceKey, d.workerId, d.serial, request.ownerId,
      if request.username == "" then request.ownerId else request.username,
      if request.sourceType == "" then "unknown" else request.sourceType,
      request.sourceId, Active, Max(d.generationFloor, MaxGeneration(t, d.deviceKey) + 1),
      request.now, request.now, request.expiresAt, None)
  }

  /** One device: extend the claim that is already held, or insert a new one. */
  function Taken(t: Table, d: RawDevice, request: Request): Table {
    var row := ActiveRow(t, d.deviceKey);
    if row.Some? then t[row.value := t[row.value].(heartbeatAt := request.now, expiresAt := request.expiresAt)]
    else t + [NewClaim(t, d, request)]
  }

  function TakenAll(t: Table, devices: seq<RawDevice>, request: Request): Table {
    if devices == [] then t
    else Taken(TakenAll(t, devices[..|devices| - 1], request), devices[|devices| - 1], request)
  }

  // ---- The invariant, and what no transaction may change ----

  /** Generations of a key grow in acquisition order, and only its last claim can be active. */
  ghost predicate Ordered(t: Table) {
    && (forall i :: 0 <= i < |t| ==> t[i].id == i)
    && (forall i, j :: 0 <= i < j < |t| && t[i].deviceKey == t[j].deviceKey ==>
          t[i].generation < t[j].generation && t[i].status != Active)
  }

  /** `b` is a later version of row `a`: its identity is fixed, and once closed it never changes. */
  ghost predicate LaterVersion(a: Claim, b: Claim) {
    && b.id == a.id && b.deviceKey == a.deviceKey && b.workerId == a.workerId && b.serial == a.serial
    && b.ownerId == a.ownerId && b.username == a.username && b.generation == a.generation
    && b.acquiredAt == a.acquiredAt
    && (a.status != Active ==> b == a)
  }

  ghost predicate Evolves(a: Table, b: Table) {
    |a| <= |b| && forall i :: 0 <= i < |a| ==> LaterVersion(a[i], b[i])
  }

  lemma EvolvesTransitive(a: Table, b: Table, c: Table)
    requires Evolves(a, b) && Evolves(b, c)
    ensures Evolves(a, c)
  {
  }

  /** What every UPDATE of the registry does: it touches active rows only and keeps their identity. */
  ghost predicate Edited(a: Table, b: Table) {
    |a| == |b| && forall i :: 0 <= i < |a| ==> LaterVersion(a[i], b[i])
  }

  lemma EditedKeeps(a: Table, b: Table)
    requires Ordered(a) && Edited(a, b)
    ensures Ordered(b) && Evolves(a, b)
  {
  }

  lemma TakenKeeps(t: Table, d: RawDevice, request: Request)
    requires Ordered(t)
    ensures Ordered(Taken(t, d, request)) && Evolves(t, Taken(t, d, request))
  {
    MaxGenerationBounds(t, d.deviceKey);
  }

  lemma {:induction false} TakenAllKeeps(t: Table, devices: seq<RawDevice>, request: Request)
    requires Ordered(t)
    ensures Ordered(TakenAll(t, devices, request)) && Evolves(t, TakenAll(t, devices, request))
  {
    if devices != [] {
      var front := devices[..|devices| - 1];
      TakenAllKeeps(t, front, request);
      TakenKeeps(TakenAll(t, front, request), devices[|devices| - 1], request);
      EvolvesTransitive(t, TakenAll(t, front, request), TakenAll(t, devices, request));
    }
  }

  /** An active claim is the only one on its key and carries the key's largest generation. */
  lemma ActiveIsUniqueAndNewest(t: Table, i: nat, j: nat)
    requires Ordered(t) && i < |t| && j < |t| && i != j
    requires t[i].deviceKey == t[j].deviceKey && t[i].status == Active
    ensures t[j].status != Active && t[j].generation < t[i].generation
  {
  }

  /** The active row of a key is found by any search, since there is only one. */
  lemma ActiveRowIs(t: Table, key: string, row: nat)
    requires Ordered(t) && row < |t| && HoldsKey(t[row], key)
    ensures ActiveRow(t, key) == Some(row)
  {}

  // ---- Calls and runs ----

  /** One call, with the clock readings it makes. */
  datatype Call =
    | Acquire(devices: seq<RawDevice>, owner: string, username: string, kind: string, source: string,
              now: int, expiresAt: int, allowExisting: bool)
    | Look(now: int)
    | Renew(sourceId: string, keys: seq<string>, now: int, expiresAt: int)
    | Transfer(oldSource: string, newSource: string, kind: string, ownerFilter: Option<string>, keys: seq<string>,
               now: int, expiresAt: int)
    | Release(sourceId: string, status: Status, keys: seq<string>, now: int)
    | Revoke(token: Token, now: int)
    | Force(key: string, now: int)

  function RequestOf(call: Call): Request
    requires call.Acquire?
  {
    Request(Strip(call.owner), call.username, call.kind, Strip(call.source), call.now, call.expiresAt,
            call.allowExisting)
  }

  /** The arguments that `acquire` rejects before it looks at the table. */
  predicate BadArguments(call: Call)
    requires call.Acquire?
  {
    Normalized(call.devices) == [] || Strip(call.owner) == "" || Strip(call.source) == ""
  }

  predicate Refused(t: Table, call: Call)
    requires call.Acquire?
  {
    Conflicts(Expire(t, call.now), Normalized(call.devices), RequestOf(call)) != []
  }

  /** The table after a call; a refused call rolls back even its expiry sweep. */
  function After(t: Table, call: Call): Table {
    match call
    case Acquire(_, _, _, _, _, _, _, _) =>
      if BadArguments(call) || Refused(t, call) then t
      else TakenAll(Expire(t, call.now), Normalized(call.devices), RequestOf(call))
    case Look(now) => Expire(t, now)
    case Renew(sourceId, keys, now, expiresAt) => Renewed(t, sourceId, keys, now, expiresAt)
    case Transfer(oldSource, newSource, kind, ownerFilter, keys, now, expiresAt) =>
      if Transferable(Expire(t, now), oldSource, ownerFilter, keys)
      then Transferred(t, oldSource, newSource, kind, now, expiresAt) else t
    case Release(sourceId, status, keys, now) => if status == Active then t else Freed(t, sourceId, status, keys, now)
    case Revoke(token, now) =>
      if Current(t, token, now) && token.id < |t|
      then Revoked(t, token.sourceId, t[token.id].ownerId, t[token.id].workerId, now) else t
    case Force(key, now) =>
      var row := ActiveRow(t, key);
      if row.Some? then CancelRow(t, row.value, now) else t
  }

  function Run(t: Table, calls: seq<Call>): Table {
    if calls == [] then t else After(Run(t, calls[..|calls| - 1]), calls[|calls| - 1])
  }

  lemma ExpireEdits(t: Table, now: int)
    ensures Edited(t, Expire(t, now))
  {
  }

  lemma RenewEdits(t: Table, sourceId: string, keys: seq<string>, now: int, expiresAt: int)
    ensures Edited(t, Renewed(t, sourceId, keys, now, expiresAt))
  {
  }

  lemma TransferEdits(t: Table, oldSource: string, newSource: string, kind: string, now: int, expiresAt: int)
    ensures Edited(t, Transferred(t, oldSource, newSource, kind, now, expiresAt))
  {
  }

  lemma ReleaseEdits(t: Table, sourceId: string, status: Status, keys: seq<string>, now: int)
    ensures Edited(t, Freed(t, sourceId, status, keys, now))
  {
  }

  lemma RevokeEdits(t: Table, sourceId: string, ownerId: string, workerId: string, now: int)
    ensures Edited(t, Revoked(t, sourceId, ownerId, workerId, now))
  {
  }

  lemma CallKeeps(t: Table, call: Call)
    requires Ordered(t)
    ensures Ordered(After(t, call)) && Evolves(t, After(t, call))
  {
    match call
    case Acquire(devices, _, _, _, _, now, _, _) =>
      ExpireEdits(t, now);
      EditedKeeps(t, Expire(t, now));
      TakenAllKeeps(Expire(t, now), Normalized(devices), RequestOf(call));
      if !BadArguments(call) && !Refused(t, call) {
        EvolvesTransitive(t, Expire(t, now), After(t, call));
      }
    case Look(now) =>
      ExpireEdits(t, now);
      EditedKeeps(t, After(t, call));
    case Renew(sourceId, keys, now, expiresAt) =>
      RenewEdits(t, sourceId, keys, now, expiresAt);
      EditedKeeps(t, After(t, call));
    case Transfer(oldSource, newSource, kind, _, _, now, expiresAt) =>
      TransferEdits(t, oldSource, newSource, kind, now, expiresAt);
      EditedKeeps(t, After(t, call));
    case Release(sourceId, status, keys, now) =>
      ReleaseEdits(t, sourceId, status, keys, now);
      EditedKeeps(t, After(t, call));
    case Revoke(token, now) =>
      if token.id < |t| {
        RevokeEdits(t, token.sourceId, t[token.id].ownerId, t[token.id].workerId, now);
      }
      EditedKeeps(t, After(t, call));
    case Force(_, _) =>
      EditedKeeps(t, After(t, call));
  }

  /**
   Over all runs and all clocks: rows are never deleted, their identity and
   generation never change, a closed claim never reopens, and every table is
   ordered.
   */
  lemma {:induction false} RunKeeps(t: Table, calls: seq<Call>)
    requires Ordered(t)
    ensures Ordered(Run(t, calls)) && Evolves(t, Run(t, calls))
  {
    if calls != [] {
      var front := calls[..|calls| - 1];
      RunKeeps(t, front);
      CallKeeps(Run(t, front), calls[|calls| - 1]);
      EvolvesTransitive(t, Run(t, front), Run(t, calls));
    }
  }

  // ---- Fencing ----

  /** The row a token names decides alone whether the token is current. */
  lemma CurrentMeansRow(t: Table, token: Token, now: int)
    requires Ordered(t)
    ensures Current(t, token, now) <==>
      token.id < |t| && Presents(t[token.id], token) && now < t[token.id].expiresAt
  {
    if token.id < |t| {
      assert Expire(t, now)[token.id] in Expire(t, now);
    }
  }

  /** Once its claim has left `active`, a token is dead in every continuation. */
  lemma ClosedTokenStaysDead(t: Table, calls: seq<Call>, token: Token, now: int)
    requires Ordered(t) && token.id < |t| && t[token.id].status != Active
    ensures !Current(Run(t, calls), token, now)
  {
    RunKeeps(t, calls);
    CurrentMeansRow(Run(t, calls), token, now);
  }

  /** Only an accepted transfer that moves the row can bring it under another source. */
  lemma SourceChangesByTransfer(t: Table, call: Call, row: nat, source: string)
    requires Ordered(t) && row < |t|
    requires row < |After(t, call)| && t[row].sourceId != source && After(t, call)[row].sourceId == source
    ensures call.Transfer? && call.newSource == source
    ensures Transferable(Expire(t, call.now), call.oldSource, call.ownerFilter, call.keys)
    ensures UnderSource(Expire(t, call.now)[row], call.oldSource, [])
  {
    if call.Acquire? {
      TakenAllSource(Expire(t, call.now), Normalized(call.devices), RequestOf(call), row);
    }
  }

  lemma {:induction false} TakenAllSource(t: Table, devices: seq<RawDevice>, request: Request, row: nat)
    requires row < |t|
    ensures row < |TakenAll(t, devices, request)| && TakenAll(t, devices, request)[row].sourceId == t[row].sourceId
  {
    if devices != [] {
      TakenAllSource(t, devices[..|devices| - 1], request, row);
    }
  }

  /** Call `i` of the run finds the row under another source than `source`, and leaves it under `source`. */
  ghost predicate BringsUnder(t: Table, calls: seq<Call>, i: int, row: nat, source: string)
    requires 0 <= i < |calls|
  {
    var before := Run(t, calls[..i]);
    && row < |before| && calls[i].Transfer? && calls[i].newSource == source
    && Transferable(Expire(before, calls[i].now), calls[i].oldSource, calls[i].ownerFilter, calls[i].keys)
    && UnderSource(Expire(before, calls[i].now)[row], calls[i].oldSource, [])
  }

  /** A row comes under a source it did not have only by such a transfer. */
  lemma {:induction false} SourceReturnsByTransfer(t: Table, calls: seq<Call>, row: nat, source: string)
    requires Ordered(t) && row < |t| && t[row].sourceId != source
    requires row < |Run(t, calls)| && Run(t, calls)[row].sourceId == source
    ensures exists i :: 0 <= i < |calls| && BringsUnder(t, calls, i, row, source)
    decreases |calls|
  {
    if calls != [] {
      var front, last := calls[..|calls| - 1], calls[|calls| - 1];
      RunKeeps(t, front);
      if Run(t, front)[row].sourceId == source {
        SourceReturnsByTransfer(t, front, row, source);
        var i :| 0 <= i < |front| && BringsUnder(t, front, i, row, source);
        assert front[..i] == calls[..i];
        assert BringsUnder(t, calls, i, row, source);
      } else {
        SourceChangesByTransfer(Run(t, front), last, row, source);
        assert BringsUnder(t, calls, |calls| - 1, row, source);
      }
    }
  }

  /**
   The guard under which a call makes a moved token current again: an accepted
   transfer back into the token's source, while the row still presents
   everything but that source.
   */
  predicate Revives(t: Table, call: Call, token: Token) {
    && call.Transfer? && call.newSource == token.sourceId && token.id < |t|
    && Transferable(Expire(t, call.now), call.oldSource, call.ownerFilter, call.keys)
    && Presents(Expire(t, call.now)[token.id], token.(sourceId := call.oldSource))
  }

  /** A reviving call makes the token current until its new expiry. */
  lemma TransferBackRevives(t: Table, token: Token, call: Call, now: int)
    requires Ordered(t) && Revives(t, call, token)
    ensures Current(After(t, call), token, now) <==> now < call.expiresAt
  {
    CallKeeps(t, call);
    CurrentMeansRow(After(t, call), token, now);
  }

  /** A token whose claim was moved to another source is current again only after a call that revives it. */
  lemma {:induction false} MovedTokenNeedsTransferBack(t: Table, calls: seq<Call>, token: Token, now: int)
    requires Ordered(t) && token.id < |t| && t[token.id].sourceId != token.sourceId
    requires Current(Run(t, calls), token, now)
    ensures exists i :: 0 <= i < |calls| && Revives(Run(t, calls[..i]), calls[i], token)
  {
    RunKeeps(t, calls);
    CurrentMeansRow(Run(t, calls), token, now);
    SourceReturnsByTransfer(t, calls, token.id, token.sourceId);
    var i :| 0 <= i < |calls| && BringsUnder(t, calls, i, token.id, token.sourceId);
    RunSplit(t, calls, i);
    RunKeeps(t, calls[..i]);
    RunKeeps(Run(t, calls[..i]), calls[i..]);
  }

  lemma {:induction false} RunSplit(t: Table, calls: seq<Call>, i: nat)
    requires i <= |calls|
    ensures Run(t, calls) == Run(Run(t, calls[..i]), calls[i..])
    decreases |calls|
  {
    if i == |calls| {
      assert calls[..i] == calls;
    } else {
      var front := calls[..|calls| - 1];
      RunSplit(t, front, i);
      assert front[..i] == calls[..i];
      assert calls[i..][..|calls| - i - 1] == front[i..];
    }
  }

  /** The token is current after the first `i` calls of the run. */
  predicate CurrentAfter(t: Table, calls: seq<Call>, i: int, token: Token, now: int) {
    0 <= i <= |calls| && Current(Run(t, calls[..i]), token, now)
  }

  /** Call `i` of the run revives the token. */
  predicate RevivedBy(t: Table, calls: seq<Call>, i: int, token: Token) {
    0 <= i < |calls| && Revives(Run(t, calls[..i]), calls[i], token)
  }

  lemma {:induction false} RevivalIsNeeded(t: Table, calls: seq<Call>, token: Token, i: int, now: int)
    requires Ordered(t) && token.id < |t| && t[token.id].sourceId != token.sourceId
    requires CurrentAfter(t, calls, i, token, now)
    ensures exists j :: RevivedBy(t, calls, j, token)
  {
    hide Current, Revives, Ordered, Run;
    MovedTokenNeedsTransferBack(t, calls[..i], token, now);
    var j :| 0 <= j < i && Revives(Run(t, calls[..i][..j]), calls[..i][j], token);
    assert calls[..i][..j] == calls[..j];
    assert RevivedBy(t, calls, j, token);
  }

  lemma {:induction false} RevivalIsEnough(t: Table, calls: seq<Call>, token: Token, i: int)
    requires Ordered(t) && RevivedBy(t, calls, i, token)
    ensures CurrentAfter(t, calls, i + 1, token, calls[i].expiresAt - 1)
  {
    hide Current, Ordered;
    RunKeeps(t, calls[..i]);
    TransferBackRevives(Run(t, calls[..i]), token, calls[i], calls[i].expiresAt - 1);
    assert calls[..i + 1][..i] == calls[..i];
  }

  /**
   Exactly when a token whose claim was moved away can cancel again in a run:
   if and only if some call of the run revives it.
   */
  lemma {:induction false} MovedTokenRevivesExactly(t: Table, calls: seq<Call>, token: Token)
    requires Ordered(t) && token.id < |t| && t[token.id].sourceId != token.sourceId
    ensures (exists i, now :: CurrentAfter(t, calls, i, token, now)) <==> (exists i :: RevivedBy(t, calls, i, token))
  {
    hide Ordered, CurrentAfter, Run;
    if i, now :| CurrentAfter(t, calls, i, token, now) {
      RevivalIsNeeded(t, calls, token, i, now);
    }
    if i :| RevivedBy(t, calls, i, token) {
      RevivalIsEnough(t, calls, token, i);
    }
  }

  /**
   The shortest run from an empty registry in which a token dies with a change
   of source and is current again later: acquire, transfer, transfer back.
   */
  lemma MovedTokenCanCancelAgain()
    ensures exists acquire: Call, out: Call, back: Call, token: Token, now: int ::
      && Current(Run([], [acquire]), token, now)
      && !Current(Run([], [acquire, out]), token, now)
      && Current(Run([], [acquire, out, back]), token, now)
  {
    var acquire := Acquire([RawDevice("k", "w", "s", 1)], "o", "u", "job", "A", 0, 100, true);
    var out := Transfer("A", "B", "job", None, [], 0, 100);
    var back := Transfer("B", "A", "job", None, [], 0, 100);
    FirstAcquire();
    MoveAndBack();
    hide After, Current;
    RunOfThree([], acquire, out, back);
    assert Current(Run([], [acquire]), Token("k", 0, 1, "A"), 0);
  }

  lemma MoveAndBack()
    ensures var t := [Claim(0, "k", "w", "s", "o", "u", "job", "A", Active, 1, 0, 0, 100, None)];
            var token := Token("k", 0, 1, "A");
            var moved := After(t, Transfer("A", "B", "job", None, [], 0, 100));
            && Current(t, token, 0) && !Current(moved, token, 0)
            && Current(After(moved, Transfer("B", "A", "job", None, [], 0, 100)), token, 0)
  {
    var c := Claim(0, "k", "w", "s", "o", "u", "job", "A", Active, 1, 0, 0, 100, None);
    var t, token := [c], Token("k", 0, 1, "A");
    var out, back := Transfer("A", "B", "job", None, [], 0, 100), Transfer("B", "A", "job", None, [], 0, 100);
    CurrentMeansRow(t, token, 0);
    SelectExact(Expire(t, 0), (x: Claim) => UnderSource(x, "A", []), c);
    assert Transferable(Expire(t, 0), "A", None, []);
    var moved := After(t, out);
    CallKeeps(t, out);
    CurrentMeansRow(moved, token, 0);
    SelectExact(Expire(moved, 0), (x: Claim) => UnderSource(x, "B", []), moved[0]);
    assert Transferable(Expire(moved, 0), "B", None, []);
    TransferBackRevives(moved, token, back, 0);
  }

  /** The table after one device was granted to an empty registry. */
  lemma FirstAcquire()
    ensures After([], Acquire([RawDevice("k", "w", "s", 1)], "o", "u", "job", "A", 0, 100, true))
         == [Claim(0, "k", "w", "s", "o", "u", "job", "A", Active, 1, 0, 0, 100, None)]
  {
    var d := RawDevice("k", "w", "s", 1);
    StripKeeps("k");
    StripKeeps("w");
    StripKeeps("s");
    StripKeeps("o");
    StripKeeps("A");
    assert [d][..0] == [];
    assert Clean(d) == d && Keys(Normalized([])) == {};
    assert Normalized([d]) == [d];
    assert Expire([], 0) == [];
  }

  lemma RunOfThree(t: Table, a: Call, b: Call, c: Call)
    ensures Run(t, [a]) == After(t, a)
    ensures Run(t, [a, b]) == After(After(t, a), b)
    ensures Run(t, [a, b, c]) == After(After(After(t, a), b), c)
  {
    hide After;
    assert [a][..0] == [] && [a, b][..1] == [a] && [a, b, c][..2] == [a, b];
  }
}
