/**
 The registry object (foundation/device_claims.py): each method is one
 transaction on `rows`, proved against the table functions of DeviceClaims.
 */
module DeviceClaimRegistry {
  import opened Wrappers
  import opened Strings
  import opened DeviceClaims
  import Rows = DeviceClaimRows

  type Error = string

  lemma PrefixStep<T>(s: seq<T>, i: nat)
    requires i < |s|
    ensures s[..i + 1][..i] == s[..i] && s[..i + 1][i] == s[i] && |s[..i + 1]| == i + 1
  {
  }

  /** Taking one device leaves the active claims of all other keys as they are. */
  lemma TakenElsewhere(t: Table, d: RawDevice, request: Request, key: string)
    requires Ordered(t) && key != d.deviceKey
    ensures ActiveRow(Taken(t, d, request), key) == ActiveRow(t, key)
    ensures ActiveRow(t, key).Some? ==>
      Taken(t, d, request)[ActiveRow(t, key).value] == t[ActiveRow(t, key).value]
  {
    TakenKeeps(t, d, request);
    var after := Taken(t, d, request);
    if ActiveRow(t, key).Some? {
      ActiveRowIs(after, key, ActiveRow(t, key).value);
    }
  }

  method NormalizeDevices(devices: seq<RawDevice>) returns (normalized: Result<seq<RawDevice>, Error>)
    ensures Normalized(devices) == [] <==> normalized.Err?
    ensures normalized.Ok? ==> normalized.value == Normalized(devices)
  {
    var kept: seq<RawDevice> := [];
    var seen: set<string> := {};
    for i := 0 to |devices|
      invariant kept == Normalized(devices[..i])
      invariant seen == Keys(kept)
    {
      PrefixStep(devices, i);
      var item := devices[i];
      var key, worker, serial := Strip(item.deviceKey), Strip(item.workerId), Strip(item.serial);
      if key == "" || worker == "" || serial == "" || key in seen {
        continue;
      }
      seen := seen + {key};
      kept := kept + [RawDevice(key, worker, serial, Max(1, item.generationFloor))];
    }
    assert devices[..|devices|] == devices;
    normalized := if kept == [] then Err("at least one device claim is required") else Ok(kept);
  }

  class Registry {
    var rows: Table

    ghost predicate Valid()
      reads this
    {
      Ordered(rows)
    }

    constructor ()
      ensures Valid() && rows == []
    {
      rows := [];
    }

    /**
     Acquires all requested devices or none. On success the records are, in
     request order, the active rows of the requested keys, held by the caller.
     */
    method Acquire(devices: seq<RawDevice>, owner: string, username: string, kind: string, source: string,
                   now: int, clock: int, ttlSeconds: int, allowExisting: bool)
      returns (result: Result<(bool, seq<Claim>), Error>)
      requires Valid()
      modifies this
      ensures Valid() && Evolves(old(rows), rows)
      ensures var call := DeviceClaims.Acquire(devices, owner, username, kind, source, now, ExpiryAt(clock, ttlSeconds),
                                            allowExisting);
        && rows == After(old(rows), call)
        && (result.Err? <==> BadArguments(call))
        && (result.Ok? ==> (result.value.0 <==> !Refused(old(rows), call)))
        && (result.Ok? && !result.value.0 ==>
              rows == old(rows) && result.value.1 == Conflicts(Expire(rows, now), Normalized(devices), RequestOf(call)))
        && (result.Ok? ==> (!result.value.0 <==>
              exists d, c :: d in Normalized(devices) && Rows.StandsInTheWay(old(rows), call, d, c)))
        && (result.Ok? && result.value.0 ==>
              forall k :: 0 <= k < |result.value.1| ==>
                SpelledOut(old(rows), call, Normalized(devices), result.value.1, k))
        && (result.Ok? && result.value.0 ==>
              Granted(rows, Normalized(devices), result.value.1, Strip(owner), Strip(source),
                      ExpiryAt(clock, ttlSeconds)))
    {
      ghost var call := DeviceClaims.Acquire(devices, owner, username, kind, source, now, ExpiryAt(clock, ttlSeconds),
                                            allowExisting);
      CallKeeps(rows, call);
      Rows.AcquireRefused(rows, call);
      ghost var start := rows;
      var normalized := NormalizeDevices(devices);
      if normalized.Err? {
        return Err(normalized.error);
      }
      var requested := normalized.value;
      var request := Request(Strip(owner), username, kind, Strip(source), now,
                             ExpiryAt(clock, ttlSeconds), allowExisting);
      if request.ownerId == "" || request.sourceId == "" {
        return Err("device claim owner and source are required");
      }
      var begin := rows;
      rows := Expire(rows, now);
      ExpireEdits(begin, now);
      EditedKeeps(begin, rows);
      var conflicts, existing := FindConflicts(requested, request);
      if conflicts != [] {
        rows := begin;
        return Ok((false, conflicts));
      }
      var records := TakeAll(requested, request, existing);
      result := Ok((true, records));
      GrantedSpelledOut(start, call, records);
    }

    method FindConflicts(requested: seq<RawDevice>, request: Request)
      returns (conflicts: seq<Claim>, existing: map<string, nat>)
      ensures conflicts == Conflicts(rows, requested, request)
      ensures forall d :: d in requested ==>
        ActiveRow(rows, d.deviceKey) == if d.deviceKey in existing then Some(existing[d.deviceKey]) else None
    {
      conflicts, existing := [], map[];
      for i := 0 to |requested|
        invariant conflicts == Conflicts(rows, requested[..i], request)
        invariant forall k :: k in existing ==> ActiveRow(rows, k) == Some(existing[k])
        invariant forall j :: 0 <= j < i ==>
          (ActiveRow(rows, requested[j].deviceKey).Some? ==> requested[j].deviceKey in existing)
      {
        PrefixStep(requested, i);
        var row := ActiveRow(rows, requested[i].deviceKey);
        if row.Some? {
          existing := existing[requested[i].deviceKey := row.value];
          if Blocks(rows[row.value], request) {
            conflicts := conflicts + [rows[row.value]];
          }
        }
      }
      assert requested[..|requested|] == requested;
    }

    /** The body of the record loop: extend the existing claim, or insert a new one. */
    method TakeOne(d: RawDevice, request: Request, existing: Option<nat>) returns (record: Claim)
      requires existing == ActiveRow(rows, d.deviceKey)
      modifies this
      ensures rows == Taken(old(rows), d, request)
      ensures TakenRow(old(rows), d.deviceKey) < |rows| && record == rows[TakenRow(old(rows), d.deviceKey)]
    {
      if existing.Some? {
        record := rows[existing.value].(heartbeatAt := request.now, expiresAt := request.expiresAt);
        rows := rows[existing.value := record];
      } else {
        record := NewClaim(rows, d, request);
        rows := rows + [record];
      }
    }

    method TakeAll(requested: seq<RawDevice>, request: Request, existing: map<string, nat>)
      returns (records: seq<Claim>)
      requires Valid() && Conflicts(rows, requested, request) == []
      requires forall i, j :: 0 <= i < j < |requested| ==> requested[i].deviceKey != requested[j].deviceKey
      requires forall d :: d in requested ==>
        ActiveRow(rows, d.deviceKey) == if d.deviceKey in existing then Some(existing[d.deviceKey]) else None
      modifies this
      ensures Valid() && rows == TakenAll(old(rows), requested, request)
      ensures Granted(rows, requested, records, request.ownerId, request.sourceId, request.expiresAt)
    {
      hide Taken, NewClaim, Blocks, Conflicts, Progress, TakenAll, Granted, Evolves, Ordered;
      records := [];
      ghost var begin := rows;
      NoConflictMeans(begin, requested, request);
      ProgressStart(begin, requested, request);
      for i := 0 to |requested|
        invariant Progress(begin, rows, requested, i, records, request)
      {
        ProgressStep(begin, rows, requested, i, records, request);
        var d := requested[i];
        assert d in requested;
        var record := TakeOne(d, request, if d.deviceKey in existing then Some(existing[d.deviceKey]) else None);
        records := records + [record];
      }
      ProgressEnd(begin, rows, requested, records, request);
    }

    /** `active_claim`, `list_active` and `list_by_source` sweep expired claims and select active ones. */
    method List(matches: Claim -> bool, now: int) returns (claims: seq<Claim>)
      requires Valid()
      modifies this
      ensures Valid() && Evolves(old(rows), rows) && rows == After(old(rows), Look(now))
      ensures forall c :: c in claims <==> c in rows && c.status == Active && now < c.expiresAt && matches(c)
    {
      CallKeeps(rows, Look(now));
      rows := Expire(rows, now);
      claims := Select(rows, (c: Claim) => c.status == Active && matches(c));
      forall c {
        SelectExact(rows, (x: Claim) => x.status == Active && matches(x), c);
      }
    }

    method RenewClaims(sourceId: string, keys: seq<string>, now: int, clock: int, ttlSeconds: int) returns (count: nat)
      requires Valid()
      modifies this
      ensures Valid() && Evolves(old(rows), rows)
      ensures rows == After(old(rows), Renew(sourceId, keys, now, ExpiryAt(clock, ttlSeconds)))
      ensures count == |Select(Expire(old(rows), now), (c: Claim) => UnderSource(c, sourceId, keys))|
    {
      var expiresAt := ExpiryAt(clock, ttlSeconds);
      CallKeeps(rows, Renew(sourceId, keys, now, expiresAt));
      var begin := rows;
      count := |Select(Expire(rows, now), (c: Claim) => UnderSource(c, sourceId, keys))|;
      rows := Renewed(begin, sourceId, keys, now, expiresAt);
    }

    method TransferClaims(oldSource: string, newSource: string, kind: string, owner: Option<string>, keys: seq<string>,
                          now: int, clock: int, ttlSeconds: int) returns (count: nat)
      requires Valid()
      modifies this
      ensures Valid() && Evolves(old(rows), rows)
      ensures rows ==
        After(old(rows), Transfer(oldSource, newSource, kind, owner, keys, now, ExpiryAt(clock, ttlSeconds)))
      ensures count > 0 <==> Transferable(Expire(old(rows), now), oldSource, owner, keys)
      ensures count == 0 ==> rows == old(rows)
    {
      var expiresAt := ExpiryAt(clock, ttlSeconds);
      CallKeeps(rows, Transfer(oldSource, newSource, kind, owner, keys, now, expiresAt));
      var begin := rows;
      rows := Expire(rows, now);
      var found := Select(rows, (c: Claim) => UnderSource(c, oldSource, []));
      if found == [] {
        rows := begin;
        return 0;
      }
      if owner.Some? && owner.value != "" && exists c :: c in found && c.ownerId != owner.value {
        rows := begin;
        return 0;
      }
      if keys != [] && (set c | c in found :: c.deviceKey) != set k | k in keys {
        rows := begin;
        return 0;
      }
      rows := Transferred(begin, oldSource, newSource, kind, now, expiresAt);
      count := |found|;
    }

    method ReleaseClaims(sourceId: string, status: Status, keys: seq<string>, now: int)
      returns (count: Result<nat, Error>)
      requires Valid()
      modifies this
      ensures Valid() && Evolves(old(rows), rows)
      ensures rows == After(old(rows), Release(sourceId, status, keys, now))
      ensures count.Err? <==> status == Active
      ensures count.Ok? ==> count.value == |Select(old(rows), (c: Claim) => UnderSource(c, sourceId, keys))|
    {
      CallKeeps(rows, Release(sourceId, status, keys, now));
      if status == Active {
        return Err("invalid device claim release status");
      }
      count := Ok(|Select(rows, (c: Claim) => UnderSource(c, sourceId, keys))|);
      rows := Freed(rows, sourceId, status, keys, now);
    }

    /** Revokes exactly the operation the token names; any other token changes nothing. */
    method ReleaseOperationIfCurrent(token: Token, now: int) returns (released: bool)
      requires Valid()
      modifies this
      ensures Valid() && Evolves(old(rows), rows) && rows == After(old(rows), Revoke(token, now))
      ensures released <==> Current(old(rows), token, now)
      ensures !released ==> rows == old(rows)
      ensures released ==> token.id < |rows| && rows[token.id].status == Cancelled
      ensures released ==> forall i :: 0 <= i < |rows| && old(rows)[i].sourceId != token.sourceId ==>
        rows[i] == Expire(old(rows), now)[i]
    {
      CallKeeps(rows, Revoke(token, now));
      CurrentMeansRow(rows, token, now);
      var begin := rows;
      rows := Expire(rows, now);
      var found := Select(rows, (c: Claim) => Presents(c, token));
      forall c {
        SelectExact(rows, (x: Claim) => Presents(x, token), c);
      }
      if found == [] {
        rows := begin;
        return false;
      }
      var row := found[0];
      assert row in found;
      rows := Revoked(begin, token.sourceId, row.ownerId, row.workerId, now);
      released := true;
    }

    method ForceRelease(key: string, now: int) returns (claim: Option<Claim>)
      requires Valid()
      modifies this
      ensures Valid() && Evolves(old(rows), rows) && rows == After(old(rows), Force(key, now))
      ensures claim.None? <==> forall c :: c in old(rows) ==> !HoldsKey(c, key)
      ensures claim.Some? ==> claim.value in old(rows) && HoldsKey(claim.value, key)
      ensures forall c :: c in rows ==> !HoldsKey(c, key)
    {
      CallKeeps(rows, Force(key, now));
      var row := ActiveRow(rows, key);
      claim := None;
      if row.Some? {
        claim := Some(rows[row.value]);
        assert claim.value in rows;
        rows := CancelRow(rows, row.value, now);
      }
    }
  }

  /** `c` is the active row of a requested device's key, held by the caller until `expiresAt`. */
  ghost predicate GrantedAt(t: Table, d: RawDevice, c: Claim, owner: string, source: string, expiresAt: int) {
    var row := ActiveRow(t, d.deviceKey);
    && row.Some? && t[row.value] == c
    && c.ownerId == owner && c.sourceId == source && c.expiresAt == expiresAt
  }

  ghost predicate Granted(t: Table, requested: seq<RawDevice>, records: seq<Claim>,
                            owner: string, source: string, expiresAt: int) {
    |records| == |requested| &&
    forall i :: 0 <= i < |records| ==> GrantedAt(t, requested[i], records[i], owner, source, expiresAt)
  }

  /** Record `k` is the row of its device, in terms of the table before and the arguments alone. */
  ghost predicate SpelledOut(t: Table, call: Call, devices: seq<RawDevice>, records: seq<Claim>, k: nat)
    requires call.Acquire? && k < |records|
  {
    && k < |devices| && records[k].deviceKey == devices[k].deviceKey && records[k].status == Active
    && Rows.IsGranted(t, devices[k], call, records[k].id, records[k])
  }

  lemma GrantedSpelledOut(t: Table, call: Call, records: seq<Claim>)
    requires Ordered(t) && call.Acquire? && !BadArguments(call) && !Refused(t, call)
    requires Granted(After(t, call), Normalized(call.devices), records,
                     Strip(call.owner), Strip(call.source), call.expiresAt)
    ensures forall k :: 0 <= k < |records| ==> SpelledOut(t, call, Normalized(call.devices), records, k)
  {
    CallKeeps(t, call);
    hide After, Normalized, Rows.IsGranted, Refused, BadArguments, Strip;
    var after, devices := After(t, call), Normalized(call.devices);
    forall k | 0 <= k < |records|
      ensures SpelledOut(t, call, devices, records, k)
    {
      assert GrantedAt(after, devices[k], records[k], Strip(call.owner), Strip(call.source), call.expiresAt);
      var row := ActiveRow(after, devices[k].deviceKey).value;
      Rows.AcquiredRow(t, call, devices[k], row);
    }
  }

  ghost predicate SameActive(a: Table, b: Table, key: string) {
    && ActiveRow(b, key) == ActiveRow(a, key)
    && (ActiveRow(a, key).Some? ==> b[ActiveRow(a, key).value] == a[ActiveRow(a, key).value])
  }

  function TakenRow(t: Table, key: string): nat {
    if ActiveRow(t, key).Some? then ActiveRow(t, key).value else |t|
  }

  /** The row that `Taken` extends or inserts is the active one afterwards. */
  lemma TakenActive(t: Table, d: RawDevice, request: Request)
    requires Ordered(t)
    ensures Ordered(Taken(t, d, request))
    ensures TakenRow(t, d.deviceKey) < |Taken(t, d, request)|
    ensures ActiveRow(Taken(t, d, request), d.deviceKey) == Some(TakenRow(t, d.deviceKey))
  {
    TakenKeeps(t, d, request);
    ActiveRowIs(Taken(t, d, request), d.deviceKey, TakenRow(t, d.deviceKey));
  }

  lemma TakenIsGranted(t: Table, d: RawDevice, request: Request)
    requires Ordered(t)
    requires ActiveRow(t, d.deviceKey).Some? ==> !Blocks(t[ActiveRow(t, d.deviceKey).value], request)
    ensures TakenRow(t, d.deviceKey) < |Taken(t, d, request)|
    ensures GrantedAt(Taken(t, d, request), d, Taken(t, d, request)[TakenRow(t, d.deviceKey)],
                      request.ownerId, request.sourceId, request.expiresAt)
  {
    TakenActive(t, d, request);
  }

  lemma GrantedStep(t: Table, front: seq<RawDevice>, records: seq<Claim>, d: RawDevice, request: Request)
    requires Ordered(t) && Granted(t, front, records, request.ownerId, request.sourceId, request.expiresAt)
    requires forall f :: f in front ==> f.deviceKey != d.deviceKey
    ensures Granted(Taken(t, d, request), front, records, request.ownerId, request.sourceId, request.expiresAt)
  {
    forall i | 0 <= i < |front|
      ensures GrantedAt(Taken(t, d, request), front[i], records[i],
                          request.ownerId, request.sourceId, request.expiresAt)
    {
      assert front[i] in front;
      TakenElsewhere(t, d, request, front[i].deviceKey);
    }
  }

  lemma SameActiveStep(begin: Table, t: Table, requested: seq<RawDevice>, i: nat, request: Request)
    requires Ordered(t) && i < |requested|
    requires forall j, k :: 0 <= j < k < |requested| ==> requested[j].deviceKey != requested[k].deviceKey
    requires forall j :: i <= j < |requested| ==> SameActive(begin, t, requested[j].deviceKey)
    ensures forall j :: i < j < |requested| ==>
      SameActive(begin, Taken(t, requested[i], request), requested[j].deviceKey)
  {
    forall j | i < j < |requested|
      ensures SameActive(begin, Taken(t, requested[i], request), requested[j].deviceKey)
    {
      assert SameActive(begin, t, requested[j].deviceKey);
      TakenElsewhere(t, requested[i], request, requested[j].deviceKey);
    }
  }

  /** The state of the record loop before device `i`. */
  ghost predicate Progress(begin: Table, t: Table, requested: seq<RawDevice>, i: nat, records: seq<Claim>,
                             request: Request) {
    && i <= |requested| && Ordered(t) && t == TakenAll(begin, requested[..i], request)
    && Granted(t, requested[..i], records, request.ownerId, request.sourceId, request.expiresAt)
    && forall j :: i <= j < |requested| ==> SameActive(begin, t, requested[j].deviceKey)
  }

  lemma ProgressStart(begin: Table, requested: seq<RawDevice>, request: Request)
    requires Ordered(begin)
    ensures Progress(begin, begin, requested, 0, [], request)
  {
    hide Ordered;
  }

  lemma ProgressEnd(begin: Table, t: Table, requested: seq<RawDevice>, records: seq<Claim>, request: Request)
    requires Progress(begin, t, requested, |requested|, records, request)
    ensures Ordered(t) && t == TakenAll(begin, requested, request)
    ensures Granted(t, requested, records, request.ownerId, request.sourceId, request.expiresAt)
  {
    hide Ordered, TakenAll, Granted;
    assert requested[..|requested|] == requested;
  }

  lemma ProgressStep(begin: Table, t: Table, requested: seq<RawDevice>, i: nat, records: seq<Claim>, request: Request)
    requires Progress(begin, t, requested, i, records, request) && i < |requested|
    requires forall j, k :: 0 <= j < k < |requested| ==> requested[j].deviceKey != requested[k].deviceKey
    requires forall d :: d in requested && ActiveRow(begin, d.deviceKey).Some? ==>
      !Blocks(begin[ActiveRow(begin, d.deviceKey).value], request)
    ensures SameActive(begin, t, requested[i].deviceKey)
    ensures TakenRow(t, requested[i].deviceKey) < |Taken(t, requested[i], request)|
    ensures Progress(begin, Taken(t, requested[i], request), requested, i + 1,
                     records + [Taken(t, requested[i], request)[TakenRow(t, requested[i].deviceKey)]], request)
  {
    hide Taken, Blocks;
    var d := requested[i];
    PrefixStep(requested, i);
    assert d in requested && SameActive(begin, t, d.deviceKey);
    TakenActive(t, d, request);
    TakenIsGranted(t, d, request);
    GrantedStep(t, requested[..i], records, d, request);
    SameActiveStep(begin, t, requested, i, request);
    assert requested[..i] + [d] == requested[..i + 1];
  }

  lemma {:induction false} NoConflictMeans(t: Table, devices: seq<RawDevice>, request: Request)
    requires Conflicts(t, devices, request) == []
    ensures forall d :: d in devices && ActiveRow(t, d.deviceKey).Some? ==>
      !Blocks(t[ActiveRow(t, d.deviceKey).value], request)
  {
    if devices != [] {
      NoConflictMeans(t, devices[..|devices| - 1], request);
    }
  }

  /** A granted claim can be revoked by its own token until it expires, and a successor's token differs. */
  lemma GrantedIsCurrent(t: Table, requested: seq<RawDevice>, records: seq<Claim>, owner: string, source: string,
                         expiresAt: int, i: nat, now: int)
    requires Ordered(t) && Granted(t, requested, records, owner, source, expiresAt) && i < |records|
    ensures Current(t, Token(requested[i].deviceKey, records[i].id, records[i].generation, source), now) <==>
      now < expiresAt
  {
    CurrentMeansRow(t, Token(requested[i].deviceKey, records[i].id, records[i].generation, source), now);
  }
}
