/**
 What each call of the device claim registry means for the tokens in
 circulation (foundation/device_claims.py): exactly which of them are current
 afterwards, at any later time. The clock may go backwards.
 */
module DeviceClaimTokens {
  import opened DeviceClaims

  /** The token survives the expiry sweep at `now` and is still current at `later`. */
  predicate Survives(t: Table, token: Token, now: int, later: int) {
    Current(t, token, now) && Current(t, token, later)
  }

  predicate Covers(token: Token, sourceId: string, keys: seq<string>) {
    token.sourceId == sourceId && (keys != [] ==> token.deviceKey in keys)
  }

  /** A listing only expires. */
  lemma LookedAt(t: Table, token: Token, now: int, later: int)
    requires Ordered(t)
    ensures Current(After(t, Look(now)), token, later) <==> Survives(t, token, now, later)
  {
    CallKeeps(t, Look(now));
    CurrentMeansRow(t, token, now);
    CurrentMeansRow(t, token, later);
    CurrentMeansRow(After(t, Look(now)), token, later);
  }

  /** A renewal moves the expiry of exactly the current tokens of its source and keys. */
  lemma Renewal(t: Table, token: Token, sourceId: string, keys: seq<string>, now: int, expiresAt: int, later: int)
    requires Ordered(t)
    ensures Current(After(t, Renew(sourceId, keys, now, expiresAt)), token, later) <==>
      if Covers(token, sourceId, keys) then Current(t, token, now) && later < expiresAt
      else Survives(t, token, now, later)
  {
    var after := After(t, Renew(sourceId, keys, now, expiresAt));
    CallKeeps(t, Renew(sourceId, keys, now, expiresAt));
    CurrentMeansRow(t, token, now);
    CurrentMeansRow(t, token, later);
    CurrentMeansRow(after, token, later);
  }

  /** An accepted transfer renames exactly the current tokens of the old source; the old names are void. */
  lemma TransferRenames(t: Table, token: Token, call: Call, later: int)
    requires Ordered(t) && call.Transfer?
    requires Transferable(Expire(t, call.now), call.oldSource, call.ownerFilter, call.keys)
    ensures Current(After(t, call), token, later) <==>
      if token.sourceId == call.newSource && Current(t, token.(sourceId := call.oldSource), call.now)
        then later < call.expiresAt
      else token.sourceId != call.oldSource && Survives(t, token, call.now, later)
  {
    CallKeeps(t, call);
    CurrentMeansRow(t, token, call.now);
    CurrentMeansRow(t, token.(sourceId := call.oldSource), call.now);
    CurrentMeansRow(t, token, later);
    CurrentMeansRow(After(t, call), token, later);
  }

  /** A release ends exactly the tokens of its source and keys, and expires nothing. */
  lemma ReleaseEnds(t: Table, token: Token, sourceId: string, status: Status, keys: seq<string>, now: int, later: int)
    requires Ordered(t) && status != Active
    ensures Current(After(t, Release(sourceId, status, keys, now)), token, later) <==>
      !Covers(token, sourceId, keys) && Current(t, token, later)
  {
    CallKeeps(t, Release(sourceId, status, keys, now));
    CurrentMeansRow(t, token, later);
    CurrentMeansRow(After(t, Release(sourceId, status, keys, now)), token, later);
  }

  /** The row of a current token. */
  ghost function RowOf(t: Table, token: Token, now: int): Claim
    requires Ordered(t) && Current(t, token, now)
  {
    CurrentMeansRow(t, token, now);
    t[token.id]
  }

  /** A token that is current cancels the tokens of its source, owner and worker, and no other. */
  lemma RevocationEnds(t: Table, holder: Token, token: Token, now: int, later: int)
    requires Ordered(t) && Current(t, holder, now)
    ensures Current(After(t, Revoke(holder, now)), token, later) <==>
      && Survives(t, token, now, later)
      && (token.sourceId == holder.sourceId ==>
            RowOf(t, token, now).ownerId != RowOf(t, holder, now).ownerId
            || RowOf(t, token, now).workerId != RowOf(t, holder, now).workerId)
  {
    CallKeeps(t, Revoke(holder, now));
    CurrentMeansRow(t, holder, now);
    CurrentMeansRow(t, token, now);
    CurrentMeansRow(t, token, later);
    CurrentMeansRow(After(t, Revoke(holder, now)), token, later);
  }

  /** A forced release ends exactly the tokens of its device. */
  lemma ForceEnds(t: Table, token: Token, key: string, now: int, later: int)
    requires Ordered(t)
    ensures Current(After(t, Force(key, now)), token, later) <==> token.deviceKey != key && Current(t, token, later)
  {
    CallKeeps(t, Force(key, now));
    CurrentMeansRow(t, token, later);
    CurrentMeansRow(After(t, Force(key, now)), token, later);
  }

  /** Granting devices leaves the rows of all other devices as they are. */
  lemma {:induction false} TakenAllOthers(t: Table, devices: seq<RawDevice>, request: Request, row: nat)
    requires row < |TakenAll(t, devices, request)| && TakenAll(t, devices, request)[row].deviceKey !in Keys(devices)
    ensures row < |t| && TakenAll(t, devices, request)[row] == t[row]
    decreases |devices|
  {
    if devices != [] {
      var front, d := devices[..|devices| - 1], devices[|devices| - 1];
      var before := TakenAll(t, front, request);
      assert d in devices && d.deviceKey in Keys(devices);
      assert row < |before| && before[row] == TakenAll(t, devices, request)[row] by {
        TakenOther(before, d, request, row);
      }
      KeysGrow(front, d);
      assert devices == front + [d];
      TakenAllOthers(t, front, request, row);
    }
  }

  lemma KeysGrow(front: seq<RawDevice>, d: RawDevice)
    ensures Keys(front) <= Keys(front + [d])
  {
    assert forall f :: f in front ==> f in front + [d];
  }

  lemma TakenOther(t: Table, d: RawDevice, request: Request, row: nat)
    requires row < |Taken(t, d, request)| && Taken(t, d, request)[row].deviceKey != d.deviceKey
    ensures row < |t| && Taken(t, d, request)[row] == t[row]
  {}

  /** An accepted acquire leaves the tokens of all other devices alone. */
  lemma AcquireSparesOthers(t: Table, token: Token, call: Call, later: int)
    requires Ordered(t) && call.Acquire? && !BadArguments(call) && !Refused(t, call)
    requires token.deviceKey !in Keys(Normalized(call.devices))
    ensures Current(After(t, call), token, later) <==> Survives(t, token, call.now, later)
  {
    var swept := After(t, Look(call.now));
    CallKeeps(t, call);
    CallKeeps(t, Look(call.now));
    LookedAt(t, token, call.now, later);
    CurrentMeansRow(swept, token, later);
    CurrentMeansRow(After(t, call), token, later);
    TakenAllKeeps(swept, Normalized(call.devices), RequestOf(call));
    hide Current, TakenAll, Normalized, Refused, BadArguments;
    if token.id < |After(t, call)| && After(t, call)[token.id].deviceKey == token.deviceKey {
      TakenAllOthers(swept, Normalized(call.devices), RequestOf(call), token.id);
    }
  }

  /** After any run a device has at most one current token for a source, and it carries the largest generation. */
  lemma OneTokenPerDevice(t: Table, calls: seq<Call>, a: Token, b: Token, now: int)
    requires Ordered(t)
    requires Current(Run(t, calls), a, now) && Current(Run(t, calls), b, now) && a.deviceKey == b.deviceKey
    ensures a == b
    ensures forall c :: c in Run(t, calls) && c.deviceKey == a.deviceKey ==> c.generation <= a.generation
  {
    var after := Run(t, calls);
    RunKeeps(t, calls);
    CurrentMeansRow(after, a, now);
    CurrentMeansRow(after, b, now);
    if a.id != b.id {
      ActiveIsUniqueAndNewest(after, a.id, b.id);
    }
    forall c | c in after && c.deviceKey == a.deviceKey
      ensures c.generation <= a.generation
    {
      var j :| 0 <= j < |after| && after[j] == c;
      if j != a.id {
        ActiveIsUniqueAndNewest(after, a.id, j);
      }
    }
  }
}
