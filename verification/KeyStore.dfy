/** The key table as it runs: each transaction counts, checks and writes row by row. */
module KeyStore {
  import opened Wrappers
  import opened Uuids
  import opened ApiKeys
  import opened KeyEffects

  class KeyStore {
    var keys: map<Uuid, Key>
    var policy: Policy
    var users: map<Uuid, bool>

    ghost function Snapshot(): Keyring
      reads this
    {
      Keyring(keys, policy, users)
    }

    method CountActive(user: Uuid, except: Option<Uuid>, now: int) returns (count: nat)
      ensures count == |ActiveKeys(Snapshot(), user, now) - (if except.Some? then {except.value} else {})|
    {
      var counted := set k | k in keys && keys[k].userId == user && Active(keys[k], now) && except != Some(k);
      assert counted == ActiveKeys(Snapshot(), user, now) - (if except.Some? then {except.value} else {});
      count := |counted|;
    }

    method HasHash(hash: string) returns (taken: bool)
      ensures taken == HashTaken(Snapshot(), hash)
    {
      taken := exists k :: k in keys && keys[k].hash == hash;
    }

    method CreateAPIKey(id: Uuid, params: Option<NewKey>, now: int) returns (reply: Result<()>)
      requires id !in keys
      modifies this
      ensures (reply, Snapshot()) == ApiKeys.CreateAPIKey(old(Snapshot()), id, params, now)
      ensures reply.Err? ==> Snapshot() == old(Snapshot())
      ensures reply.Ok? ==> && params.Some? && (forall k :: k in old(keys) ==> k in keys && keys[k] == old(keys[k]))
                            && Issued(old(Snapshot()), Snapshot(), id, params.value, None, now)
    {
      hide Issued;
      CreationExactly(Snapshot(), id, params, now);
      if params.None? {
        return Err(Invalid);
      }
      var p := params.value;
      if p.userId !in users {
        return Err(NotFound);
      }
      if !users[p.userId] {
        return Err(Forbidden);
      }
      var count := CountActive(p.userId, None, now);
      assert ActiveKeys(Snapshot(), p.userId, now) - {} == ActiveKeys(Snapshot(), p.userId, now);
      if count >= policy.maxKeys {
        return Err(Conflict);
      }
      if !p.permitted {
        return Err(Invalid);
      }
      var taken := HasHash(p.hash);
      if taken {
        return Err(Conflict);
      }
      keys := keys[id := Fresh(p, None, policy.defaultExpiryDays, now)];
      return Ok(());
    }

    /** The old key is retired before the new one is inserted; a taken hash rolls both back. */
    method RotateAPIKey(oldId: Uuid, newId: Uuid, params: Option<NewKey>, now: int) returns (reply: Result<()>)
      requires newId !in keys
      modifies this
      ensures (reply, Snapshot()) == ApiKeys.RotateAPIKey(old(Snapshot()), oldId, newId, params, now)
      ensures reply.Err? ==> Snapshot() == old(Snapshot())
      ensures reply.Ok? ==> params.Some? && Replaced(old(Snapshot()), Snapshot(), oldId, newId, params.value, now)
    {
      if params.None? {
        return Err(Invalid);
      }
      var p := params.value;
      if oldId !in keys || keys[oldId].userId != p.userId || keys[oldId].revokedAt.Some? {
        return Err(NotFound);
      }
      if !p.permitted {
        return Err(Invalid);
      }
      var count := CountActive(p.userId, Some(oldId), now);
      if count >= policy.maxKeys {
        return Err(Conflict);
      }
      var before := keys;
      var replaced := keys[oldId];
      var graceEnd := now + policy.rotationGraceDays * DAY;
      if policy.rotationGraceDays == 0 {
        keys := keys[oldId := replaced.(revokedAt := Some(now), expiresAt := Some(now))];
      } else if replaced.expiresAt.None? || replaced.expiresAt.value > graceEnd {
        keys := keys[oldId := replaced.(expiresAt := Some(graceEnd))];
      }
      assert keys == before[oldId := Retired(replaced, policy.rotationGraceDays, now)];
      hide ActiveKeys, Active;
      var taken := exists k :: k in before && before[k].hash == p.hash;
      if taken {
        keys := before;
        return Err(Conflict);
      }
      keys := keys[newId := Fresh(p, Some(oldId), policy.defaultExpiryDays, now)];
      reply := Ok(());
      hide Replaced;
      RotationExactly(old(Snapshot()), oldId, newId, params, now);
    }

    method RevokeAPIKey(user: Uuid, id: Uuid, now: int) returns (reply: Result<()>)
      modifies this
      ensures (reply, Snapshot()) == ApiKeys.RevokeAPIKey(old(Snapshot()), user, id, now)
      ensures reply.Err? ==> Snapshot() == old(Snapshot())
      ensures reply.Ok? ==> id in keys && keys[id].revokedAt.Some? && !Good(keys[id], now)
    {
      if id !in keys || keys[id].userId != user {
        return Err(NotFound);
      }
      var k := keys[id];
      keys := keys[id := k.(revokedAt := if k.revokedAt.Some? then k.revokedAt else Some(now))];
      return Ok(());
    }

    method TouchAPIKey(id: Uuid, usedAt: int) returns (reply: Result<()>)
      modifies this
      ensures (reply, Snapshot()) == ApiKeys.TouchAPIKey(old(Snapshot()), id, usedAt)
      ensures reply.Err? ==> Snapshot() == old(Snapshot())
      ensures reply.Ok? ==> id in keys && Good(keys[id], usedAt) && keys[id].lastUsedAt == Some(usedAt)
    {
      if id !in keys || !Active(keys[id], usedAt) {
        return Err(NotFound);
      }
      keys := keys[id := keys[id].(lastUsedAt := Some(usedAt))];
      return Ok(());
    }
  }
}
