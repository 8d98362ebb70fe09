/** What the key transactions answer and leave behind, column by column, and when a presented secret is let in. */
module KeyEffects {
  import opened Wrappers
  import opened Uuids
  import opened ApiKeys

  /** So many days of 24 hours after a moment. */
  function DaysAfter(moment: int, days: int): int {
    moment + days * 24 * 60 * 60 * 1_000_000_000
  }

  /** Neither revoked by anyone nor at its expiry yet. */
  predicate Good(k: Key, now: int) {
    k.revokedAt.None? && (k.expiresAt.Some? ==> now < k.expiresAt.value)
  }

  function GoodKeys(r: Keyring, user: Uuid, now: int): set<Uuid> {
    set k | k in r.keys && r.keys[k].userId == user && Good(r.keys[k], now)
  }

  ghost predicate HashIsFree(r: Keyring, hash: string) {
    forall k :: k in r.keys ==> r.keys[k].hash != hash
  }

  /** A new key is the requested user's, with the requested hash and expiry, or the default number of days ahead. */
  ghost predicate Issued(r: Keyring, after: Keyring, id: Uuid, p: NewKey, from: Option<Uuid>, now: int) {
    && id in after.keys && after.keys[id].userId == p.userId && after.keys[id].hash == p.hash
    && after.keys[id].createdAt == now && after.keys[id].lastUsedAt.None? && after.keys[id].revokedAt.None?
    && after.keys[id].rotatedFrom == from
    && (p.expiresAt.Some? ==> after.keys[id].expiresAt == p.expiresAt)
    && (p.expiresAt.None? ==> after.keys[id].expiresAt == Some(DaysAfter(now, r.policy.defaultExpiryDays)))
  }

  /** A replaced key ends at once without grace; with grace it ends when it would have, or when the grace does if that
      is earlier. */
  ghost predicate Ends(k: Key, before: Key, graceDays: int, now: int) {
    if graceDays == 0 then k == before.(revokedAt := Some(now), expiresAt := Some(now))
    else
      var end := DaysAfter(now, graceDays);
      && k == before.(expiresAt := k.expiresAt) && k.expiresAt.Some? && k.expiresAt.value <= end
      && k.expiresAt in {before.expiresAt, Some(end)} && !Later(before.expiresAt, k.expiresAt)
  }

  lemma GoodKeysAreActive(r: Keyring, user: Uuid, now: int)
    ensures ActiveKeys(r, user, now) == GoodKeys(r, user, now)
  {
  }

  lemma CreationExactly(r: Keyring, id: Uuid, params: Option<NewKey>, now: int)
    requires id !in r.keys
    ensures var (reply, after) := CreateAPIKey(r, id, params, now);
            && (reply == Err(NotFound) <==> params.Some? && params.value.userId !in r.users)
            && (reply == Err(Forbidden) <==>
                  params.Some? && params.value.userId in r.users && !r.users[params.value.userId])
            && (reply == Err(Invalid) <==>
                  params.Some? ==> && params.value.userId in r.users && r.users[params.value.userId]
                                   && |GoodKeys(r, params.value.userId, now)| < r.policy.maxKeys
                                   && !params.value.permitted)
            && (reply.Ok? <==>
                  && params.Some? && params.value.userId in r.users && r.users[params.value.userId]
                  && |GoodKeys(r, params.value.userId, now)| < r.policy.maxKeys
                  && params.value.permitted && HashIsFree(r, params.value.hash))
            && (reply.Err? ==> reply.error in {Invalid, NotFound, Forbidden, Conflict})
            && (reply.Ok? ==> && after == r.(keys := r.keys[id := after.keys[id]])
                              && Issued(r, after, id, params.value, None, now))
  {
    if params.Some? {
      GoodKeysAreActive(r, params.value.userId, now);
    }
    hide ActiveKeys, GoodKeys, Active;
  }

  /** One key is replaced: the new one is issued, the old one ends, and every other key is as it was. */
  ghost predicate Replaced(r: Keyring, after: Keyring, oldId: Uuid, newId: Uuid, p: NewKey, now: int) {
    && oldId in r.keys && after == r.(keys := after.keys) && after.keys.Keys == r.keys.Keys + {newId}
    && (forall k :: k in r.keys && k != oldId ==> after.keys[k] == r.keys[k])
    && Ends(after.keys[oldId], r.keys[oldId], r.policy.rotationGraceDays, now)
    && Issued(r, after, newId, p, Some(oldId), now)
  }

  lemma RotationExactly(r: Keyring, oldId: Uuid, newId: Uuid, params: Option<NewKey>, now: int)
    requires newId !in r.keys
    ensures var (reply, after) := RotateAPIKey(r, oldId, newId, params, now);
            && (reply == Err(NotFound) <==>
                  params.Some? && (oldId in r.keys ==> || r.keys[oldId].userId != params.value.userId
                                                       || r.keys[oldId].revokedAt.Some?))
            && (reply == Err(Invalid) <==>
                  params.Some? ==> && oldId in r.keys && r.keys[oldId].userId == params.value.userId
                                   && r.keys[oldId].revokedAt.None? && !params.value.permitted)
            && (reply.Ok? <==>
                  && params.Some? && oldId in r.keys && r.keys[oldId].userId == params.value.userId
                  && r.keys[oldId].revokedAt.None?
                  && |GoodKeys(r, params.value.userId, now) - {oldId}| < r.policy.maxKeys
                  && params.value.permitted && HashIsFree(r, params.value.hash))
            && (reply.Err? ==> reply.error in {Invalid, NotFound, Conflict})
            && (reply.Ok? ==> Replaced(r, after, oldId, newId, params.value, now))
  {
    if params.Some? {
      GoodKeysAreActive(r, params.value.userId, now);
    }
    hide ActiveKeys, GoodKeys, Active;
  }

  /** Revoking keeps the moment of a first revocation, and writes nothing else. */
  lemma RevocationExactly(r: Keyring, user: Uuid, id: Uuid, now: int)
    ensures var (reply, after) := RevokeAPIKey(r, user, id, now);
            && (reply.Ok? <==> id in r.keys && r.keys[id].userId == user)
            && (reply.Err? ==> reply.error == NotFound)
            && (reply.Ok? ==>
                  var first := if r.keys[id].revokedAt.None? then Some(now) else r.keys[id].revokedAt;
                  after == r.(keys := r.keys[id := r.keys[id].(revokedAt := first)]))
  {
  }

  lemma TouchExactly(r: Keyring, id: Uuid, usedAt: int)
    ensures var (reply, after) := TouchAPIKey(r, id, usedAt);
            && (reply.Ok? <==> id in r.keys && Good(r.keys[id], usedAt))
            && (reply.Err? ==> reply.error == NotFound)
            && (reply.Ok? ==> after == r.(keys := r.keys[id := r.keys[id].(lastUsedAt := Some(usedAt))]))
  {
  }

  lemma PolicyExactly(r: Keyring, policy: Policy)
    ensures var (reply, after) := UpdateKeyPolicy(r, policy);
            && (reply.Ok? <==>
                  && 1 <= policy.maxKeys <= 100 && 1 <= policy.defaultExpiryDays <= 10 * 365
                  && 0 <= policy.rotationGraceDays <= 365 && 1 <= policy.unusedExpiryDays <= 10 * 365
                  && 1 <= policy.forceRotationDays <= 10 * 365)
            && (reply.Err? ==> reply.error == Invalid)
            && (reply.Ok? ==> after == r.(policy := policy))
  {
  }

  /** A key lets its secret in while it is good, and, where the policy says so, no longer than the unused period after
      it was last used (or made), and no longer than the rotation period after it was made. */
  ghost predicate LetsIn(r: Keyring, k: Uuid, now: int) {
    k in r.keys && Good(r.keys[k], now) &&
    var key := r.keys[k];
    var used := if key.lastUsedAt.None? then key.createdAt else key.lastUsedAt.value;
    && (r.policy.expireUnused ==> now < DaysAfter(used, r.policy.unusedExpiryDays))
    && (r.policy.forceRotation ==> now < DaysAfter(key.createdAt, r.policy.forceRotationDays))
    && key.userId in r.users && r.users[key.userId]
  }

  lemma AcceptedExactly(r: Keyring, hash: string, now: int)
    ensures Accepts(r, hash, now) <==> exists k :: LetsIn(r, k, now) && r.keys[k].hash == hash
  {
    if Accepts(r, hash, now) {
      var k :| k in r.keys && r.keys[k].hash == hash && Usable(r.keys[k], r.policy, now)
               && r.keys[k].userId in r.users && r.users[r.keys[k].userId];
      assert LetsIn(r, k, now);
    }
    if k :| LetsIn(r, k, now) && r.keys[k].hash == hash {
      assert Usable(r.keys[k], r.policy, now);
    }
  }

  /** A key just made under a sound policy is accepted at once, unless it was asked to have expired already. */
  lemma NewKeyIsAccepted(r: Keyring, id: Uuid, p: NewKey, now: int)
    requires id !in r.keys && ValidPolicy(r.policy) && CreateAPIKey(r, id, Some(p), now).0.Ok?
    ensures Accepts(CreateAPIKey(r, id, Some(p), now).1, p.hash, now)
            <==> p.expiresAt.None? || now < p.expiresAt.value
  {
    var after := CreateAPIKey(r, id, Some(p), now).1;
    CreationExactly(r, id, Some(p), now);
    AcceptedExactly(after, p.hash, now);
    hide CreateAPIKey, Accepts;
    if k :| LetsIn(after, k, now) && after.keys[k].hash == p.hash {
      assert k == id;
    }
    if p.expiresAt.None? || now < p.expiresAt.value {
      assert LetsIn(after, id, now);
    }
  }
}
