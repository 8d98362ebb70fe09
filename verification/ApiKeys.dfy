/** Personal API keys: creation, rotation with grace, revocation and acceptance under a per-user limit. */
module ApiKeys {
  import opened Wrappers
  import opened Uuids

  const DAY := 86_400_000_000_000

  datatype Key = Key(
    userId: Uuid, hash: string, createdAt: int, expiresAt: Option<int>, lastUsedAt: Option<int>,
    revokedAt: Option<int>, rotatedFrom: Option<Uuid>)

  datatype Policy = Policy(
    maxKeys: int, defaultExpiryDays: int, rotationGraceDays: int, expireUnused: bool, unusedExpiryDays: int,
    forceRotation: bool, forceRotationDays: int)

  /** `users` says who is active. */
  datatype Keyring = Keyring(keys: map<Uuid, Key>, policy: Policy, users: map<Uuid, bool>)

  /** A request for a key after field validation; `permitted` is whether every permission asked for is active. */
  datatype NewKey = NewKey(userId: Uuid, hash: string, expiresAt: Option<int>, permitted: bool)

  predicate Active(k: Key, now: int) {
    k.revokedAt.None? && (k.expiresAt.None? || k.expiresAt.value > now)
  }

  function ActiveKeys(r: Keyring, user: Uuid, now: int): set<Uuid> {
    set k | k in r.keys && r.keys[k].userId == user && Active(r.keys[k], now)
  }

  predicate HashTaken(r: Keyring, hash: string) {
    exists k :: k in r.keys && r.keys[k].hash == hash
  }

  function Fresh(p: NewKey, from: Option<Uuid>, defaultExpiryDays: int, now: int): Key {
    var expires := if p.expiresAt.Some? then p.expiresAt else Some(now + defaultExpiryDays * DAY);
    Key(p.userId, p.hash, now, expires, None, None, from)
  }

  function CreateAPIKey(r: Keyring, id: Uuid, params: Option<NewKey>, now: int): (Result<()>, Keyring) {
    if params.None? then (Err(Invalid), r)
    else
      var p := params.value;
      if p.userId !in r.users then (Err(NotFound), r)
      else if !r.users[p.userId] then (Err(Forbidden), r)
      else if |ActiveKeys(r, p.userId, now)| >= r.policy.maxKeys then (Err(Conflict), r)
      else if !p.permitted then (Err(Invalid), r)
      else if HashTaken(r, p.hash) then (Err(Conflict), r)
      else (Ok(()), r.(keys := r.keys[id := Fresh(p, None, r.policy.defaultExpiryDays, now)]))
  }

  /** What rotation does to the key it replaces: dead at once, or alive until the grace ends at the latest. */
  function Retired(k: Key, graceDays: int, now: int): Key {
    var graceEnd := now + graceDays * DAY;
    if graceDays == 0 then k.(revokedAt := Some(now), expiresAt := Some(now))
    else if k.expiresAt.None? || k.expiresAt.value > graceEnd then k.(expiresAt := Some(graceEnd))
    else k
  }

  function RotateAPIKey(r: Keyring, oldId: Uuid, newId: Uuid, params: Option<NewKey>, now: int): (Result<()>, Keyring) {
    if params.None? then (Err(Invalid), r)
    else
      var p := params.value;
      if oldId !in r.keys || r.keys[oldId].userId != p.userId || r.keys[oldId].revokedAt.Some? then (Err(NotFound), r)
      else if !p.permitted then (Err(Invalid), r)
      else if |ActiveKeys(r, p.userId, now) - {oldId}| >= r.policy.maxKeys then (Err(Conflict), r)
      else if HashTaken(r, p.hash) then (Err(Conflict), r)
      else
        var retired := r.keys[oldId := Retired(r.keys[oldId], r.policy.rotationGraceDays, now)];
        (Ok(()), r.(keys := retired[newId := Fresh(p, Some(oldId), r.policy.defaultExpiryDays, now)]))
  }

  function RevokeAPIKey(r: Keyring, user: Uuid, id: Uuid, now: int): (Result<()>, Keyring) {
    if id !in r.keys || r.keys[id].userId != user then (Err(NotFound), r)
    else
      var k := r.keys[id];
      (Ok(()), r.(keys := r.keys[id := k.(revokedAt := if k.revokedAt.Some? then k.revokedAt else Some(now))]))
  }

  function TouchAPIKey(r: Keyring, id: Uuid, usedAt: int): (Result<()>, Keyring) {
    if id !in r.keys || !Active(r.keys[id], usedAt) then (Err(NotFound), r)
    else (Ok(()), r.(keys := r.keys[id := r.keys[id].(lastUsedAt := Some(usedAt))]))
  }

  predicate ValidPolicy(p: Policy) {
    && 1 <= p.maxKeys <= 100 && 1 <= p.defaultExpiryDays <= 3650 && 0 <= p.rotationGraceDays <= 365
    && 1 <= p.unusedExpiryDays <= 3650 && 1 <= p.forceRotationDays <= 3650
  }

  function UpdateKeyPolicy(r: Keyring, policy: Policy): (Result<()>, Keyring) {
    if ValidPolicy(policy) then (Ok(()), r.(policy := policy)) else (Err(Invalid), r)
  }

  /** The lookup's WHERE clause. */
  predicate Usable(k: Key, policy: Policy, now: int) {
    && Active(k, now)
    && (policy.expireUnused ==>
          (if k.lastUsedAt.Some? then k.lastUsedAt.value else k.createdAt) > now - policy.unusedExpiryDays * DAY)
    && (policy.forceRotation ==> k.createdAt > now - policy.forceRotationDays * DAY)
  }

  /** Whether a presented secret is let in: some key with its hash is usable and its owner is active. */
  predicate Accepts(r: Keyring, hash: string, now: int) {
    exists k :: k in r.keys && r.keys[k].hash == hash && Usable(r.keys[k], r.policy, now)
                && r.keys[k].userId in r.users && r.users[r.keys[k].userId]
  }

  // ---- Runs ----

  datatype Step =
    | Creates(id: Uuid, params: Option<NewKey>)
    | Rotates(oldId: Uuid, newId: Uuid, params: Option<NewKey>)
    | Revokes(user: Uuid, id: Uuid)
    | Touches(id: Uuid, usedAt: int)
    | SetsPolicy(policy: Policy)
    | SetsUser(user: Uuid, active: bool)

  /** A keyring at a moment, with the largest key limit any policy so far has had. */
  datatype World = World(ring: Keyring, now: int, ceiling: int)

  ghost predicate Enabled(w: World, step: Step, now: int) {
    w.now <= now &&
    match step
    case Creates(id, _) => id !in w.ring.keys
    case Rotates(_, newId, _) => newId !in w.ring.keys
    case _ => true
  }

  function After(r: Keyring, step: Step, now: int): Keyring {
    match step
    case Creates(id, params) => CreateAPIKey(r, id, params, now).1
    case Rotates(oldId, newId, params) => RotateAPIKey(r, oldId, newId, params, now).1
    case Revokes(user, id) => RevokeAPIKey(r, user, id, now).1
    case Touches(id, usedAt) => TouchAPIKey(r, id, usedAt).1
    case SetsPolicy(policy) => UpdateKeyPolicy(r, policy).1
    case SetsUser(user, active) => r.(users := r.users[user := active])
  }

  function Next(w: World, step: Step, now: int): World {
    var ring := After(w.ring, step, now);
    World(ring, now, if ring.policy.maxKeys > w.ceiling then ring.policy.maxKeys else w.ceiling)
  }

  ghost predicate Reaches(w: World, steps: seq<(Step, int)>, end: World)
    decreases |steps|
  {
    if steps == [] then w == end
    else Enabled(w, steps[0].0, steps[0].1) && Reaches(Next(w, steps[0].0, steps[0].1), steps[1..], end)
  }

  /** Some key replaced this one. */
  predicate Rotated(r: Keyring, k: Uuid) {
    exists n :: n in r.keys && r.keys[n].rotatedFrom == Some(k)
  }

  function Standing(r: Keyring, user: Uuid, now: int): set<Uuid> {
    set k | k in ActiveKeys(r, user, now) && !Rotated(r, k)
  }

  ghost predicate UserWithin(w: World, user: Uuid) {
    |ActiveKeys(w.ring, user, w.now)| <= w.ceiling + 1 && |Standing(w.ring, user, w.now)| <= w.ceiling
  }

  ghost predicate HashesDiffer(r: Keyring) {
    forall j, k :: j in r.keys && k in r.keys && r.keys[j].hash == r.keys[k].hash ==> j == k
  }

  ghost predicate Inv(w: World) {
    && w.ring.policy.maxKeys <= w.ceiling && HashesDiffer(w.ring)
    && forall user :: UserWithin(w, user)
  }

  lemma SubsetSize<T>(a: set<T>, b: set<T>)
    requires a <= b
    ensures |a| <= |b|
  {
    assert b == a + (b - a);
  }

  lemma AddedSize<T>(a: set<T>, b: set<T>, x: T)
    requires a <= b + {x}
    ensures |a| <= |b| + 1
  {
    SubsetSize(a, b + {x});
  }

  /** Nothing but the passing of time and rotation marks: sets only shrink. */
  lemma ShrinkingKeeps(w: World, w': World, user: Uuid)
    requires UserWithin(w, user) && w.ceiling <= w'.ceiling
    requires ActiveKeys(w'.ring, user, w'.now) <= ActiveKeys(w.ring, user, w.now)
    requires Standing(w'.ring, user, w'.now) <= Standing(w.ring, user, w.now)
    ensures UserWithin(w', user)
  {
    SubsetSize(ActiveKeys(w'.ring, user, w'.now), ActiveKeys(w.ring, user, w.now));
    SubsetSize(Standing(w'.ring, user, w'.now), Standing(w.ring, user, w.now));
  }

  /** The keys of a step that issues none: no key is revived and no rotation is forgotten. */
  ghost predicate OnlyRetires(r: Keyring, r': Keyring, now: int) {
    && r'.keys.Keys == r.keys.Keys
    && forall k :: k in r.keys ==>
         && r'.keys[k].userId == r.keys[k].userId && r'.keys[k].rotatedFrom == r.keys[k].rotatedFrom
         && r'.keys[k].hash == r.keys[k].hash && (Active(r'.keys[k], now) ==> Active(r.keys[k], now))
  }

  lemma RetiringKeeps(w: World, w': World, user: Uuid)
    requires UserWithin(w, user) && w.ceiling <= w'.ceiling && w.now <= w'.now && OnlyRetires(w.ring, w'.ring, w'.now)
    ensures UserWithin(w', user)
  {
    forall k: Uuid ensures Rotated(w.ring, k) ==> Rotated(w'.ring, k) {
      if n :| n in w.ring.keys && w.ring.keys[n].rotatedFrom == Some(k) {
        assert n in w'.ring.keys && w'.ring.keys[n].rotatedFrom == Some(k);
      }
    }
    ShrinkingKeeps(w, w', user);
  }

  /** A key issued to one user leaves what holds of the others. */
  lemma IssuingKeepsOthers(w: World, w': World, id: Uuid, retired: Uuid, user: Uuid)
    requires UserWithin(w, user) && w.ceiling <= w'.ceiling && w.now <= w'.now
    requires id !in w.ring.keys && id in w'.ring.keys && w'.ring.keys[id].userId != user
    requires w'.ring.keys.Keys == w.ring.keys.Keys + {id}
    requires forall k :: k in w.ring.keys && k != retired ==> w'.ring.keys[k] == w.ring.keys[k]
    requires retired in w.ring.keys ==>
               && w'.ring.keys[retired].userId != user && w.ring.keys[retired].userId != user
               && w'.ring.keys[retired].rotatedFrom == w.ring.keys[retired].rotatedFrom
    ensures UserWithin(w', user)
  {
    forall k: Uuid ensures Rotated(w.ring, k) ==> Rotated(w'.ring, k) {
      if n :| n in w.ring.keys && w.ring.keys[n].rotatedFrom == Some(k) {
        assert n in w'.ring.keys && w'.ring.keys[n].rotatedFrom == Some(k);
      }
    }
    ShrinkingKeeps(w, w', user);
  }

  lemma CreatingKeeps(w: World, id: Uuid, params: Option<NewKey>, now: int, user: Uuid)
    requires Inv(w) && Enabled(w, Creates(id, params), now)
    ensures UserWithin(Next(w, Creates(id, params), now), user)
  {
    var w' := Next(w, Creates(id, params), now);
    assert UserWithin(w, user);
    if w'.ring == w.ring {
      RetiringKeeps(w, w', user);
    } else if params.value.userId != user {
      IssuingKeepsOthers(w, w', id, id, user);
    } else {
      var held := ActiveKeys(w.ring, user, now);
      AddedSize(ActiveKeys(w'.ring, user, now), held, id);
      SubsetSize(Standing(w'.ring, user, now), ActiveKeys(w'.ring, user, now));
    }
  }

  lemma RotatingKeeps(w: World, oldId: Uuid, newId: Uuid, params: Option<NewKey>, now: int, user: Uuid)
    requires Inv(w) && Enabled(w, Rotates(oldId, newId, params), now)
    ensures UserWithin(Next(w, Rotates(oldId, newId, params), now), user)
  {
    var w' := Next(w, Rotates(oldId, newId, params), now);
    assert UserWithin(w, user);
    if w'.ring == w.ring {
      RetiringKeeps(w, w', user);
    } else if params.value.userId != user {
      IssuingKeepsOthers(w, w', newId, oldId, user);
    } else {
      var others := ActiveKeys(w.ring, user, now) - {oldId};
      AddedSize(others + {oldId}, others, oldId);
      AddedSize(ActiveKeys(w'.ring, user, now), others + {oldId}, newId);
      assert w'.ring.keys[newId].rotatedFrom == Some(oldId);
      assert Rotated(w'.ring, oldId);
      AddedSize(Standing(w'.ring, user, now), others, newId);
    }
  }

  lemma StepKeeps(w: World, step: Step, now: int)
    requires Inv(w) && Enabled(w, step, now)
    ensures Inv(Next(w, step, now))
  {
    var w' := Next(w, step, now);
    HashesStayDifferent(w, step, now);
    forall user ensures UserWithin(w', user) {
      match step
      case Creates(id, params) => CreatingKeeps(w, id, params, now, user);
      case Rotates(oldId, newId, params) => RotatingKeeps(w, oldId, newId, params, now, user);
      case _ =>
        assert UserWithin(w, user);
        RetiringKeeps(w, w', user);
    }
  }

  lemma IssuedHashDiffers(r: Keyring, r': Keyring, id: Uuid)
    requires HashesDiffer(r) && id !in r.keys && id in r'.keys && r'.keys.Keys == r.keys.Keys + {id}
    requires forall k :: k in r.keys ==> r'.keys[k].hash == r.keys[k].hash != r'.keys[id].hash
    ensures HashesDiffer(r')
  {
  }

  lemma CreatingKeepsHashes(r: Keyring, id: Uuid, params: Option<NewKey>, now: int)
    requires HashesDiffer(r) && id !in r.keys
    ensures HashesDiffer(CreateAPIKey(r, id, params, now).1)
  {
    var made := CreateAPIKey(r, id, params, now);
    if made.0.Ok? {
      IssuedHashDiffers(r, made.1, id);
    }
  }

  lemma RotatingKeepsHashes(r: Keyring, oldId: Uuid, newId: Uuid, params: Option<NewKey>, now: int)
    requires HashesDiffer(r) && newId !in r.keys
    ensures HashesDiffer(RotateAPIKey(r, oldId, newId, params, now).1)
  {
    var made := RotateAPIKey(r, oldId, newId, params, now);
    if made.0.Ok? {
      IssuedHashDiffers(r, made.1, newId);
    }
  }

  lemma HashesStayDifferent(w: World, step: Step, now: int)
    requires HashesDiffer(w.ring) && Enabled(w, step, now)
    ensures HashesDiffer(After(w.ring, step, now))
  {
    match step
    case Creates(id, params) => CreatingKeepsHashes(w.ring, id, params, now);
    case Rotates(oldId, newId, params) => RotatingKeepsHashes(w.ring, oldId, newId, params, now);
    case _ =>
      var r' := After(w.ring, step, now);
      assert r'.keys.Keys == w.ring.keys.Keys && forall k :: k in r'.keys ==> r'.keys[k].hash == w.ring.keys[k].hash;
  }

  lemma {:induction false} RunKeeps(w: World, steps: seq<(Step, int)>, end: World)
    requires Inv(w) && Reaches(w, steps, end)
    ensures Inv(end)
    decreases |steps|
  {
    if steps != [] {
      StepKeeps(w, steps[0].0, steps[0].1);
      RunKeeps(Next(w, steps[0].0, steps[0].1), steps[1..], end);
    }
  }

  /** In every run from an empty keyring no two keys ever have the same hash. */
  lemma {:induction false} HashesNeverCollide(w0: World, steps: seq<(Step, int)>, w: World, j: Uuid, k: Uuid)
    requires w0.ring.keys == map[] && Reaches(w0, steps, w)
    requires j in w.ring.keys && k in w.ring.keys && w.ring.keys[j].hash == w.ring.keys[k].hash
    ensures j == k
  {
    RunKeepsHashes(w0, steps, w);
  }

  lemma {:induction false} RunKeepsHashes(w: World, steps: seq<(Step, int)>, end: World)
    requires HashesDiffer(w.ring) && Reaches(w, steps, end)
    ensures HashesDiffer(end.ring)
    decreases |steps|
  {
    hide After, HashesDiffer;
    if steps != [] {
      HashesStayDifferent(w, steps[0].0, steps[0].1);
      RunKeepsHashes(Next(w, steps[0].0, steps[0].1), steps[1..], end);
    }
  }

  /** In every run from an empty keyring, with a clock that does not go back: a user never holds more than one
      active key above the highest limit in force so far, nor more unrotated active keys than that limit. */
  lemma {:induction false} KeysStayBounded(w0: World, steps: seq<(Step, int)>, w: World, user: Uuid)
    requires w0.ring.keys == map[] && ValidPolicy(w0.ring.policy) && w0.ceiling == w0.ring.policy.maxKeys
    requires Reaches(w0, steps, w)
    ensures |ActiveKeys(w.ring, user, w.now)| <= w.ceiling + 1
    ensures |Standing(w.ring, user, w.now)| <= w.ceiling
  {
    forall u ensures UserWithin(w0, u) {
      assert ActiveKeys(w0.ring, u, w0.now) == {} && Standing(w0.ring, u, w0.now) == {};
    }
    RunKeeps(w0, steps, w);
    assert UserWithin(w, user);
  }

  /** The bound is met: rotating with a full ring and a grace period leaves one key more than the limit. */
  lemma RotationFillsTheBound(r: Keyring, oldId: Uuid, newId: Uuid, p: NewKey, now: int)
    requires newId !in r.keys && RotateAPIKey(r, oldId, newId, Some(p), now).0.Ok?
    requires |ActiveKeys(r, p.userId, now)| == r.policy.maxKeys && oldId in ActiveKeys(r, p.userId, now)
    requires r.policy.rotationGraceDays > 0 && r.policy.defaultExpiryDays > 0 && p.expiresAt.None?
    ensures |ActiveKeys(RotateAPIKey(r, oldId, newId, Some(p), now).1, p.userId, now)| == r.policy.maxKeys + 1
  {
    var r' := RotateAPIKey(r, oldId, newId, Some(p), now).1;
    assert r.policy.rotationGraceDays * DAY > 0 && r.policy.defaultExpiryDays * DAY > 0;
    assert ActiveKeys(r', p.userId, now) == ActiveKeys(r, p.userId, now) + {newId};
  }

  // ---- Death ----

  predicate Later(a: Option<int>, b: Option<int>) {
    a.Some? && (b.None? || a.value < b.value)
  }

  /** Rotation moves the old key's expiry later exactly when there is no grace period and the key had already
      expired: then its expiry is rewritten to the moment it is revoked. */
  lemma RotationDelaysExpiryExactly(r: Keyring, oldId: Uuid, newId: Uuid, params: Option<NewKey>, now: int)
    requires newId !in r.keys && RotateAPIKey(r, oldId, newId, params, now).0.Ok?
    ensures oldId in r.keys && oldId in RotateAPIKey(r, oldId, newId, params, now).1.keys
    ensures Later(r.keys[oldId].expiresAt, RotateAPIKey(r, oldId, newId, params, now).1.keys[oldId].expiresAt)
            <==> r.policy.rotationGraceDays == 0 && r.keys[oldId].expiresAt.Some? && r.keys[oldId].expiresAt.value < now
  {
  }

  predicate Dead(w: World, k: Uuid) {
    k in w.ring.keys && !Active(w.ring.keys[k], w.now)
  }

  /** A key that was there keeps its hash, and does not come to life. */
  ghost predicate StaysDead(r: Keyring, r': Keyring, k: Uuid, now: int) {
    && k in r.keys && k in r'.keys && r'.keys[k].hash == r.keys[k].hash
    && (Active(r'.keys[k], now) ==> Active(r.keys[k], now))
  }

  lemma IssuingRevivesNone(r: Keyring, id: Uuid, params: Option<NewKey>, now: int, k: Uuid)
    requires id !in r.keys && k in r.keys
    ensures StaysDead(r, CreateAPIKey(r, id, params, now).1, k, now)
  {
    hide ActiveKeys;
  }

  lemma RotatingRevivesNone(r: Keyring, oldId: Uuid, newId: Uuid, params: Option<NewKey>, now: int, k: Uuid)
    requires newId !in r.keys && k in r.keys
    ensures StaysDead(r, RotateAPIKey(r, oldId, newId, params, now).1, k, now)
  {
    hide ActiveKeys;
  }

  lemma DeathKeptByStep(w: World, step: Step, now: int, k: Uuid)
    requires Enabled(w, step, now) && Dead(w, k)
    ensures Dead(Next(w, step, now), k) && Next(w, step, now).ring.keys[k].hash == w.ring.keys[k].hash
  {
    hide CreateAPIKey, RotateAPIKey;
    assert StaysDead(w.ring, After(w.ring, step, now), k, now) by {
      match step
      case Creates(id, params) => IssuingRevivesNone(w.ring, id, params, now, k);
      case Rotates(oldId, newId, params) => RotatingRevivesNone(w.ring, oldId, newId, params, now, k);
      case _ =>
    }
  }

  lemma {:induction false} DeathKept(w: World, steps: seq<(Step, int)>, end: World, k: Uuid)
    requires Reaches(w, steps, end) && Dead(w, k)
    ensures Dead(end, k) && end.ring.keys[k].hash == w.ring.keys[k].hash
    decreases |steps|
  {
    if steps != [] {
      DeathKeptByStep(w, steps[0].0, steps[0].1, k);
      DeathKept(Next(w, steps[0].0, steps[0].1), steps[1..], end, k);
    }
  }

  /** A secret whose key was once revoked or expired is never let in again, whatever is created, rotated,
      touched or reconfigured meanwhile. */
  lemma {:induction false} DeadKeyIsNeverAccepted(w: World, steps: seq<(Step, int)>, end: World, k: Uuid)
    requires HashesDiffer(w.ring) && Reaches(w, steps, end) && Dead(w, k)
    ensures !Accepts(end.ring, w.ring.keys[k].hash, end.now)
  {
    DeathKept(w, steps, end, k);
    RunKeepsHashes(w, steps, end);
  }
}
