/** Rotations that overlap: each counts the user's other keys first and writes later, with only its old key locked. */
module KeyOverlaps {
  import opened Wrappers
  import opened Uuids
  import opened ApiKeys

  /** A rotation that has counted: what it was asked for, and the policy it read. */
  datatype Rotation = Rotation(oldId: Uuid, params: NewKey, policy: Policy)

  datatype World = World(ring: Keyring, now: int, ceiling: int, pending: map<nat, Rotation>)

  datatype Step =
    | Does(step: ApiKeys.Step)
    | Counts(rotation: nat, oldId: Uuid, params: NewKey)
    | Writes(rotation: nat, newId: Uuid)
    | GivesUp(rotation: nat)

  predicate Locked(w: World, id: Uuid) {
    exists k :: k in w.pending && w.pending[k].oldId == id
  }

  /** The other active keys, as a rotation counts them. */
  function Others(r: Keyring, user: Uuid, oldId: Uuid, now: int): set<Uuid> {
    ActiveKeys(r, user, now) - {oldId}
  }

  /** The first half of a rotation: everything up to the count passes. */
  predicate CountPasses(r: Keyring, oldId: Uuid, p: NewKey, now: int) {
    && oldId in r.keys && r.keys[oldId].userId == p.userId && r.keys[oldId].revokedAt.None? && p.permitted
    && |Others(r, p.userId, oldId, now)| < r.policy.maxKeys
  }

  /** The second half: retire the old key and insert the new one, or neither. */
  function WriteRotation(r: Keyring, rotation: Rotation, newId: Uuid, now: int): Keyring
    requires rotation.oldId in r.keys
  {
    if HashTaken(r, rotation.params.hash) then r
    else
      var retired := r.keys[rotation.oldId := Retired(r.keys[rotation.oldId], rotation.policy.rotationGraceDays, now)];
      r.(keys := retired[newId := ApiKeys.Fresh(rotation.params, Some(rotation.oldId),
                                                rotation.policy.defaultExpiryDays, now)])
  }

  /** With nothing in between, the halves are the rotation. */
  lemma HalvesAreRotation(r: Keyring, oldId: Uuid, newId: Uuid, p: NewKey, now: int)
    ensures RotateAPIKey(r, oldId, newId, Some(p), now).1
            == if CountPasses(r, oldId, p, now) then WriteRotation(r, Rotation(oldId, p, r.policy), newId, now) else r
  {
  }

  /** A key being rotated is locked: nothing else revokes, touches or rotates it. A clock does not go back. */
  ghost predicate Enabled(w: World, step: Step, now: int) {
    w.now <= now &&
    match step
    case Does(Creates(id, _)) => id !in w.ring.keys
    case Does(Rotates(_, _, _)) => false
    case Does(Revokes(_, id)) => !Locked(w, id)
    case Does(Touches(id, _)) => !Locked(w, id)
    case Does(_) => true
    case Counts(k, oldId, _) => k !in w.pending && !Locked(w, oldId)
    case Writes(k, newId) => k in w.pending && w.pending[k].oldId in w.ring.keys && newId !in w.ring.keys
    case GivesUp(k) => k in w.pending
  }

  function Raised(ceiling: int, ring: Keyring): int {
    if ring.policy.maxKeys > ceiling then ring.policy.maxKeys else ceiling
  }

  function Next(w: World, step: Step, now: int): World
    requires Enabled(w, step, now)
  {
    match step
    case Does(s) =>
      var ring := After(w.ring, s, now);
      w.(ring := ring, now := now, ceiling := Raised(w.ceiling, ring))
    case Counts(k, oldId, p) =>
      var noted := w.pending[k := Rotation(oldId, p, w.ring.policy)];
      w.(now := now, pending := if CountPasses(w.ring, oldId, p, now) then noted else w.pending)
    case Writes(k, newId) =>
      w.(now := now, ring := WriteRotation(w.ring, w.pending[k], newId, now), pending := w.pending - {k})
    case GivesUp(k) => w.(now := now, pending := w.pending - {k})
  }

  ghost predicate Reaches(w: World, steps: seq<(Step, int)>, end: World)
    decreases |steps|
  {
    if steps == [] then w == end
    else Enabled(w, steps[0].0, steps[0].1) && Reaches(Next(w, steps[0].0, steps[0].1), steps[1..], end)
  }

  ghost predicate Initial(w: World) {
    && w.ring.keys == map[] && ValidPolicy(w.ring.policy) && w.ceiling == w.ring.policy.maxKeys && w.pending == map[]
  }

  // ---- Overlap and the bound ----

  function InFlight(w: World, user: Uuid): set<nat> {
    set k | k in w.pending && w.pending[k].params.userId == user
  }

  /** No moment of the run has more than `most` of the user's rotations between their count and their write. */
  ghost predicate AtMostAtOnce(w: World, steps: seq<(Step, int)>, user: Uuid, most: nat)
    decreases |steps|
  {
    && |InFlight(w, user)| <= most
    && (steps != [] && Enabled(w, steps[0].0, steps[0].1) ==>
          AtMostAtOnce(Next(w, steps[0].0, steps[0].1), steps[1..], user, most))
  }

  /** The active keys, with those still to be written, leave no more room than `most` above the ceiling. */
  ghost predicate Crowd(w: World, user: Uuid, most: nat) {
    && w.ring.policy.maxKeys <= w.ceiling
    && |ActiveKeys(w.ring, user, w.now)| + |InFlight(w, user)| <= w.ceiling + most
  }

  lemma TimePasses(r: Keyring, user: Uuid, now: int, later: int)
    requires now <= later
    ensures |ActiveKeys(r, user, later)| <= |ActiveKeys(r, user, now)|
  {
    SubsetSize(ActiveKeys(r, user, later), ActiveKeys(r, user, now));
  }

  /** Revoking, touching and reconfiguring bring no key to life. */
  lemma OthersIssueNone(r: Keyring, step: ApiKeys.Step, now: int, user: Uuid)
    requires !step.Creates? && !step.Rotates?
    ensures |ActiveKeys(After(r, step, now), user, now)| <= |ActiveKeys(r, user, now)|
  {
    SubsetSize(ActiveKeys(After(r, step, now), user, now), ActiveKeys(r, user, now));
  }

  /** A creation leaves a user's keys alone, or within the limit. */
  lemma CreationStaysBelow(r: Keyring, id: Uuid, params: Option<NewKey>, now: int, user: Uuid)
    requires id !in r.keys
    ensures var after := CreateAPIKey(r, id, params, now).1;
            && after.policy == r.policy
            && (|| |ActiveKeys(after, user, now)| <= |ActiveKeys(r, user, now)|
                || |ActiveKeys(after, user, now)| <= r.policy.maxKeys)
  {
    var after := CreateAPIKey(r, id, params, now).1;
    if params.Some? && params.value.userId == user {
      AddedSize(ActiveKeys(after, user, now), ActiveKeys(r, user, now), id);
    } else {
      SubsetSize(ActiveKeys(after, user, now), ActiveKeys(r, user, now));
    }
  }

  lemma DoingKeepsCrowd(w: World, step: ApiKeys.Step, now: int, user: Uuid, most: nat)
    requires Crowd(w, user, most) && Enabled(w, Does(step), now) && |InFlight(w, user)| <= most
    ensures Crowd(Next(w, Does(step), now), user, most)
  {
    hide ActiveKeys, CreateAPIKey;
    TimePasses(w.ring, user, w.now, now);
    if step.Creates? {
      CreationStaysBelow(w.ring, step.id, step.params, now, user);
    } else {
      OthersIssueNone(w.ring, step, now, user);
    }
    assert InFlight(Next(w, Does(step), now), user) == InFlight(w, user);
  }

  lemma CountingKeepsCrowd(w: World, k: nat, oldId: Uuid, p: NewKey, now: int, user: Uuid, most: nat)
    requires Crowd(w, user, most) && Enabled(w, Counts(k, oldId, p), now)
    requires |InFlight(Next(w, Counts(k, oldId, p), now), user)| <= most
    ensures Crowd(Next(w, Counts(k, oldId, p), now), user, most)
  {
    var w' := Next(w, Counts(k, oldId, p), now);
    TimePasses(w.ring, user, w.now, now);
    if CountPasses(w.ring, oldId, p, now) && p.userId == user {
      AddedSize(ActiveKeys(w.ring, user, now), Others(w.ring, user, oldId, now), oldId);
    } else {
      assert InFlight(w', user) == InFlight(w, user);
    }
  }

  lemma RotationAddsOne(r: Keyring, rotation: Rotation, newId: Uuid, now: int, user: Uuid)
    requires rotation.oldId in r.keys && newId !in r.keys
    ensures |ActiveKeys(WriteRotation(r, rotation, newId, now), user, now)|
            <= |ActiveKeys(r, user, now)| + (if rotation.params.userId == user then 1 else 0)
  {
    var after := WriteRotation(r, rotation, newId, now);
    if rotation.params.userId == user {
      AddedSize(ActiveKeys(after, user, now), ActiveKeys(r, user, now), newId);
    } else {
      SubsetSize(ActiveKeys(after, user, now), ActiveKeys(r, user, now));
    }
  }

  lemma OneLessInFlight(w: World, w': World, k: nat, user: Uuid)
    requires k in w.pending && w'.pending == w.pending - {k}
    ensures |InFlight(w', user)| == |InFlight(w, user)| - (if w.pending[k].params.userId == user then 1 else 0)
  {
    assert InFlight(w', user) == InFlight(w, user) - {k};
  }

  lemma WritingKeepsCrowd(w: World, k: nat, newId: Uuid, now: int, user: Uuid, most: nat)
    requires Crowd(w, user, most) && Enabled(w, Writes(k, newId), now)
    ensures Crowd(Next(w, Writes(k, newId), now), user, most)
  {
    hide ActiveKeys, InFlight;
    TimePasses(w.ring, user, w.now, now);
    RotationAddsOne(w.ring, w.pending[k], newId, now, user);
    OneLessInFlight(w, Next(w, Writes(k, newId), now), k, user);
  }

  lemma StepKeepsCrowd(w: World, step: Step, now: int, user: Uuid, most: nat)
    requires Crowd(w, user, most) && Enabled(w, step, now)
    requires |InFlight(w, user)| <= most && |InFlight(Next(w, step, now), user)| <= most
    ensures Crowd(Next(w, step, now), user, most)
  {
    match step
    case Does(s) => DoingKeepsCrowd(w, s, now, user, most);
    case Counts(k, oldId, p) => CountingKeepsCrowd(w, k, oldId, p, now, user, most);
    case Writes(k, newId) => WritingKeepsCrowd(w, k, newId, now, user, most);
    case GivesUp(k) =>
      TimePasses(w.ring, user, w.now, now);
      OneLessInFlight(w, Next(w, step, now), k, user);
  }

  lemma {:induction false} CrowdKept(w: World, steps: seq<(Step, int)>, end: World, user: Uuid, most: nat)
    requires Crowd(w, user, most) && Reaches(w, steps, end) && AtMostAtOnce(w, steps, user, most)
    ensures Crowd(end, user, most)
    decreases |steps|
  {
    hide Crowd, Next, Enabled;
    if steps != [] {
      StepKeepsCrowd(w, steps[0].0, steps[0].1, user, most);
      CrowdKept(Next(w, steps[0].0, steps[0].1), steps[1..], end, user, most);
    }
  }

  /** In every run from an empty keyring with at most `most` of a user's rotations at once, the user never holds more
      than `most` active keys above the highest limit so far: one above it when rotations do not overlap. */
  lemma {:induction false} OverlapBoundsKeys(w0: World, steps: seq<(Step, int)>, w: World, user: Uuid, most: nat)
    requires Initial(w0) && Reaches(w0, steps, w) && AtMostAtOnce(w0, steps, user, most)
    ensures |ActiveKeys(w.ring, user, w.now)| <= w.ceiling + most
  {
    assert ActiveKeys(w0.ring, user, w0.now) == {} && InFlight(w0, user) == {};
    CrowdKept(w0, steps, w, user, most);
  }

  /** A rotation that is written late, and leaves its old key alive, takes its user more than one key above the limit
      it read exactly when the count it passed would no longer pass. */
  lemma LateRotationBreaksTheBoundExactly(r: Keyring, rotation: Rotation, newId: Uuid, now: int)
    requires rotation.oldId in r.keys && newId !in r.keys && !HashTaken(r, rotation.params.hash)
    requires var p := rotation.params;
             && r.keys[rotation.oldId].userId == p.userId && Active(r.keys[rotation.oldId], now)
             && rotation.policy.rotationGraceDays > 0 && (p.expiresAt.Some? ==> p.expiresAt.value > now)
             && rotation.policy.defaultExpiryDays > 0
    ensures var after := WriteRotation(r, rotation, newId, now);
            |ActiveKeys(after, rotation.params.userId, now)| > rotation.policy.maxKeys + 1
            <==> |Others(r, rotation.params.userId, rotation.oldId, now)| >= rotation.policy.maxKeys
  {
    var p := rotation.params;
    assert rotation.policy.rotationGraceDays * DAY > 0 && rotation.policy.defaultExpiryDays * DAY > 0;
    var others := Others(r, p.userId, rotation.oldId, now);
    assert ActiveKeys(WriteRotation(r, rotation, newId, now), p.userId, now) == others + {rotation.oldId} + {newId};
    assert rotation.oldId !in others && newId !in others + {rotation.oldId};
  }

  // ---- The bound is met ----

  ghost predicate Leads(w: World, step: Step, now: int, w': World) {
    Enabled(w, step, now) && Next(w, step, now) == w'
  }

  lemma {:induction false} FourSteps(w0: World, steps: seq<(Step, int)>, w1: World, w2: World, w3: World, w4: World)
    requires |steps| == 4
    requires Leads(w0, steps[0].0, steps[0].1, w1) && Leads(w1, steps[1].0, steps[1].1, w2)
    requires Leads(w2, steps[2].0, steps[2].1, w3) && Leads(w3, steps[3].0, steps[3].1, w4)
    ensures Reaches(w0, steps, w4)
  {
    hide Next, Enabled;
    assert Reaches(w4, steps[4..], w4);
    assert steps[3..][1..] == steps[4..] && Reaches(w3, steps[3..], w4);
    assert steps[2..][1..] == steps[3..] && Reaches(w2, steps[2..], w4);
    assert steps[1..][1..] == steps[2..] && Reaches(w1, steps[1..], w4);
  }

  /** The new key's request, and the old key it replaces, allow for a rotation that leaves both alive. */
  ghost predicate Rotatable(r: Keyring, oldId: Uuid, p: NewKey, now: int) {
    && oldId in ActiveKeys(r, p.userId, now) && p.permitted && p.expiresAt.None? && !HashTaken(r, p.hash)
  }

  lemma LeavesBothAlive(r: Keyring, oldId: Uuid, newId: Uuid, p: NewKey, policy: Policy, now: int)
    requires Rotatable(r, oldId, p, now) && newId !in r.keys && policy.rotationGraceDays > 0
    requires policy.defaultExpiryDays > 0
    ensures oldId in r.keys
    ensures var after := WriteRotation(r, Rotation(oldId, p, policy), newId, now);
            && after.policy == r.policy && after.keys.Keys == r.keys.Keys + {newId}
            && ActiveKeys(after, p.userId, now) == ActiveKeys(r, p.userId, now) + {newId}
            && |ActiveKeys(after, p.userId, now)| == |ActiveKeys(r, p.userId, now)| + 1
  {
    assert policy.rotationGraceDays * DAY > 0 && policy.defaultExpiryDays * DAY > 0;
    hide HashTaken;
    assert newId !in ActiveKeys(r, p.userId, now);
  }

  lemma OnlyItsHashIsTaken(r: Keyring, rotation: Rotation, newId: Uuid, now: int, h: string)
    requires rotation.oldId in r.keys && newId !in r.keys && HashTaken(WriteRotation(r, rotation, newId, now), h)
    ensures HashTaken(r, h) || h == rotation.params.hash
  {
    var after := WriteRotation(r, rotation, newId, now);
    var k :| k in after.keys && after.keys[k].hash == h;
    assert k != newId ==> k in r.keys && r.keys[k].hash == h;
  }

  /** A run in which two rotations of one user's two keys, both counted before either is written, leave two active
      keys above the limit. */
  lemma {:induction false} OverlappingRotations(w: World, a: Uuid, b: Uuid, p: NewKey, q: NewKey, newA: Uuid,
                                                newB: Uuid)
    returns (steps: seq<(Step, int)>, end: World)
    requires w.pending == map[] && a != b && p.userId == q.userId && p.hash != q.hash
    requires Rotatable(w.ring, a, p, w.now) && Rotatable(w.ring, b, q, w.now)
    requires |ActiveKeys(w.ring, p.userId, w.now)| == w.ring.policy.maxKeys
    requires w.ring.policy.rotationGraceDays > 0 && w.ring.policy.defaultExpiryDays > 0
    requires newA !in w.ring.keys && newB !in w.ring.keys && newA != newB
    ensures Reaches(w, steps, end) && |ActiveKeys(end.ring, p.userId, end.now)| == w.ring.policy.maxKeys + 2
  {
    hide Leads, WriteRotation, Rotatable, Reaches, HashTaken, ActiveKeys;
    var policy, t := w.ring.policy, w.now;
    var first, second := Rotation(a, p, policy), Rotation(b, q, policy);
    var w1, w2 := w.(pending := map[0 := first]), w.(pending := map[0 := first, 1 := second]);
    CountsFirst(w, a, p);
    CountsSecond(w, a, b, p, q);
    LeavesBothAlive(w.ring, a, newA, p, policy, t);
    StaysRotatable(w.ring, first, newA, t, b, q);
    var w3 := w2.(ring := WriteRotation(w.ring, first, newA, t), pending := w2.pending - {0});
    WriteLeads(w2, 0, newA);
    LeavesBothAlive(w3.ring, b, newB, q, policy, t);
    end := w3.(ring := WriteRotation(w3.ring, second, newB, t), pending := w3.pending - {1});
    WriteLeads(w3, 1, newB);
    steps := [(Counts(0, a, p), t), (Counts(1, b, q), t), (Writes(0, newA), t), (Writes(1, newB), t)];
    FourSteps(w, steps, w1, w2, w3, end);
  }

  lemma WriteLeads(w: World, k: nat, newId: Uuid)
    requires k in w.pending && w.pending[k].oldId in w.ring.keys && newId !in w.ring.keys
    ensures Leads(w, Writes(k, newId), w.now,
                  w.(ring := WriteRotation(w.ring, w.pending[k], newId, w.now), pending := w.pending - {k}))
  {
    hide WriteRotation;
  }

  lemma StaysRotatable(r: Keyring, first: Rotation, newId: Uuid, now: int, b: Uuid, q: NewKey)
    requires Rotatable(r, first.oldId, first.params, now) && Rotatable(r, b, q, now) && newId !in r.keys
    requires first.params.userId == q.userId && first.params.hash != q.hash
    requires first.policy.rotationGraceDays > 0 && first.policy.defaultExpiryDays > 0
    ensures first.oldId in r.keys && Rotatable(WriteRotation(r, first, newId, now), b, q, now)
  {
    LeavesBothAlive(r, first.oldId, newId, first.params, first.policy, now);
    if HashTaken(WriteRotation(r, first, newId, now), q.hash) {
      OnlyItsHashIsTaken(r, first, newId, now, q.hash);
    }
    hide WriteRotation, ActiveKeys, HashTaken;
  }

  lemma CountsFirst(w: World, a: Uuid, p: NewKey)
    requires w.pending == map[] && Rotatable(w.ring, a, p, w.now)
    requires |ActiveKeys(w.ring, p.userId, w.now)| == w.ring.policy.maxKeys
    ensures Leads(w, Counts(0, a, p), w.now, w.(pending := map[0 := Rotation(a, p, w.ring.policy)]))
  {
  }

  lemma CountsSecond(w: World, a: Uuid, b: Uuid, p: NewKey, q: NewKey)
    requires a != b && Rotatable(w.ring, b, q, w.now)
    requires |ActiveKeys(w.ring, q.userId, w.now)| == w.ring.policy.maxKeys
    ensures var policy := w.ring.policy;
            Leads(w.(pending := map[0 := Rotation(a, p, policy)]), Counts(1, b, q), w.now,
                  w.(pending := map[0 := Rotation(a, p, policy), 1 := Rotation(b, q, policy)]))
  {
  }

  /** Two creations in a fresh keyring whose limit is two. */
  lemma BothCreated(w: World, a: Uuid, b: Uuid, p: NewKey, q: NewKey)
    requires w.ring.keys == map[] && w.ring.policy.maxKeys == 2 && w.ring.policy.defaultExpiryDays > 0 && w.ceiling >= 2
    requires a != b && p.userId == q.userId && p.userId in w.ring.users && w.ring.users[p.userId]
    requires p.permitted && q.permitted && p.expiresAt.None? && q.expiresAt.None? && p.hash != q.hash
    ensures var one := CreateAPIKey(w.ring, a, Some(p), w.now).1;
            var two := CreateAPIKey(one, b, Some(q), w.now).1;
            && two.policy == w.ring.policy && two.keys.Keys == {a, b} && ActiveKeys(two, p.userId, w.now) == {a, b}
            && two.keys[a].hash == p.hash && two.keys[b].hash == q.hash
            && Leads(w, Does(Creates(a, Some(p))), w.now, w.(ring := one))
            && Leads(w.(ring := one), Does(Creates(b, Some(q))), w.now, w.(ring := two))
  {
    assert w.ring.policy.defaultExpiryDays * DAY > 0;
    assert ActiveKeys(w.ring, p.userId, w.now) == {};
    var one := CreateAPIKey(w.ring, a, Some(p), w.now).1;
    assert one.keys == map[a := ApiKeys.Fresh(p, None, w.ring.policy.defaultExpiryDays, w.now)];
    assert ActiveKeys(one, p.userId, w.now) == {a};
    assert !HashTaken(one, q.hash);
  }

  /** A run from an empty keyring to two keys above the limit: two creations, and two rotations that overlap. */
  lemma {:induction false} OverfullFromEmpty(w: World, a: Uuid, b: Uuid, p: NewKey, q: NewKey, newA: Uuid, newB: Uuid,
                                             hashes: seq<string>)
    returns (steps: seq<(Step, int)>, end: World)
    requires Initial(w) && w.ring.policy.maxKeys == 2 && w.ring.policy.rotationGraceDays > 0
    requires |hashes| == 2 && |{a, b, newA, newB}| == 4 && |{p.hash, q.hash, hashes[0], hashes[1]}| == 4
    requires p.userId == q.userId && p.userId in w.ring.users && w.ring.users[p.userId]
    requires p.permitted && q.permitted && p.expiresAt.None? && q.expiresAt.None?
    ensures Reaches(w, steps, end) && |ActiveKeys(end.ring, p.userId, end.now)| == w.ring.policy.maxKeys + 2
  {
    BothCreated(w, a, b, p, q);
    var one := CreateAPIKey(w.ring, a, Some(p), w.now).1;
    var two := CreateAPIKey(one, b, Some(q), w.now).1;
    var first, second := w.(ring := one), w.(ring := two);
    assert Rotatable(two, a, p.(hash := hashes[0]), w.now) && Rotatable(two, b, q.(hash := hashes[1]), w.now);
    hide Leads, Rotatable, CreateAPIKey;
    steps, end := OverlappingRotations(second, a, b, p.(hash := hashes[0]), q.(hash := hashes[1]), newA, newB);
    Before(first, Does(Creates(b, Some(q))), w.now, second, steps, end);
    Before(w, Does(Creates(a, Some(p))), w.now, first, [(Does(Creates(b, Some(q))), w.now)] + steps, end);
    steps := [(Does(Creates(a, Some(p))), w.now)] + ([(Does(Creates(b, Some(q))), w.now)] + steps);
  }

  lemma {:induction false} Before(w: World, step: Step, now: int, next: World, rest: seq<(Step, int)>, end: World)
    requires Leads(w, step, now, next) && Reaches(next, rest, end)
    ensures Reaches(w, [(step, now)] + rest, end)
  {
    hide Next, Enabled;
    assert ([(step, now)] + rest)[1..] == rest;
  }

  // ---- Death ----

  predicate Dead(w: World, k: Uuid) {
    k in w.ring.keys && !Active(w.ring.keys[k], w.now)
  }

  lemma WritingRevivesNone(r: Keyring, rotation: Rotation, newId: Uuid, now: int, k: Uuid)
    requires rotation.oldId in r.keys && newId !in r.keys && k in r.keys
    ensures StaysDead(r, WriteRotation(r, rotation, newId, now), k, now)
  {
    hide HashTaken;
  }

  lemma WritingKeepsHashes(r: Keyring, rotation: Rotation, newId: Uuid, now: int)
    requires HashesDiffer(r) && rotation.oldId in r.keys && newId !in r.keys
    ensures HashesDiffer(WriteRotation(r, rotation, newId, now))
  {
    if !HashTaken(r, rotation.params.hash) {
      IssuedHashDiffers(r, WriteRotation(r, rotation, newId, now), newId);
    }
  }

  lemma DeathKeptByStep(w: World, step: Step, now: int, k: Uuid)
    requires HashesDiffer(w.ring) && Enabled(w, step, now) && Dead(w, k)
    ensures HashesDiffer(Next(w, step, now).ring) && Dead(Next(w, step, now), k)
    ensures Next(w, step, now).ring.keys[k].hash == w.ring.keys[k].hash
  {
    hide After, WriteRotation, HashesDiffer, CountPasses;
    match step
    case Does(s) =>
      var v := ApiKeys.World(w.ring, w.now, w.ceiling);
      ApiKeys.DeathKeptByStep(v, s, now, k);
      HashesStayDifferent(v, s, now);
    case Writes(j, newId) =>
      WritingRevivesNone(w.ring, w.pending[j], newId, now, k);
      WritingKeepsHashes(w.ring, w.pending[j], newId, now);
    case _ =>
  }

  /** However rotations overlap, a secret whose key was once revoked or expired is never let in again. */
  lemma {:induction false} DeadKeyIsNeverAccepted(w: World, steps: seq<(Step, int)>, end: World, k: Uuid)
    requires HashesDiffer(w.ring) && Reaches(w, steps, end) && Dead(w, k)
    ensures !Accepts(end.ring, w.ring.keys[k].hash, end.now)
    decreases |steps|
  {
    if steps != [] {
      hide Next, HashesDiffer, Accepts;
      DeathKeptByStep(w, steps[0].0, steps[0].1, k);
      DeadKeyIsNeverAccepted(Next(w, steps[0].0, steps[0].1), steps[1..], end, k);
    }
  }
}
