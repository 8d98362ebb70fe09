/** Creations that overlap: the ten-slot limit is counted in one statement and filled in another. */
module DocumentSlots {
  import opened Wrappers
  import opened Text
  import opened Uuids
  import opened Guides
  import opened GuidesProof

  /** A creation that has counted and not yet inserted. History only: what was inserted and deleted for its app
      since. */
  datatype Creation = Creation(app: Uuid, input: Input, counted: nat, landed: nat, removed: nat)

  datatype World = World(docs: Documents, pending: map<nat, Creation>)

  datatype Step =
    | Counts(creation: nat, app: Uuid, input: Input)
    | Inserts(creation: nat)
    | Abandons(creation: nat)
    | Replaces(current: (Uuid, string), input: Input)
    | Deletes(key: (Uuid, string))

  predicate Enabled(w: World, step: Step) {
    match step
    case Counts(k, _, _) => k !in w.pending
    case Inserts(k) => k in w.pending
    case Abandons(k) => k in w.pending
    case Replaces(_, _) => true
    case Deletes(_) => true
  }

  /** The creations in progress after a row of an app came or went. */
  function Noted(pending: map<nat, Creation>, app: Uuid, landed: nat, removed: nat): map<nat, Creation> {
    map k | k in pending ::
      if pending[k].app == app
      then pending[k].(landed := pending[k].landed + landed, removed := pending[k].removed + removed)
      else pending[k]
  }

  function Next(w: World, step: Step, env: Env): World
    requires Enabled(w, step)
  {
    match step
    case Counts(k, app, input) =>
      if CountForCreate(w.docs, app, input).Err? then w
      else w.(pending := w.pending[k := Creation(app, input, |AppKeys(w.docs, app)|, 0, 0)])
    case Inserts(k) =>
      var c := w.pending[k];
      var r := InsertDocument(w.docs, c.app, c.input, env);
      if r.Err? then w.(pending := w.pending - {k})
      else World(r.value, Noted(w.pending - {k}, c.app, 1, 0))
    case Abandons(k) => w.(pending := w.pending - {k})
    case Replaces(current, input) =>
      var r := ReplaceAppDocument(w.docs, current, input, env);
      if r.Err? then w else w.(docs := r.value)
    case Deletes(key) =>
      var r := DeleteAppDocument(w.docs, key);
      if r.Err? then w else World(r.value, Noted(w.pending, key.0, 0, 1))
  }

  ghost predicate Reaches(w: World, steps: seq<Step>, end: World, env: Env)
    decreases |steps|
  {
    if steps == [] then w == end
    else Enabled(w, steps[0]) && Reaches(Next(w, steps[0], env), steps[1..], end, env)
  }

  ghost predicate Initial(w: World) {
    w.pending == map[] && TenSlots(w.docs)
  }

  function Held(w: World, app: Uuid): nat {
    |AppKeys(w.docs, app)|
  }

  function NameKey(app: Uuid, input: Input): (Uuid, string) {
    RowKey(app, Trim(input.fileName))
  }

  // ---- Row counts ----

  lemma InsertedRow(docs: Documents, key: (Uuid, string), d: Document, app: Uuid)
    requires key !in docs
    ensures |AppKeys(docs[key := d], app)| == |AppKeys(docs, app)| + (if key.0 == app then 1 else 0)
  {
    if key.0 == app {
      assert AppKeys(docs[key := d], app) == AppKeys(docs, app) + {key};
    } else {
      assert AppKeys(docs[key := d], app) == AppKeys(docs, app);
    }
  }

  lemma DeletedRow(docs: Documents, key: (Uuid, string), app: Uuid)
    requires key in docs
    ensures |AppKeys(docs, app)| == |AppKeys(docs - {key}, app)| + (if key.0 == app then 1 else 0)
  {
    if key.0 == app {
      assert AppKeys(docs, app) == AppKeys(docs - {key}, app) + {key};
    } else {
      assert AppKeys(docs, app) == AppKeys(docs - {key}, app);
    }
  }

  lemma ReplacedRow(docs: Documents, current: (Uuid, string), input: Input, env: Env, app: Uuid)
    requires ReplaceAppDocument(docs, current, input, env).Ok?
    ensures |AppKeys(ReplaceAppDocument(docs, current, input, env).value, app)| == |AppKeys(docs, app)|
  {
    var key := RowKey(current.0, Trim(input.fileName));
    var kept := docs - {current};
    DeletedRow(docs, current, app);
    InsertedRow(kept, key, Stored(docs[current].id, input, env), app);
  }

  // ---- What a creation in progress knows ----

  /** The rows an app has now are those counted, plus what landed, minus what went. */
  ghost predicate Accounted(w: World, c: Creation) {
    && Storable(c.input) && c.counted < MAX_APP_DOCUMENTS
    && Held(w, c.app) + c.removed == c.counted + c.landed
  }

  ghost predicate AllAccounted(w: World) {
    forall k :: k in w.pending ==> Accounted(w, w.pending[k])
  }

  lemma InsertKeepsAccounts(w: World, k: nat, env: Env)
    requires AllAccounted(w) && k in w.pending
    ensures AllAccounted(Next(w, Inserts(k), env))
  {
    var w', c := Next(w, Inserts(k), env), w.pending[k];
    var key := NameKey(c.app, c.input);
    forall j | j in w'.pending ensures Accounted(w', w'.pending[j]) {
      assert Accounted(w, w.pending[j]);
      if key !in w.docs {
        InsertedRow(w.docs, key, w'.docs[key], w.pending[j].app);
      }
    }
  }

  lemma DeleteKeepsAccounts(w: World, key: (Uuid, string), env: Env)
    requires AllAccounted(w)
    ensures AllAccounted(Next(w, Deletes(key), env))
  {
    var w' := Next(w, Deletes(key), env);
    forall j | j in w'.pending ensures Accounted(w', w'.pending[j]) {
      assert Accounted(w, w.pending[j]);
      if key in w.docs {
        DeletedRow(w.docs, key, w.pending[j].app);
      }
    }
  }

  lemma ReplaceKeepsAccounts(w: World, current: (Uuid, string), input: Input, env: Env)
    requires AllAccounted(w)
    ensures AllAccounted(Next(w, Replaces(current, input), env))
  {
    var w' := Next(w, Replaces(current, input), env);
    forall j | j in w'.pending ensures Accounted(w', w'.pending[j]) {
      assert Accounted(w, w.pending[j]);
      if w'.docs != w.docs {
        ReplacedRow(w.docs, current, input, env, w.pending[j].app);
      }
    }
  }

  lemma StepKeepsAccounts(w: World, step: Step, env: Env)
    requires AllAccounted(w) && Enabled(w, step)
    ensures AllAccounted(Next(w, step, env))
  {
    match step
    case Counts(_, _, _) =>
    case Inserts(k) => InsertKeepsAccounts(w, k, env);
    case Abandons(_) =>
    case Replaces(current, input) => ReplaceKeepsAccounts(w, current, input, env);
    case Deletes(key) => DeleteKeepsAccounts(w, key, env);
  }

  lemma {:induction false} RunKeepsAccounts(w: World, steps: seq<Step>, end: World, env: Env)
    requires AllAccounted(w) && Reaches(w, steps, end, env)
    ensures AllAccounted(end)
    decreases |steps|
  {
    if steps != [] {
      StepKeepsAccounts(w, steps[0], env);
      RunKeepsAccounts(Next(w, steps[0], env), steps[1..], end, env);
    }
  }

  /** In every run: an insertion that finds its name free takes its app above ten documents exactly when, since its
      count, enough other insertions for that app landed to use up the room counted, net of deletions. One that
      counted nine does so exactly when more landed than went. */
  lemma {:induction false} InsertionBreaksTheBoundExactly(w0: World, steps: seq<Step>, w: World, k: nat, env: Env)
    requires Initial(w0) && Reaches(w0, steps, w, env) && k in w.pending
    requires NameKey(w.pending[k].app, w.pending[k].input) !in w.docs
    ensures var c := w.pending[k];
            && (Held(Next(w, Inserts(k), env), c.app) > MAX_APP_DOCUMENTS
                <==> c.landed >= c.removed + (MAX_APP_DOCUMENTS - c.counted))
            && (c.counted == 9 ==>
                  (Held(Next(w, Inserts(k), env), c.app) > MAX_APP_DOCUMENTS <==> c.landed > c.removed))
  {
    RunKeepsAccounts(w0, steps, w, env);
    var c, w' := w.pending[k], Next(w, Inserts(k), env);
    var key := NameKey(c.app, c.input);
    assert Accounted(w, c);
    InsertedRow(w.docs, key, w'.docs[key], c.app);
  }

  // ---- How far the limit can be passed ----

  function InFlight(w: World, app: Uuid): set<nat> {
    set k | k in w.pending && w.pending[k].app == app
  }

  /** Never more than `most` creations for the app at once. */
  ghost predicate AtMostAtOnce(w: World, steps: seq<Step>, app: Uuid, most: nat, env: Env)
    decreases |steps|
  {
    && |InFlight(w, app)| <= most
    && (steps != [] && Enabled(w, steps[0]) ==> AtMostAtOnce(Next(w, steps[0], env), steps[1..], app, most, env))
  }

  /** Below the limit there is room; at or above it, no creation starts, so what is in flight is all that can come. */
  ghost predicate Crowd(w: World, app: Uuid, most: nat) {
    Held(w, app) < MAX_APP_DOCUMENTS || Held(w, app) + |InFlight(w, app)| < MAX_APP_DOCUMENTS + most
  }

  lemma LessInFlight(w: World, w': World, app: Uuid)
    requires InFlight(w', app) <= InFlight(w, app)
    ensures |InFlight(w', app)| <= |InFlight(w, app)|
  {
    assert InFlight(w, app) == InFlight(w', app) + (InFlight(w, app) - InFlight(w', app));
  }

  lemma OneLessInFlight(w: World, w': World, k: nat, app: Uuid)
    requires k in w.pending && w'.pending.Keys == w.pending.Keys - {k}
    requires forall j :: j in w'.pending ==> w'.pending[j].app == w.pending[j].app
    ensures |InFlight(w, app)| == |InFlight(w', app)| + (if w.pending[k].app == app then 1 else 0)
  {
    var before, after := InFlight(w, app), InFlight(w', app);
    forall j ensures j in after <==> j in before && j != k {
      assert j in w'.pending.Keys <==> j in w.pending.Keys && j != k;
    }
    RemovedOne(before, after, k);
  }

  lemma RemovedOne<T>(before: set<T>, after: set<T>, x: T)
    requires forall y :: y in after <==> y in before && y != x
    ensures |before| == |after| + (if x in before then 1 else 0)
  {
    assert after == before - {x};
  }

  /** An insertion adds a row if its name is free. */
  lemma RowLands(w: World, k: nat, app: Uuid, env: Env)
    requires k in w.pending
    ensures var c := w.pending[k];
            Held(Next(w, Inserts(k), env), app)
            == Held(w, app) + (if c.app == app && NameKey(c.app, c.input) !in w.docs then 1 else 0)
  {
    var c := w.pending[k];
    var key := NameKey(c.app, c.input);
    if key !in w.docs {
      InsertedRow(w.docs, key, Stored(env.idFor(c.app, Trim(c.input.fileName)), c.input, env), app);
    }
  }

  /** Either way it ends its creation. */
  lemma InsertEffect(w: World, k: nat, app: Uuid, env: Env)
    requires k in w.pending
    ensures var w', c := Next(w, Inserts(k), env), w.pending[k];
            && |InFlight(w, app)| == |InFlight(w', app)| + (if c.app == app then 1 else 0)
            && Held(w', app) == Held(w, app) + (if c.app == app && NameKey(c.app, c.input) !in w.docs then 1 else 0)
  {
    RowLands(w, k, app, env);
    OneLessInFlight(w, Next(w, Inserts(k), env), k, app);
  }

  lemma InsertKeepsCrowd(w: World, k: nat, app: Uuid, most: nat, env: Env)
    requires k in w.pending && Crowd(w, app, most) && |InFlight(w, app)| <= most
    ensures Crowd(Next(w, Inserts(k), env), app, most)
  {
    InsertEffect(w, k, app, env);
  }

  lemma OtherStepsKeepCrowd(w: World, step: Step, app: Uuid, most: nat, env: Env)
    requires Enabled(w, step) && !step.Inserts? && Crowd(w, app, most)
    ensures Crowd(Next(w, step, env), app, most)
  {
    var w' := Next(w, step, env);
    match step
    case Counts(k, counted, input) =>
      if counted != app {
        assert InFlight(w', app) == InFlight(w, app);
      }
    case Abandons(k) => LessInFlight(w, w', app);
    case Replaces(current, input) =>
      LessInFlight(w, w', app);
      if w'.docs != w.docs {
        ReplacedRow(w.docs, current, input, env, app);
      }
    case Deletes(key) =>
      LessInFlight(w, w', app);
      if key in w.docs {
        DeletedRow(w.docs, key, app);
      }
    case Inserts(_) =>
  }

  lemma {:induction false} CrowdKept(w: World, steps: seq<Step>, end: World, app: Uuid, most: nat, env: Env)
    requires Reaches(w, steps, end, env) && AtMostAtOnce(w, steps, app, most, env) && Crowd(w, app, most)
    ensures Crowd(end, app, most)
    decreases |steps|
  {
    if steps != [] {
      if steps[0].Inserts? {
        InsertKeepsCrowd(w, steps[0].creation, app, most, env);
      } else {
        OtherStepsKeepCrowd(w, steps[0], app, most, env);
      }
      CrowdKept(Next(w, steps[0], env), steps[1..], end, app, most, env);
    }
  }

  /** In every run with at most `most` creations for an app at once, it never carries more than nine and `most`
      documents: ten when creations do not overlap. */
  lemma {:induction false} OverlapBoundsDocuments(w0: World, steps: seq<Step>, w: World, app: Uuid, most: nat, env: Env)
    requires Initial(w0) && Reaches(w0, steps, w, env) && most >= 1 && AtMostAtOnce(w0, steps, app, most, env)
    ensures Held(w, app) < MAX_APP_DOCUMENTS + most
    ensures most == 1 ==> Held(w, app) <= MAX_APP_DOCUMENTS
  {
    assert |AppKeys(w0.docs, app)| <= MAX_APP_DOCUMENTS;
    assert InFlight(w0, app) == {};
    CrowdKept(w0, steps, w, app, most, env);
  }

  // ---- The bound is met ----

  /** From `from` on, the inputs can be stored under names that differ and are free. */
  ghost predicate Fresh(docs: Documents, app: Uuid, inputs: seq<Input>, from: nat) {
    && (forall i :: from <= i < |inputs| ==> Storable(inputs[i]) && NameKey(app, inputs[i]) !in docs)
    && (forall i, j :: from <= i < j < |inputs| ==> NameKey(app, inputs[i]) != NameKey(app, inputs[j]))
  }

  lemma {:induction false} RunsJoin(w: World, s: seq<Step>, m: World, t: seq<Step>, end: World, env: Env)
    requires Reaches(w, s, m, env) && Reaches(m, t, end, env)
    ensures Reaches(w, s + t, end, env)
    decreases |s|
  {
    if s == [] {
      assert s + t == t;
    } else {
      assert (s + t)[1..] == s[1..] + t;
      RunsJoin(Next(w, s[0], env), s[1..], m, t, end, env);
    }
  }

  lemma {:induction false} OneStep(w: World, step: Step, env: Env)
    requires Enabled(w, step)
    ensures Reaches(w, [step], Next(w, step, env), env)
  {
    var rest := [step][1..];
    assert rest == [];
    assert Reaches(Next(w, step, env), rest, Next(w, step, env), env);
  }

  lemma {:induction false} OneInTurn(w: World, app: Uuid, input: Input, env: Env) returns (end: World)
    requires w.pending == map[] && Storable(input) && NameKey(app, input) !in w.docs && Held(w, app) < MAX_APP_DOCUMENTS
    ensures Reaches(w, [Counts(0, app, input)] + [Inserts(0)], end, env) && end.pending == map[]
    ensures Held(end, app) == Held(w, app) + 1 && end.docs.Keys == w.docs.Keys + {NameKey(app, input)}
  {
    var counted := Next(w, Counts(0, app, input), env);
    end := Next(counted, Inserts(0), env);
    RowLands(counted, 0, app, env);
    OneStep(w, Counts(0, app, input), env);
    OneStep(counted, Inserts(0), env);
    RunsJoin(w, [Counts(0, app, input)], counted, [Inserts(0)], end, env);
  }

  /** Creations one after the other fill the slots one by one, up to input `upTo`. */
  lemma {:induction false} FilledInTurn(w: World, app: Uuid, inputs: seq<Input>, from: nat, upTo: nat, env: Env)
    returns (steps: seq<Step>, end: World)
    requires w.pending == map[] && from <= upTo <= |inputs| && Fresh(w.docs, app, inputs, from)
    requires Held(w, app) + upTo - from <= MAX_APP_DOCUMENTS
    ensures Reaches(w, steps, end, env) && end.pending == map[] && Held(end, app) == Held(w, app) + upTo - from
    ensures Fresh(end.docs, app, inputs, upTo)
    decreases upTo - from
  {
    if from == upTo {
      steps, end := [], w;
    } else {
      var placed := OneInTurn(w, app, inputs[from], env);
      var rest;
      rest, end := FilledInTurn(placed, app, inputs, from + 1, upTo, env);
      RunsJoin(w, [Counts(0, app, inputs[from])] + [Inserts(0)], placed, rest, end, env);
      steps := [Counts(0, app, inputs[from])] + [Inserts(0)] + rest;
    }
  }

  /** Creations `from` up to `upTo` have counted and wait, one for each input. */
  ghost predicate Waiting(pending: map<nat, Creation>, app: Uuid, inputs: seq<Input>, from: nat, upTo: nat)
    requires upTo <= |inputs|
  {
    && (forall k :: k in pending <==> from <= k < upTo)
    && forall k :: k in pending ==> pending[k].app == app && pending[k].input == inputs[k]
  }

  lemma OneMoreWaits(w: World, docs: Documents, app: Uuid, inputs: seq<Input>, from: nat, k: nat, env: Env)
    requires from <= k < |inputs| && w.docs == docs && Waiting(w.pending, app, inputs, from, k)
    requires Fresh(docs, app, inputs, from) && |AppKeys(docs, app)| < MAX_APP_DOCUMENTS
    ensures Enabled(w, Counts(k, app, inputs[k]))
    ensures var w' := Next(w, Counts(k, app, inputs[k]), env);
            w'.docs == docs && Waiting(w'.pending, app, inputs, from, k + 1)
  {
    hide AppKeys;
  }

  /** Everyone counts before anyone inserts. */
  lemma {:induction false} AllCount(w: World, app: Uuid, inputs: seq<Input>, from: nat, upTo: nat, env: Env)
    returns (steps: seq<Step>, end: World)
    requires from <= upTo <= |inputs| && w.pending == map[] && Fresh(w.docs, app, inputs, from)
    requires Held(w, app) < MAX_APP_DOCUMENTS
    ensures Reaches(w, steps, end, env) && end.docs == w.docs && Waiting(end.pending, app, inputs, from, upTo)
    decreases upTo - from
  {
    if from == upTo {
      steps, end := [], w;
    } else {
      var before: World;
      steps, before := AllCount(w, app, inputs, from, upTo - 1, env);
      var step := Counts(upTo - 1, app, inputs[upTo - 1]);
      OneMoreWaits(before, w.docs, app, inputs, from, upTo - 1, env);
      hide Next, Reaches, Waiting, Fresh;
      end := Next(before, step, env);
      OneStep(before, step, env);
      RunsJoin(w, steps, before, [step], end, env);
      steps := steps + [step];
    }
  }

  lemma NextLands(w: World, app: Uuid, inputs: seq<Input>, from: nat, env: Env)
    requires from < |inputs| && Waiting(w.pending, app, inputs, from, |inputs|) && Fresh(w.docs, app, inputs, from)
    ensures var w' := Next(w, Inserts(from), env);
            && Waiting(w'.pending, app, inputs, from + 1, |inputs|) && Fresh(w'.docs, app, inputs, from + 1)
            && Held(w', app) == Held(w, app) + 1
  {
    RowLands(w, from, app, env);
    var w' := Next(w, Inserts(from), env);
    assert w'.docs.Keys == w.docs.Keys + {NameKey(app, inputs[from])};
    assert w'.pending.Keys == w.pending.Keys - {from};
  }

  lemma {:induction false} AllInsert(w: World, app: Uuid, inputs: seq<Input>, from: nat, env: Env)
    returns (steps: seq<Step>, end: World)
    requires from <= |inputs| && Waiting(w.pending, app, inputs, from, |inputs|) && Fresh(w.docs, app, inputs, from)
    ensures Reaches(w, steps, end, env) && Held(end, app) == Held(w, app) + |inputs| - from
    decreases |inputs| - from
  {
    if from == |inputs| {
      steps, end := [], w;
    } else {
      NextLands(w, app, inputs, from, env);
      var rest;
      rest, end := AllInsert(Next(w, Inserts(from), env), app, inputs, from + 1, env);
      steps := [Inserts(from)] + rest;
      assert steps[1..] == rest;
    }
  }

  /** The bound is met: with nine documents, creations that all count before any inserts all land. */
  lemma {:induction false} OverlapFillsTheBound(w: World, app: Uuid, inputs: seq<Input>, from: nat, env: Env)
    returns (steps: seq<Step>, end: World)
    requires w.pending == map[] && Held(w, app) == 9 && from <= |inputs| && Fresh(w.docs, app, inputs, from)
    ensures Reaches(w, steps, end, env) && Held(end, app) == 9 + |inputs| - from
  {
    var counted: World;
    steps, counted := AllCount(w, app, inputs, from, |inputs|, env);
    var more;
    more, end := AllInsert(counted, app, inputs, from, env);
    RunsJoin(w, steps, counted, more, end, env);
    steps := steps + more;
  }

  /** A run from the empty store to eleven documents: nine uploads in turn, then two that overlap. */
  lemma {:induction false} ElevenDocuments(app: Uuid, inputs: seq<Input>, env: Env)
    returns (steps: seq<Step>, end: World)
    requires |inputs| == 11 && Fresh(map[], app, inputs, 0)
    ensures Initial(World(map[], map[])) && Reaches(World(map[], map[]), steps, end, env) && Held(end, app) == 11
  {
    var w := World(map[], map[]);
    forall a ensures |AppKeys(w.docs, a)| <= MAX_APP_DOCUMENTS {
      assert AppKeys(w.docs, a) == {};
    }
    assert AppKeys(w.docs, app) == {};
    var nine, more;
    steps, nine := FilledInTurn(w, app, inputs, 0, 9, env);
    more, end := OverlapFillsTheBound(nine, app, inputs, 9, env);
    RunsJoin(w, steps, nine, more, end, env);
    steps := steps + more;
  }
}
