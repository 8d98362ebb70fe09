/** Whole runs: store transactions of many requests, interleaved with the separate steps of the
    requests that verify an app's security review. */
module Runs {
  import opened Wrappers
  import opened Uuids
  import opened SecurityBinding
  import opened SecCheck
  import opened Catalog

  /** How far one verification request has got, and what it holds. `version` is history only: how often an
      administrator had changed the app's content when the request read it. */
  datatype Session =
    | Started(app: Uuid, requested: string)
    | SettingsRead(app: Uuid, requested: string, settings: Settings)
    | ChallengeRead(app: Uuid, reviewId: string, settings: Settings, nonce: Uuid)
    | AppRead(app: Uuid, reviewId: string, settings: Settings, nonce: Uuid, input: AppInput, version: nat)
    | ReviewFetched(app: Uuid, settings: Settings, nonce: Uuid, input: AppInput, version: nat, review: Review)
    | BindingRead(app: Uuid, settings: Settings, nonce: Uuid, input: AppInput, version: nat, review: Review,
                  bound: Option<Option<Uuid>>)

  function ReadSettings(db: Db, s: Session): Session
    requires s.Started?
  {
    SettingsRead(s.app, s.requested, db.settings)
  }

  function AttachedReview(db: Db, id: Uuid): string
    requires id in db.apps
  {
    var reviewId := db.apps[id].reviewId;
    if reviewId.Some? && reviewId.value in db.checks then reviewId.value else ""
  }

  /** Reads the challenge; with no review asked for, the attached one is meant. */
  function ReadChallenge(db: Db, s: Session): Option<Session>
    requires s.SettingsRead?
  {
    if s.app !in db.apps then None
    else
      var reviewId := if s.requested != "" then s.requested else AttachedReview(db, s.app);
      if reviewId == "" then None else Some(ChallengeRead(s.app, reviewId, s.settings, db.apps[s.app].nonce))
  }

  /** Reads the app a second time, then needs a configured connection to go on. */
  function ReadApp(db: Db, s: Session, version: nat): Option<Session>
    requires s.ChallengeRead?
  {
    if s.app !in db.apps then None
    else if s.settings.baseUrl == "" || s.settings.apiKey == "" then None
    else Some(AppRead(s.app, s.reviewId, s.settings, s.nonce, BindingInput(db.apps[s.app]), version))
  }

  /** Looks up whether the review's row names an app. The app and the settings are locked from before this to the end of
      the transaction, the row looked for is not. */
  function ReadBinding(db: Db, s: Session): Session
    requires s.ReviewFetched?
  {
    BindingRead(s.app, s.settings, s.nonce, s.input, s.version, s.review, BoundTo(db, s.review.id))
  }

  function Judge(s: Session, now: int, digest: AppInput -> string): Verdict
    requires s.BindingRead?
  {
    Verify(Some(s.review), BindingText(s.app, s.nonce, s.input, digest), s.input.name, now)
  }

  function ResultOf(review: Review): CheckResult {
    CheckResult(review.id, review.number, review.status, review.finalResult, review.approvedAt)
  }

  /** What a finished request did: refused the review, or tried to record it. */
  datatype Conclusion = Refused(verdict: Verdict) | Attempted(verdict: Verdict, reply: Result<()>)

  function Conclude(db: Db, s: Session, now: int, digest: AppInput -> string): (Conclusion, Db)
    requires s.BindingRead?
  {
    var verdict := Judge(s, now, digest);
    if !Recordable(verdict) then (Refused(verdict), db)
    else
      var recorded := StoreCheck(db, s.bound, s.app, s.nonce, s.settings.revision, ResultOf(s.review), now);
      (Attempted(verdict, recorded.0), recorded.1)
  }

  // ---- Worlds ----

  datatype Link = Link(baseUrl: string, apiKey: string)

  function LinkOf(settings: Settings): Link {
    Link(settings.baseUrl, settings.apiKey)
  }

  /** The comparison behind a recorded check: which app, challenge and content, over which connection, when. */
  datatype Provenance = Provenance(app: Uuid, nonce: Uuid, input: AppInput, version: nat, link: Link, review: Review,
                                   at: int)

  /** History only: every connection each revision has stood for, the provenance of each recorded review, and how often
      an administrator changed the content of each app. */
  datatype SecurityLog = SecurityLog(
    given: set<(nat, Link)>, provenance: map<string, Provenance>, rewrites: map<Uuid, nat>)

  function Given(settings: Settings): (nat, Link) {
    (settings.revision, LinkOf(settings))
  }

  function Rewrites(log: SecurityLog, a: Uuid): nat {
    if a in log.rewrites then log.rewrites[a] else 0
  }

  /** History only: the reviews of each submission in level order, the submission of each review, whether
      self-approval was prevented at each decision, and the apps whose status was set by hand since their
      last submission. */
  datatype WorkflowLog = WorkflowLog(
    chains: seq<seq<Uuid>>, chainOf: map<Uuid, nat>, guarded: map<Uuid, bool>, overridden: set<Uuid>)

  /** The tables, the requests under way, and the saves of the security settings under way with what each has read. */
  datatype World = World(
    db: Db, sessions: map<nat, Session>, saves: map<nat, Settings>, issued: set<Uuid>, log: SecurityLog,
    flow: WorkflowLog)

  datatype Step =
    | CreatesApp(id: Uuid, nonce: Uuid, input: Option<AppInput>, category: Option<Uuid>, status: Option<AppStatus>,
                 now: int)
    | UpdatesApp(id: Uuid, input: Option<AppInput>, category: Option<Uuid>, nonce: Uuid)
    | AdminUpdatesApp(id: Uuid, input: Option<AppInput>, category: Option<Uuid>, status: Option<AppStatus>, now: int)
    | DeletesApp(id: Uuid)
    | SetsStatus(id: Uuid, status: Option<AppStatus>, now: int)
    | Submits(id: Uuid, submitter: Uuid, review: Uuid, now: int)
    | Decides(review: Uuid, reviewer: Uuid, decision: Option<Decision>, reason: string, next: Uuid, now: int)
    | Configures(config: WorkflowConfig)
    | ReadsConnection(save: nat)
    | Connects(save: nat, enabled: bool, baseUrl: string, timeoutSeconds: int, newKey: Option<string>)
    | Begins(session: nat, id: Uuid, requested: string)
    | ReadsSettings(session: nat)
    | ReadsChallenge(session: nat)
    | ReadsApp(session: nat)
    | Fetches(session: nat, answer: Review)
    | ReadsBinding(session: nat)
    | Concludes(session: nat, now: int)
    | Abandons(session: nat)

  /** What the surroundings guarantee of a step: generated identifiers are new, a request is at the stage the
      step belongs to, and an answer is one the client accepts. */
  ghost predicate Enabled(w: World, step: Step) {
    match step
    case CreatesApp(id, nonce, _, _, _, _) => id !in w.issued && nonce !in w.issued && id != nonce
    case UpdatesApp(_, input, category, nonce) =>
      nonce !in w.issued && (input.Some? ==> ParsedAs(input.value.categoryId, category))
    case Submits(_, _, review, _) => review !in w.issued
    case Decides(_, _, _, _, next, _) => next !in w.issued
    case Begins(session, id, _) => session !in w.sessions && id in w.db.apps
    case ReadsSettings(k) => k in w.sessions && w.sessions[k].Started?
    case ReadsChallenge(k) => k in w.sessions && w.sessions[k].SettingsRead?
    case ReadsApp(k) => k in w.sessions && w.sessions[k].ChallengeRead?
    case Fetches(k, answer) => k in w.sessions && w.sessions[k].AppRead? && Fetched(answer, w.sessions[k].reviewId)
    case ReadsBinding(k) => k in w.sessions && w.sessions[k].ReviewFetched?
    case Concludes(k, _) => k in w.sessions && w.sessions[k].BindingRead?
    case ReadsConnection(k) => k !in w.saves
    case Connects(k, _, _, _, _) => k in w.saves
    case _ => true
  }

  function Progress(w: World, k: nat, next: Option<Session>): World {
    w.(sessions := if next.Some? then w.sessions[k := next.value] else w.sessions - {k})
  }

  function Next(w: World, step: Step, digest: AppInput -> string): World
    requires Enabled(w, step)
  {
    match step
    case CreatesApp(id, nonce, input, category, status, now) =>
      w.(db := CreateApp(w.db, id, nonce, input, category, status, now).1, issued := w.issued + {id, nonce})
    case UpdatesApp(id, input, category, nonce) => AfterUpdate(w, id, input, category, nonce)
    case AdminUpdatesApp(id, input, category, status, now) => AfterAdminUpdate(w, id, input, category, status, now)
    case DeletesApp(id) => w.(db := DeleteApp(w.db, id).1)
    case SetsStatus(id, status, now) => AfterSetStatus(w, id, status, now)
    case Submits(id, submitter, review, now) => AfterSubmit(w, id, submitter, review, now)
    case Decides(review, reviewer, decision, reason, next, now) =>
      AfterDecide(w, review, reviewer, decision, reason, next, now)
    case Configures(config) => w.(db := UpdateWorkflowConfig(w.db, config).1)
    case ReadsConnection(k) => w.(saves := w.saves[k := w.db.settings])
    case Connects(k, enabled, baseUrl, timeoutSeconds, newKey) =>
      AfterConnect(w, k, enabled, baseUrl, timeoutSeconds, newKey)
    case Begins(k, id, requested) => w.(sessions := w.sessions[k := Started(id, requested)])
    case ReadsSettings(k) => Progress(w, k, Some(ReadSettings(w.db, w.sessions[k])))
    case ReadsChallenge(k) => Progress(w, k, ReadChallenge(w.db, w.sessions[k]))
    case ReadsApp(k) => Progress(w, k, ReadApp(w.db, w.sessions[k], Rewrites(w.log, w.sessions[k].app)))
    case Fetches(k, answer) =>
      var s := w.sessions[k];
      Progress(w, k, Some(ReviewFetched(s.app, s.settings, s.nonce, s.input, s.version, answer)))
    case ReadsBinding(k) => Progress(w, k, Some(ReadBinding(w.db, w.sessions[k])))
    case Concludes(k, now) => AfterConclude(w, k, now, digest)
    case Abandons(k) => Progress(w, k, None)
  }

  /** The save is written over whatever the settings are by then. */
  function AfterConnect(w: World, k: nat, enabled: bool, baseUrl: string, timeoutSeconds: int,
                        newKey: Option<string>): World
    requires k in w.saves
  {
    var saved := SavedSettings(w.saves[k], enabled, baseUrl, timeoutSeconds, newKey);
    if saved.Err? then w.(saves := w.saves - {k})
    else w.(db := w.db.(settings := saved.value), saves := w.saves - {k},
            log := w.log.(given := w.log.given + {Given(saved.value)}))
  }

  function AfterUpdate(w: World, id: Uuid, input: Option<AppInput>, category: Option<Uuid>, nonce: Uuid): World {
    w.(db := UpdateApp(w.db, id, input, category, nonce).1, issued := w.issued + {nonce})
  }

  function AfterAdminUpdate(w: World, id: Uuid, input: Option<AppInput>, category: Option<Uuid>,
                            status: Option<AppStatus>, now: int): World
  {
    var done := AdminUpdateApp(w.db, id, input, category, status, now);
    if done.0.Err? || id !in w.db.apps || id !in done.1.apps then w.(db := done.1)
    else
      var changed := BindingInput(done.1.apps[id]) != BindingInput(w.db.apps[id]);
      var rewritten := w.log.(rewrites := w.log.rewrites[id := Rewrites(w.log, id) + 1]);
      w.(db := done.1, log := if changed then rewritten else w.log,
         flow := w.flow.(overridden := w.flow.overridden + {id}))
  }

  function AfterSetStatus(w: World, id: Uuid, status: Option<AppStatus>, now: int): World {
    var done := SetAppStatus(w.db, id, status, now);
    w.(db := done.1, flow := if done.0.Ok? then w.flow.(overridden := w.flow.overridden + {id}) else w.flow)
  }

  function AfterSubmit(w: World, id: Uuid, submitter: Uuid, review: Uuid, now: int): World {
    var done := SubmitApp(w.db, id, submitter, review, now);
    var flow := if done.0.Err? then w.flow
                else if done.0.value.None? then w.flow.(overridden := w.flow.overridden - {id})
                else w.flow.(overridden := w.flow.overridden - {id}, chains := w.flow.chains + [[review]],
                             chainOf := w.flow.chainOf[review := |w.flow.chains|]);
    w.(db := done.1, issued := w.issued + {review}, flow := flow)
  }

  function AfterDecide(w: World, review: Uuid, reviewer: Uuid, decision: Option<Decision>, reason: string,
                       next: Uuid, now: int): World
  {
    var done := DecideReview(w.db, review, reviewer, decision, reason, next, now);
    var noted := if done.0.Err? then w.flow
                 else w.flow.(guarded := w.flow.guarded[review := w.db.config.preventSelfApproval]);
    var flow := if done.0.Ok? && done.0.value.next.Some? && review in w.flow.chainOf
                   && w.flow.chainOf[review] < |w.flow.chains|
                then
                  var c := w.flow.chainOf[review];
                  noted.(chains := w.flow.chains[c := w.flow.chains[c] + [next]], chainOf := w.flow.chainOf[next := c])
                else noted;
    w.(db := done.1, issued := w.issued + {next}, flow := flow)
  }

  function AfterConclude(w: World, k: nat, now: int, digest: AppInput -> string): World
    requires k in w.sessions && w.sessions[k].BindingRead?
  {
    var s := w.sessions[k];
    var done := Conclude(w.db, s, now, digest);
    var log := if done.0.Attempted? && done.0.reply.Ok?
               then w.log.(provenance := w.log.provenance[s.review.id :=
                                         Provenance(s.app, s.nonce, s.input, s.version, LinkOf(s.settings), s.review,
                                                    now)])
               else w.log;
    w.(db := done.1, sessions := w.sessions - {k}, log := log)
  }

  /** A freshly migrated database and nothing in flight. */
  ghost predicate Initial(w: World) {
    && w.db.apps == map[] && w.db.checks == map[] && w.db.reviews == map[]
    && w.db.settings.revision > 0 && 1 <= w.db.config.levels <= 10
    && w.sessions == map[] && w.saves == map[]
    && w.log == SecurityLog({Given(w.db.settings)}, map[], map[])
    && w.flow == WorkflowLog([], map[], map[], {})
  }

  ghost predicate Reaches(w: World, steps: seq<Step>, end: World, digest: AppInput -> string)
    decreases |steps|
  {
    if steps == [] then w == end
    else Enabled(w, steps[0]) && Reaches(Next(w, steps[0], digest), steps[1..], end, digest)
  }
}
