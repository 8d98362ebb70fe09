/** The catalog tables and what each store transaction does to them. */
module Catalog {
  import opened Wrappers
  import opened Text
  import opened Uuids
  import opened SecurityBinding
  import opened SecCheck

  datatype AppStatus = Draft | PendingReview | Published | Rejected | Archived

  /** A row of `apps`: the 17 owner-typed columns, then the ones the service keeps. */
  datatype App = App(
    name: string, slug: string, summary: string, description: string, icon: string, gradient: string,
    serviceUrl: string, categoryId: Uuid, tags: seq<string>, screenshots: seq<string>,
    language: string, framework: string, supportsMcp: bool, supportsApi: bool,
    team: string, version: string, visibility: string,
    nonce: Uuid, reviewId: Option<string>, status: AppStatus, publishedAt: Option<int>)

  /** A row of `app_security_checks`; its key is the remote review identifier. */
  datatype Check = Check(
    appId: Option<Uuid>, capturedNonce: Uuid, settingsRevision: nat, reviewNumber: string,
    remoteStatus: RemoteStatus, finalResult: FinalResult, approvedAt: Option<int>, checkedAt: int)

  datatype ReviewStatus = Pending | ReviewApproved | ReviewRejected | Cancelled

  /** A row of `reviews`. */
  datatype ReviewRow = ReviewRow(
    appId: Uuid, submitterId: Uuid, reviewerId: Option<Uuid>, level: int,
    status: ReviewStatus, reason: string, decidedAt: Option<int>)

  datatype Settings = Settings(enabled: bool, baseUrl: string, apiKey: string, timeoutSeconds: int, revision: nat)

  datatype WorkflowConfig = WorkflowConfig(
    enabled: bool, levels: int, reviewerRoles: seq<string>, teamLeaderRoles: seq<string>, autoPublish: bool,
    rejectReasonRequired: bool, reapprovalAfterEdit: bool, preventSelfApproval: bool)

  datatype Db = Db(
    apps: map<Uuid, App>, checks: map<string, Check>, reviews: map<Uuid, ReviewRow>,
    settings: Settings, config: WorkflowConfig)

  /** What the client read, on its way into the store. */
  datatype CheckResult = CheckResult(
    reviewId: string, reviewNumber: string, remoteStatus: RemoteStatus, finalResult: FinalResult,
    approvedAt: Option<int>)

  datatype Decision = Approve | Reject

  datatype DecisionResult = DecisionResult(next: Option<Uuid>, appStatus: AppStatus)

  // ---- Content ----

  /** The content as the binding hash and the reviewer see it. */
  function BindingInput(app: App): AppInput {
    AppInput(app.name, app.slug, app.summary, app.description, app.icon, app.gradient, app.serviceUrl,
             FormatUuid(app.categoryId), app.tags, app.screenshots, app.language, app.framework,
             app.supportsMcp, app.supportsApi, app.team, app.version, app.visibility)
  }

  predicate SecurityRelevantChange(before: App, input: AppInput) {
    before.name != input.name || before.slug != input.slug ||
    before.summary != input.summary || before.description != input.description ||
    before.icon != input.icon || before.gradient != input.gradient ||
    before.serviceUrl != input.serviceUrl || FormatUuid(before.categoryId) != input.categoryId ||
    before.language != input.language || before.framework != input.framework ||
    before.supportsMcp != input.supportsMcp || before.supportsApi != input.supportsApi ||
    before.team != input.team || before.version != input.version ||
    before.visibility != input.visibility ||
    before.tags != input.tags || before.screenshots != input.screenshots
  }

  method SameStrings(a: seq<string>, b: seq<string>) returns (same: bool)
    ensures same <==> a == b
  {
    if |a| != |b| {
      return false;
    }
    for index := 0 to |a|
      invariant a[..index] == b[..index]
    {
      if a[index] != b[index] {
        return false;
      }
    }
    return true;
  }

  /** The columns an UPDATE from an edit form writes. */
  function WithInput(app: App, input: AppInput, category: Uuid): App {
    app.(name := input.name, slug := input.slug, summary := input.summary, description := input.description,
         icon := input.icon, gradient := input.gradient, serviceUrl := input.serviceUrl, categoryId := category,
         tags := input.tags, screenshots := input.screenshots, language := input.language,
         framework := input.framework, supportsMcp := input.supportsMcp, supportsApi := input.supportsApi,
         team := input.team, version := input.version, visibility := input.visibility)
  }

  /** Parsing is not modelled beyond this: the canonical text of a category reads back as that category. */
  ghost predicate ParsedAs(text: string, category: Option<Uuid>) {
    forall u: Uuid :: text == FormatUuid(u) ==> category == Some(u)
  }

  /** The comparison covers every column of the content: it is silent exactly when nothing differs. */
  lemma RelevantChangeIsAnyDifference(before: App, input: AppInput)
    ensures SecurityRelevantChange(before, input) <==> BindingInput(before) != input
  {
  }

  /** An edit without a relevant change writes the row it found. */
  lemma NoRelevantChangeKeepsRow(before: App, input: AppInput, category: Option<Uuid>)
    requires ParsedAs(input.categoryId, category) && category.Some?
    requires !SecurityRelevantChange(before, input)
    ensures WithInput(before, input, category.value) == before
  {
    assert input.categoryId == FormatUuid(before.categoryId);
  }

  /** An edit leaves the reviewed content as it was exactly when every field but the category text is the
      same and the category text names the same category. */
  lemma EditKeepsContentExactly(before: App, input: AppInput, category: Uuid)
    ensures BindingInput(WithInput(before, input, category)) == BindingInput(before)
            <==> && category == before.categoryId
                 && !SecurityRelevantChange(before, input.(categoryId := FormatUuid(category)))
  {
    if FormatUuid(category) == FormatUuid(before.categoryId) {
      FormatInjective(category, before.categoryId);
    }
  }

  // ---- Reads ----

  /** The single definition of "cleared": an approval for the current challenge over the current connection. */
  predicate Verified(db: Db, id: Uuid)
    requires id in db.apps
  {
    var app := db.apps[id];
    app.reviewId.Some? && app.reviewId.value in db.checks &&
    var check := db.checks[app.reviewId.value];
    && SaysApproved(check.remoteStatus, check.finalResult, check.approvedAt)
    && check.capturedNonce == app.nonce
    && check.settingsRevision == db.settings.revision
  }

  predicate SlugTaken(db: Db, slug: string, id: Uuid) {
    exists other :: other in db.apps && other != id && db.apps[other].slug == slug
  }

  predicate OpensToPublic(status: AppStatus) {
    status == PendingReview || status == Published
  }

  function FirstPublished(app: App, now: int): Option<int> {
    if app.publishedAt.Some? then app.publishedAt else Some(now)
  }

  function WithStatus(app: App, status: AppStatus, now: int): App {
    app.(status := status, publishedAt := if status == Published then FirstPublished(app, now) else app.publishedAt)
  }

  /** UPDATE apps SET status: a missing row is left missing. */
  function StatusSet(apps: map<Uuid, App>, id: Uuid, status: AppStatus, now: int): map<Uuid, App> {
    if id in apps then apps[id := WithStatus(apps[id], status, now)] else apps
  }

  // ---- Transactions. `None` inputs are the ones validation or parsing refused. ----

  function CreateApp(db: Db, id: Uuid, nonce: Uuid, input: Option<AppInput>, category: Option<Uuid>,
                     status: Option<AppStatus>, now: int): (Result<()>, Db)
  {
    if input.None? || category.None? || status.None? then (Err(Invalid), db)
    else if SlugTaken(db, input.value.slug, id) then (Err(Conflict), db)
    else
      var i := input.value;
      var app := App(i.name, i.slug, i.summary, i.description, i.icon, i.gradient, i.serviceUrl, category.value,
                     i.tags, i.screenshots, i.language, i.framework, i.supportsMcp, i.supportsApi, i.team,
                     i.version, i.visibility, nonce, None, status.value,
                     if status.value == Published then Some(now) else None);
      (Ok(()), db.(apps := db.apps[id := app]))
  }

  function UpdateApp(db: Db, id: Uuid, input: Option<AppInput>, category: Option<Uuid>, nonce: Uuid): (Result<()>, Db) {
    if input.None? || category.None? then (Err(Invalid), db)
    else if id !in db.apps then (Err(NotFound), db)
    else if SlugTaken(db, input.value.slug, id) then (Err(Conflict), db)
    else
      var before := db.apps[id];
      var edited := WithInput(before, input.value, category.value);
      var after := if SecurityRelevantChange(before, input.value) then edited.(nonce := nonce, reviewId := None)
                   else edited;
      (Ok(()), db.(apps := db.apps[id := after]))
  }

  function AdminUpdateApp(db: Db, id: Uuid, input: Option<AppInput>, category: Option<Uuid>,
                          status: Option<AppStatus>, now: int): (Result<()>, Db)
  {
    if input.None? || status.None? || category.None? then (Err(Invalid), db)
    else if id !in db.apps then (Err(NotFound), db)
    else if SlugTaken(db, input.value.slug, id) then (Err(Conflict), db)
    else
      var after := WithStatus(WithInput(db.apps[id], input.value, category.value), status.value, now);
      (Ok(()), db.(apps := db.apps[id := after]))
  }

  /** Deleting an app takes its reviews with it and orphans its checks, which keep their identifiers. */
  function DeleteApp(db: Db, id: Uuid): (Result<()>, Db) {
    if id !in db.apps then (Err(NotFound), db)
    else (Ok(()), db.(apps := db.apps - {id}, reviews := WithoutReviewsOf(db.reviews, id),
                      checks := Orphaned(db.checks, id)))
  }

  function WithoutReviewsOf(reviews: map<Uuid, ReviewRow>, id: Uuid): map<Uuid, ReviewRow> {
    map r | r in reviews && reviews[r].appId != id :: reviews[r]
  }

  function Orphaned(checks: map<string, Check>, id: Uuid): map<string, Check> {
    map r | r in checks :: if checks[r].appId == Some(id) then checks[r].(appId := None) else checks[r]
  }

  function SetAppStatus(db: Db, id: Uuid, status: Option<AppStatus>, now: int): (Result<()>, Db) {
    if status.None? then (Err(Invalid), db)
    else if id !in db.apps then (Err(NotFound), db)
    else if OpensToPublic(status.value) && db.settings.enabled && !Verified(db, id) then
      (Err(SecurityCheckRequired), db)
    else (Ok(()), db.(apps := db.apps[id := WithStatus(db.apps[id], status.value, now)]))
  }

  function CancelPending(reviews: map<Uuid, ReviewRow>, id: Uuid, now: int): map<Uuid, ReviewRow> {
    map r | r in reviews ::
      if reviews[r].appId == id && reviews[r].status == Pending
      then reviews[r].(status := Cancelled, decidedAt := Some(now)) else reviews[r]
  }

  function NewReview(id: Uuid, submitter: Uuid, level: int): ReviewRow {
    ReviewRow(id, submitter, None, level, Pending, "", None)
  }

  function SubmitApp(db: Db, id: Uuid, submitter: Uuid, review: Uuid, now: int): (Result<Option<Uuid>>, Db) {
    if id !in db.apps then (Err(NotFound), db)
    else if db.settings.enabled && !Verified(db, id) then (Err(SecurityCheckRequired), db)
    else
      var kept := CancelPending(db.reviews, id, now);
      var app := db.apps[id];
      if db.config.enabled then
        (Ok(Some(review)), db.(reviews := kept[review := NewReview(id, submitter, 1)],
                               apps := db.apps[id := app.(status := PendingReview)]))
      else
        (Ok(None), db.(reviews := kept, apps := db.apps[id := WithStatus(app, Published, now)]))
  }

  function DecideReview(db: Db, review: Uuid, reviewer: Uuid, decision: Option<Decision>, reason: string,
                        next: Uuid, now: int): (Result<DecisionResult>, Db)
  {
    if decision.None? then (Err(Invalid), db)
    else if review !in db.reviews then (Err(NotFound), db)
    else
      var row := db.reviews[review];
      var note := Trim(reason);
      if row.status != Pending then (Err(Conflict), db)
      else if db.config.preventSelfApproval && reviewer == row.submitterId then (Err(Forbidden), db)
      else if decision.value == Reject && db.config.rejectReasonRequired && note == "" then (Err(Invalid), db)
      else
        var status := if decision.value == Approve then ReviewApproved else ReviewRejected;
        var decided := db.reviews[review := row.(reviewerId := Some(reviewer), status := status, reason := note,
                                                 decidedAt := Some(now))];
        if decision.value == Reject then
          (Ok(DecisionResult(None, Rejected)),
           db.(reviews := decided, apps := StatusSet(db.apps, row.appId, Rejected, now)))
        else if db.config.enabled && row.level < db.config.levels then
          (Ok(DecisionResult(Some(next), PendingReview)),
           db.(reviews := decided[next := NewReview(row.appId, row.submitterId, row.level + 1)]))
        else if db.config.autoPublish || !db.config.enabled then
          (Ok(DecisionResult(None, Published)),
           db.(reviews := decided, apps := StatusSet(db.apps, row.appId, Published, now)))
        else (Ok(DecisionResult(None, PendingReview)), db.(reviews := decided))
  }

  /** A decision that will go through: a pending review, decided by someone who may, with a reason where one is
      needed. */
  predicate Decidable(db: Db, review: Uuid, reviewer: Uuid, decision: Option<Decision>, reason: string) {
    && decision.Some? && review in db.reviews && db.reviews[review].status == Pending
    && !(db.config.preventSelfApproval && reviewer == db.reviews[review].submitterId)
    && !(decision.value == Reject && db.config.rejectReasonRequired && Trim(reason) == "")
  }

  /** An approval at the last level that the configuration publishes at once. */
  predicate DecisionPublishes(db: Db, review: Uuid, reviewer: Uuid, decision: Option<Decision>) {
    && decision == Some(Approve) && Decidable(db, review, reviewer, decision, "")
    && !(db.config.enabled && db.reviews[review].level < db.config.levels)
    && (db.config.autoPublish || !db.config.enabled)
  }

  function UpdateWorkflowConfig(db: Db, config: WorkflowConfig): (Result<()>, Db) {
    var c := config.(reviewerRoles := Unique(config.reviewerRoles), teamLeaderRoles := Unique(config.teamLeaderRoles));
    if c.levels < 1 || c.levels > 10 || |c.reviewerRoles| == 0 then (Err(Invalid), db)
    else (Ok(()), db.(config := c))
  }

  /** What a save writes over the settings it read. A `None` key keeps the stored credential; the revision moves
      whenever the connection does. */
  function SavedSettings(before: Settings, enabled: bool, baseUrl: string, timeoutSeconds: int,
                         newKey: Option<string>): Result<Settings> {
    var url := TrimSlashes(Trim(baseUrl));
    var key := if newKey.Some? then newKey.value else before.apiKey;
    if timeoutSeconds < 1 || timeoutSeconds > 60 then Err(Invalid)
    else if enabled && (url == "" || key == "") then Err(Invalid)
    else
      var revision := if url != before.baseUrl || key != before.apiKey then before.revision + 1 else before.revision;
      Ok(Settings(enabled, url, key, timeoutSeconds, revision))
  }

  function UpdateSecuritySettings(db: Db, enabled: bool, baseUrl: string, timeoutSeconds: int,
                                  newKey: Option<string>): (Result<()>, Db) {
    match SavedSettings(db.settings, enabled, baseUrl, timeoutSeconds, newKey)
    case Err(error) => (Err(error), db)
    case Ok(saved) => (Ok(()), db.(settings := saved))
  }

  /** Which app a review's row names, if there is a row. */
  function BoundTo(db: Db, reviewId: string): Option<Option<Uuid>> {
    if reviewId in db.checks then Some(db.checks[reviewId].appId) else None
  }

  /** Storing an answer, `bound` being what the look-up of the review's row found. The insertion keeps the app of a row
      that is there. */
  function StoreCheck(db: Db, bound: Option<Option<Uuid>>, id: Uuid, verifiedNonce: Uuid, revision: nat,
                      result: CheckResult, now: int): (Result<()>, Db)
  {
    if !ValidStatus(result.remoteStatus) || Trim(result.reviewId) == "" then (Err(Invalid), db)
    else if id !in db.apps then (Err(NotFound), db)
    else if db.apps[id].nonce != verifiedNonce then (Err(Conflict), db)
    else if db.settings.revision != revision then (Err(Conflict), db)
    else if bound.Some? && bound.value != Some(id) then (Err(Conflict), db)
    else
      var named := if result.reviewId in db.checks then db.checks[result.reviewId].appId else Some(id);
      var check := Check(named, verifiedNonce, revision, result.reviewNumber, result.remoteStatus,
                         result.finalResult, result.approvedAt, now);
      (Ok(()), db.(checks := db.checks[result.reviewId := check],
                   apps := db.apps[id := db.apps[id].(reviewId := Some(result.reviewId))]))
  }

  /** The look-up and the storing with nothing in between. */
  function RecordAppSecurityCheck(db: Db, id: Uuid, verifiedNonce: Uuid, revision: nat, result: CheckResult,
                                  now: int): (Result<()>, Db) {
    StoreCheck(db, BoundTo(db, result.reviewId), id, verifiedNonce, revision, result, now)
  }
}
