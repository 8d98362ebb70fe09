/** What the store's transactions answer and leave behind, table by table and column by column. */
module CatalogEffects {
  import opened Wrappers
  import opened Text
  import opened Uuids
  import opened SecurityBinding
  import opened SecCheck
  import opened Catalog

  /** The columns a form writes, as the form and its parsed category give them. */
  ghost predicate HoldsForm(app: App, form: AppInput, category: Uuid) {
    && app.name == form.name && app.slug == form.slug && app.summary == form.summary
    && app.description == form.description && app.icon == form.icon && app.gradient == form.gradient
    && app.serviceUrl == form.serviceUrl && app.categoryId == category
    && app.tags == form.tags && app.screenshots == form.screenshots
    && app.language == form.language && app.framework == form.framework
    && app.supportsMcp == form.supportsMcp && app.supportsApi == form.supportsApi
    && app.team == form.team && app.version == form.version && app.visibility == form.visibility
  }

  /** The content a reviewer is shown is the form that writes it, with the category spelled canonically. */
  lemma ContentIsTheForm(app: App, form: AppInput, category: Uuid)
    ensures HoldsForm(app, form, category) && form.categoryId == FormatUuid(category)
            <==> BindingInput(app) == form && app.categoryId == category
  {
  }

  ghost predicate SlugIsFree(db: Db, slug: string, id: Uuid) {
    forall other :: other in db.apps && other != id ==> db.apps[other].slug != slug
  }

  /** Only this app's row was written. */
  ghost predicate OnlyRow(db: Db, after: Db, id: Uuid) {
    && after == db.(apps := after.apps) && id in after.apps && after.apps.Keys == db.apps.Keys + {id}
    && forall other :: other in db.apps && other != id ==> after.apps[other] == db.apps[other]
  }

  /** A status and its publication time: the first time in the catalog stands. */
  ghost predicate PlacedAt(app: App, before: Option<int>, status: AppStatus, now: int) {
    && app.status == status
    && app.publishedAt == if status == Published && before.None? then Some(now) else before
  }

  // ---- Apps ----

  ghost predicate Created(db: Db, after: Db, id: Uuid, nonce: Uuid, form: AppInput, category: Uuid, status: AppStatus,
                          now: int) {
    && OnlyRow(db, after, id) && HoldsForm(after.apps[id], form, category)
    && after.apps[id].nonce == nonce && after.apps[id].reviewId.None? && PlacedAt(after.apps[id], None, status, now)
  }

  lemma CreationExactly(db: Db, id: Uuid, nonce: Uuid, input: Option<AppInput>, category: Option<Uuid>,
                        status: Option<AppStatus>, now: int)
    requires id !in db.apps
    ensures var (reply, after) := CreateApp(db, id, nonce, input, category, status, now);
            && (reply == Err(Invalid) <==> input.None? || category.None? || status.None?)
            && (reply.Ok? <==> && input.Some? && category.Some? && status.Some?
                               && SlugIsFree(db, input.value.slug, id))
            && (reply.Err? && reply.error != Invalid ==> reply.error == Conflict)
            && (reply.Ok? ==> Created(db, after, id, nonce, input.value, category.value, status.value, now))
  {
  }

  /** An owner's edit: the form is written; a challenge and no review come with any difference a reviewer would see. */
  ghost predicate Edited(db: Db, after: Db, id: Uuid, form: AppInput, category: Uuid, nonce: Uuid) {
    id in db.apps &&
    var app := db.apps[id];
    && OnlyRow(db, after, id) && HoldsForm(after.apps[id], form, category)
    && after.apps[id].status == app.status && after.apps[id].publishedAt == app.publishedAt
    && (after.apps[id].nonce, after.apps[id].reviewId)
       == if HoldsForm(app, form, app.categoryId) && form.categoryId == FormatUuid(app.categoryId)
          then (app.nonce, app.reviewId) else (nonce, None)
  }

  lemma RelevantExactly(app: App, form: AppInput)
    ensures SecurityRelevantChange(app, form)
            <==> !(HoldsForm(app, form, app.categoryId) && form.categoryId == FormatUuid(app.categoryId))
  {
  }

  lemma EditExactly(db: Db, id: Uuid, input: Option<AppInput>, category: Option<Uuid>, nonce: Uuid)
    ensures var (reply, after) := UpdateApp(db, id, input, category, nonce);
            && (reply == Err(Invalid) <==> input.None? || category.None?)
            && (reply == Err(NotFound) <==> input.Some? && category.Some? && id !in db.apps)
            && (reply.Ok? <==> && input.Some? && category.Some? && id in db.apps
                               && SlugIsFree(db, input.value.slug, id))
            && (reply.Err? ==> reply.error in {Invalid, NotFound, Conflict})
            && (reply.Ok? ==> Edited(db, after, id, input.value, category.value, nonce))
  {
    hide Edited, SecurityRelevantChange, WithInput;
    if UpdateApp(db, id, input, category, nonce).0.Ok? {
      EditDoes(db, id, input.value, category.value, nonce);
    }
  }

  lemma FormWritten(app: App, form: AppInput, category: Uuid, nonce: Uuid)
    ensures var written := WithInput(app, form, category);
            && HoldsForm(written, form, category)
            && HoldsForm(written.(nonce := nonce, reviewId := None), form, category)
            && (written.nonce, written.reviewId, written.status, written.publishedAt)
               == (app.nonce, app.reviewId, app.status, app.publishedAt)
  {
  }

  lemma EditDoes(db: Db, id: Uuid, form: AppInput, category: Uuid, nonce: Uuid)
    requires UpdateApp(db, id, Some(form), Some(category), nonce).0.Ok?
    ensures Edited(db, UpdateApp(db, id, Some(form), Some(category), nonce).1, id, form, category, nonce)
  {
    hide SecurityRelevantChange, SlugTaken, WithInput, HoldsForm, FormatUuid;
    RelevantExactly(db.apps[id], form);
    FormWritten(db.apps[id], form, category, nonce);
  }

  ghost predicate AdminEdited(db: Db, after: Db, id: Uuid, form: AppInput, category: Uuid, status: AppStatus,
                              now: int) {
    && id in db.apps && OnlyRow(db, after, id) && HoldsForm(after.apps[id], form, category)
    && after.apps[id].nonce == db.apps[id].nonce && after.apps[id].reviewId == db.apps[id].reviewId
    && PlacedAt(after.apps[id], db.apps[id].publishedAt, status, now)
  }

  lemma AdminEditExactly(db: Db, id: Uuid, input: Option<AppInput>, category: Option<Uuid>, status: Option<AppStatus>,
                         now: int)
    ensures var (reply, after) := AdminUpdateApp(db, id, input, category, status, now);
            && (reply == Err(Invalid) <==> input.None? || category.None? || status.None?)
            && (reply == Err(NotFound) <==> input.Some? && category.Some? && status.Some? && id !in db.apps)
            && (reply.Ok? <==> && input.Some? && category.Some? && status.Some? && id in db.apps
                               && SlugIsFree(db, input.value.slug, id))
            && (reply.Err? ==> reply.error in {Invalid, NotFound, Conflict})
            && (reply.Ok? ==> AdminEdited(db, after, id, input.value, category.value, status.value, now))
  {
  }

  /** The app and its reviews are gone; its checks stay, without an app. */
  ghost predicate Removed(db: Db, after: Db, id: Uuid) {
    && after == db.(apps := after.apps, reviews := after.reviews, checks := after.checks)
    && after.apps.Keys == db.apps.Keys - {id}
    && (forall other :: other in after.apps ==> after.apps[other] == db.apps[other])
    && (forall r :: r in after.reviews <==> r in db.reviews && db.reviews[r].appId != id)
    && (forall r :: r in after.reviews ==> after.reviews[r] == db.reviews[r])
    && after.checks.Keys == db.checks.Keys
    && forall c :: c in db.checks ==>
         after.checks[c] == db.checks[c].(appId := if db.checks[c].appId == Some(id) then None else db.checks[c].appId)
  }

  lemma DeletionExactly(db: Db, id: Uuid)
    ensures var (reply, after) := DeleteApp(db, id);
            && (reply.Ok? <==> id in db.apps) && (reply.Err? ==> reply.error == NotFound)
            && (reply.Ok? ==> Removed(db, after, id))
  {
  }

  /** Only status and publication time were written. */
  ghost predicate Moved(app: App, before: App, status: AppStatus, now: int) {
    && app == before.(status := app.status, publishedAt := app.publishedAt)
    && PlacedAt(app, before.publishedAt, status, now)
  }

  lemma StatusExactly(db: Db, id: Uuid, status: Option<AppStatus>, now: int)
    ensures var (reply, after) := SetAppStatus(db, id, status, now);
            && (reply == Err(Invalid) <==> status.None?)
            && (reply == Err(NotFound) <==> status.Some? && id !in db.apps)
            && (reply == Err(SecurityCheckRequired) <==>
                  && status in {Some(PendingReview), Some(Published)} && id in db.apps && db.settings.enabled
                  && !Verified(db, id))
            && (reply.Err? ==> reply.error in {Invalid, NotFound, SecurityCheckRequired})
            && (reply.Ok? ==> OnlyRow(db, after, id) && Moved(after.apps[id], db.apps[id], status.value, now))
  {
  }

  // ---- Reviews ----

  /** A review that waits for its first reviewer. */
  ghost predicate Waits(row: ReviewRow, id: Uuid, submitter: Uuid, level: int) {
    && row.appId == id && row.submitterId == submitter && row.level == level && row.status == Pending
    && row.reviewerId.None? && row.reason == "" && row.decidedAt.None?
  }

  /** The app's own pending reviews are cancelled, every other review is as it was, and with the workflow on there is
      one review more. */
  ghost predicate Submission(db: Db, after: Db, id: Uuid, submitter: Uuid, review: Uuid, now: int) {
    && after == db.(apps := after.apps, reviews := after.reviews) && id in db.apps
    && after.reviews.Keys == db.reviews.Keys + (if db.config.enabled then {review} else {})
    && (forall r :: r in db.reviews ==>
          after.reviews[r] == if db.reviews[r].appId == id && db.reviews[r].status == Pending
                              then db.reviews[r].(status := Cancelled, decidedAt := Some(now)) else db.reviews[r])
    && (db.config.enabled ==> Waits(after.reviews[review], id, submitter, 1))
    && after.apps.Keys == db.apps.Keys
    && (forall other :: other in db.apps && other != id ==> after.apps[other] == db.apps[other])
    && Moved(after.apps[id], db.apps[id], if db.config.enabled then PendingReview else Published, now)
  }

  lemma SubmissionExactly(db: Db, id: Uuid, submitter: Uuid, review: Uuid, now: int)
    requires review !in db.reviews
    ensures var (reply, after) := SubmitApp(db, id, submitter, review, now);
            && (reply == Err(NotFound) <==> id !in db.apps)
            && (reply == Err(SecurityCheckRequired) <==> id in db.apps && db.settings.enabled && !Verified(db, id))
            && (reply.Err? ==> reply.error in {NotFound, SecurityCheckRequired})
            && (reply.Ok? ==> && reply.value == (if db.config.enabled then Some(review) else None)
                              && Submission(db, after, id, submitter, review, now))
  {
    hide Verified, Submission, CancelPending, NewReview, WithStatus;
    if SubmitApp(db, id, submitter, review, now).0.Ok? {
      SubmissionDoes(db, id, submitter, review, now);
    }
  }

  lemma SubmissionDoes(db: Db, id: Uuid, submitter: Uuid, review: Uuid, now: int)
    requires review !in db.reviews && SubmitApp(db, id, submitter, review, now).0.Ok?
    ensures Submission(db, SubmitApp(db, id, submitter, review, now).1, id, submitter, review, now)
  {
    hide Verified;
  }

  /** What a decision that goes through does to the app: rejected, sent on to the next level, published, or left
      waiting. */
  ghost function Placing(db: Db, row: ReviewRow, decision: Decision): Option<AppStatus> {
    if decision == Reject then Some(Rejected)
    else if db.config.enabled && (row.level < db.config.levels || !db.config.autoPublish) then None
    else Some(Published)
  }

  /** One review is decided, at most one is added, and at most the review's app is moved. */
  ghost predicate Decided(db: Db, after: Db, review: Uuid, reviewer: Uuid, decision: Decision, reason: string,
                          next: Uuid, now: int) {
    review in db.reviews &&
    var row := db.reviews[review];
    var further := decision == Approve && db.config.enabled && row.level < db.config.levels;
    && after == db.(apps := after.apps, reviews := after.reviews)
    && after.reviews.Keys == db.reviews.Keys + (if further then {next} else {})
    && (forall r :: r in db.reviews && r != review ==> after.reviews[r] == db.reviews[r])
    && after.reviews[review]
       == ReviewRow(row.appId, row.submitterId, Some(reviewer), row.level,
                    if decision == Approve then ReviewApproved else ReviewRejected, Trim(reason), Some(now))
    && (further ==> Waits(after.reviews[next], row.appId, row.submitterId, row.level + 1))
    && after.apps.Keys == db.apps.Keys
    && forall a :: a in db.apps ==>
         if a == row.appId && Placing(db, row, decision).Some?
         then Moved(after.apps[a], db.apps[a], Placing(db, row, decision).value, now)
         else after.apps[a] == db.apps[a]
  }

  lemma DecisionExactly(db: Db, review: Uuid, reviewer: Uuid, decision: Option<Decision>, reason: string, next: Uuid,
                        now: int)
    requires next !in db.reviews
    ensures var (reply, after) := DecideReview(db, review, reviewer, decision, reason, next, now);
            && (reply == Err(NotFound) <==> decision.Some? && review !in db.reviews)
            && (reply == Err(Conflict) <==>
                  decision.Some? && review in db.reviews && db.reviews[review].status != Pending)
            && (reply == Err(Forbidden) <==>
                  && decision.Some? && review in db.reviews && db.reviews[review].status == Pending
                  && db.config.preventSelfApproval && reviewer == db.reviews[review].submitterId)
            && (reply.Ok? <==>
                  && decision.Some? && review in db.reviews && db.reviews[review].status == Pending
                  && (db.config.preventSelfApproval ==> reviewer != db.reviews[review].submitterId)
                  && (decision == Some(Reject) && db.config.rejectReasonRequired ==> Trim(reason) != ""))
            && (reply.Err? ==> reply.error in {Invalid, NotFound, Conflict, Forbidden})
            && (reply.Ok? ==> Decided(db, after, review, reviewer, decision.value, reason, next, now))
  {
    hide Decided, NewReview, StatusSet, Trim;
    if DecideReview(db, review, reviewer, decision, reason, next, now).0.Ok? {
      DecisionDoes(db, review, reviewer, decision, reason, next, now);
    }
  }

  lemma DecisionDoes(db: Db, review: Uuid, reviewer: Uuid, decision: Option<Decision>, reason: string, next: Uuid,
                     now: int)
    requires next !in db.reviews && DecideReview(db, review, reviewer, decision, reason, next, now).0.Ok?
    ensures var (reply, after) := DecideReview(db, review, reviewer, decision, reason, next, now);
            var row := db.reviews[review];
            && Decided(db, after, review, reviewer, decision.value, reason, next, now)
            && reply.value.next == (if next in after.reviews then Some(next) else None)
            && reply.value.appStatus == match Placing(db, row, decision.value)
                                        case Some(status) => status
                                        case None => PendingReview
  {
    hide Trim;
  }

  // ---- Settings ----

  /** Every column but the role lists is stored as given; the lists are stored trimmed, without blanks and
      repetitions, in the order of first mention. */
  lemma ConfigurationExactly(db: Db, config: WorkflowConfig)
    ensures var (reply, after) := UpdateWorkflowConfig(db, config);
            && (reply.Ok? <==> 1 <= config.levels <= 10 && exists i :: 0 <= i < |config.reviewerRoles|
                                                                       && Trim(config.reviewerRoles[i]) != "")
            && (reply.Err? ==> reply.error == Invalid)
            && (reply.Ok? ==> Configured(db, after, config))
  {
    UniqueIsClean(config.reviewerRoles);
    UniqueIsClean(config.teamLeaderRoles);
    UniqueKeepsOrder(config.reviewerRoles);
    UniqueKeepsOrder(config.teamLeaderRoles);
    var roles := Unique(config.reviewerRoles);
    if roles != [] {
      assert roles[0] in roles;
    }
    if i :| 0 <= i < |config.reviewerRoles| && Trim(config.reviewerRoles[i]) != "" {
      assert Trim(config.reviewerRoles[i]) in roles;
    }
  }

  ghost predicate Configured(db: Db, after: Db, config: WorkflowConfig) {
    && after == db.(config := after.config)
    && after.config == config.(reviewerRoles := after.config.reviewerRoles,
                               teamLeaderRoles := after.config.teamLeaderRoles)
    && Cleaned(config.reviewerRoles, after.config.reviewerRoles)
    && Cleaned(config.teamLeaderRoles, after.config.teamLeaderRoles)
  }

  /** What a save stores: the form's columns, the address without outer space and closing slashes, the key given or the
      stored one, and a revision that moves exactly when address or key do. */
  ghost predicate Saved(before: Settings, after: Settings, enabled: bool, baseUrl: string, timeoutSeconds: int,
                        newKey: Option<string>) {
    && after.enabled == enabled && after.timeoutSeconds == timeoutSeconds
    && WithoutSlashes(Trim(baseUrl), after.baseUrl)
    && (newKey.Some? ==> after.apiKey == newKey.value) && (newKey.None? ==> after.apiKey == before.apiKey)
    && after.revision == before.revision
       + (if after.baseUrl == before.baseUrl && after.apiKey == before.apiKey then 0 else 1)
  }

  lemma SettingsExactly(db: Db, enabled: bool, baseUrl: string, timeoutSeconds: int, newKey: Option<string>)
    ensures var (reply, after) := UpdateSecuritySettings(db, enabled, baseUrl, timeoutSeconds, newKey);
            && (reply.Ok? <==>
                  && 1 <= timeoutSeconds <= 60
                  && (enabled ==> && (exists i :: 0 <= i < |Trim(baseUrl)| && Trim(baseUrl)[i] != '/')
                                  && (if newKey.Some? then newKey.value else db.settings.apiKey) != ""))
            && (reply.Err? ==> reply.error == Invalid)
            && (reply.Ok? ==> && after == db.(settings := after.settings)
                              && Saved(db.settings, after.settings, enabled, baseUrl, timeoutSeconds, newKey))
  {
    TrimSlashesExactly(Trim(baseUrl));
  }

  /** Recording an answer writes its row, every column of it, and attaches it to the app. */
  ghost predicate Recorded(db: Db, after: Db, id: Uuid, result: CheckResult, now: int) {
    && id in db.apps && after == db.(apps := after.apps, checks := after.checks)
    && after.apps == db.apps[id := db.apps[id].(reviewId := Some(result.reviewId))]
    && after.checks.Keys == db.checks.Keys + {result.reviewId}
    && (forall r :: r in db.checks && r != result.reviewId ==> after.checks[r] == db.checks[r])
    && after.checks[result.reviewId]
       == Check(Some(id), db.apps[id].nonce, db.settings.revision, result.reviewNumber, result.remoteStatus,
                result.finalResult, result.approvedAt, now)
  }

  lemma RecordingExactly(db: Db, id: Uuid, verifiedNonce: Uuid, revision: nat, result: CheckResult, now: int)
    ensures var (reply, after) := RecordAppSecurityCheck(db, id, verifiedNonce, revision, result, now);
            && (reply == Err(Invalid) <==> result.remoteStatus.UnknownStatus? || Trim(result.reviewId) == "")
            && (reply.Ok? <==>
                  && !result.remoteStatus.UnknownStatus? && Trim(result.reviewId) != "" && id in db.apps
                  && verifiedNonce == db.apps[id].nonce && revision == db.settings.revision
                  && (result.reviewId in db.checks ==> db.checks[result.reviewId].appId == Some(id)))
            && (reply == Err(NotFound) <==>
                  !result.remoteStatus.UnknownStatus? && Trim(result.reviewId) != "" && id !in db.apps)
            && (reply.Err? ==> reply.error in {Invalid, NotFound, Conflict})
            && (reply.Ok? ==> Recorded(db, after, id, result, now))
  {
  }
}
