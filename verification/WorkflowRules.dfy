/** The workflow's rules on their own, and how the stored decision follows them. */
module WorkflowRules {
  import opened Wrappers
  import opened Text
  import opened Uuids
  import opened Catalog

  /** `nextLevel` 0 means there is no next level. */
  datatype Transition = Transition(reviewStatus: ReviewStatus, appStatus: AppStatus, nextLevel: int, publish: bool)

  function InitialStatus(config: WorkflowConfig): AppStatus {
    if config.enabled then PendingReview else Published
  }

  /** `None` is a refusal; the pure rules tell refusals apart only by message. */
  function Decide(config: WorkflowConfig, review: ReviewRow, actor: Uuid, decision: Option<Decision>,
                  reason: string): Option<Transition> {
    if !config.enabled then None
    else if review.status != Pending then None
    else if config.preventSelfApproval && review.submitterId == actor then None
    else match decision
      case None => None
      case Some(Reject) =>
        if config.rejectReasonRequired && Trim(reason) == "" then None
        else Some(Transition(ReviewRejected, Rejected, 0, false))
      case Some(Approve) =>
        var levels := if config.levels < 1 then 1 else config.levels;
        if review.level < levels then Some(Transition(ReviewApproved, PendingReview, review.level + 1, false))
        else if config.autoPublish then Some(Transition(ReviewApproved, Published, 0, true))
        else Some(Transition(ReviewApproved, PendingReview, 0, false))
  }

  /** A configuration with no level is one with a single level. */
  lemma NoLevelIsOneLevel(config: WorkflowConfig, review: ReviewRow, actor: Uuid, decision: Option<Decision>,
                          reason: string)
    requires config.levels < 1
    ensures Decide(config, review, actor, decision, reason)
            == Decide(config.(levels := 1), review, actor, decision, reason)
  {
  }

  /** The stored decision does to review, app and queue what the rule says. */
  ghost predicate Follows(db: Db, review: Uuid, reply: Result<DecisionResult>, after: Db, rule: Option<Transition>)
    requires review in db.reviews
  {
    match (reply, rule)
    case (Err(_), None) => after == db
    case (Ok(result), Some(t)) =>
      && review in after.reviews && after.reviews[review].status == t.reviewStatus
      && db.reviews[review].appId in after.apps && after.apps[db.reviews[review].appId].status == t.appStatus
      && t.appStatus == result.appStatus
      && (t.publish <==> result.appStatus == Published)
      && (result.next.None? ==> t.nextLevel == 0 && after.reviews.Keys == db.reviews.Keys)
      && (result.next.Some? ==>
            && t.nextLevel > 0 && result.next.value in after.reviews
            && after.reviews[result.next.value]
               == NewReview(db.reviews[review].appId, db.reviews[review].submitterId, t.nextLevel))
    case _ => false
  }

  /** A pending review's app waits for it, and levels count from one. */
  ghost predicate Coupled(db: Db, review: Uuid) {
    && review in db.reviews && db.reviews[review].appId in db.apps && db.reviews[review].level >= 1
    && db.config.levels >= 1
    && (db.reviews[review].status == Pending ==> db.apps[db.reviews[review].appId].status == PendingReview)
  }

  /** The stored decision follows the pure rule exactly when the workflow is on or both refuse. */
  lemma StoredDecisionFollowsRuleExactly(db: Db, review: Uuid, reviewer: Uuid, decision: Option<Decision>,
                                         reason: string, next: Uuid, now: int)
    requires Coupled(db, review) && next !in db.reviews
    ensures var (reply, after) := DecideReview(db, review, reviewer, decision, reason, next, now);
            Follows(db, review, reply, after, Decide(db.config, db.reviews[review], reviewer, decision, reason))
            <==> db.config.enabled || db.reviews[review].status != Pending || decision.None?
                 || (db.config.preventSelfApproval && reviewer == db.reviews[review].submitterId)
                 || (decision == Some(Reject) && db.config.rejectReasonRequired && Trim(reason) == "")
  {
  }

  /** A submission leaves the app in the status the pure rules start from. */
  lemma SubmissionStartsByRule(db: Db, id: Uuid, submitter: Uuid, review: Uuid, now: int)
    ensures var (reply, after) := SubmitApp(db, id, submitter, review, now);
            reply.Ok? ==>
              && id in after.apps && after.apps[id].status == InitialStatus(db.config)
              && (reply.value.Some? <==> db.config.enabled)
  {
  }

  /** The status a decision reports is the one it stored exactly when it rejects, when it publishes, or when the app
      is still waiting: an approval that does neither leaves alone an app someone took out of the queue by hand. */
  lemma ReportedStatusIsStoredExactly(db: Db, review: Uuid, reviewer: Uuid, decision: Option<Decision>, reason: string,
                                      next: Uuid, now: int)
    requires Decidable(db, review, reviewer, decision, reason) && db.reviews[review].appId in db.apps
    ensures var (reply, after) := DecideReview(db, review, reviewer, decision, reason, next, now);
            var app := db.reviews[review].appId;
            && reply.Ok? && app in after.apps
            && (after.apps[app].status == reply.value.appStatus
                <==> decision == Some(Reject) || DecisionPublishes(db, review, reviewer, decision)
                     || db.apps[app].status == PendingReview)
  {
  }

  /** The guard is the store's own: a decision goes through exactly when it is met. */
  lemma DecidableExactly(db: Db, review: Uuid, reviewer: Uuid, decision: Option<Decision>, reason: string, next: Uuid,
                         now: int)
    ensures DecideReview(db, review, reviewer, decision, reason, next, now).0.Ok?
            <==> Decidable(db, review, reviewer, decision, reason)
  {
  }
}
