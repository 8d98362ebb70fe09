/** The three ways an app is put forward: its creation, an edit, and the submit button. */
module Submissions {
  import opened Wrappers
  import opened Uuids
  import opened SecurityBinding
  import opened SecCheck
  import opened Catalog
  import opened CatalogEffects
  import opened Repository
  import opened Runs
  import opened SecurityProof
  import opened SecurityHandlers

  /** Held for the security check, waiting for a reviewer, or in the catalog at once. */
  datatype Placement = Held | Waiting(review: Uuid) | Live

  function SubmitOrHold(db: Db, id: Uuid, submitter: Uuid, review: Uuid, now: int): (Result<Placement>, Db) {
    var (reply, after) := SubmitApp(db, id, submitter, review, now);
    match reply
    case Err(error) => if error == SecurityCheckRequired then (Ok(Held), db) else (Err(error), db)
    case Ok(queued) => (Ok(if queued.Some? then Waiting(queued.value) else Live), after)
  }

  predicate ResubmitAfterEdit(config: WorkflowConfig, status: AppStatus) {
    config.enabled && (status == Rejected || (status == Published && config.reapprovalAfterEdit))
  }

  /** An owner's edit as the handler runs it: the edit, then a submission where the workflow asks for one. */
  function EditApp(db: Db, id: Uuid, input: Option<AppInput>, category: Option<Uuid>, nonce: Uuid,
                   submitter: Uuid, review: Uuid, now: int): (Result<()>, Db)
  {
    if id !in db.apps then (Err(NotFound), db)
    else
      var (reply, edited) := UpdateApp(db, id, input, category, nonce);
      if reply.Err? then (reply, db)
      else if !ResubmitAfterEdit(edited.config, db.apps[id].status) then (Ok(()), edited)
      else
        var (placed, after) := SubmitOrHold(edited, id, submitter, review, now);
        (if placed.Err? then Err(placed.error) else Ok(()), after)
  }

  /** A new app: stored as a draft, then submitted or held. */
  function RegisterApp(db: Db, id: Uuid, nonce: Uuid, input: Option<AppInput>, category: Option<Uuid>,
                       submitter: Uuid, review: Uuid, now: int): (Result<Placement>, Db)
  {
    var (reply, made) := CreateApp(db, id, nonce, input, category, Some(Draft), now);
    if reply.Err? then (Err(reply.error), db) else SubmitOrHold(made, id, submitter, review, now)
  }

  /** What the submit button answers: no such app, the refusal of the review it read again, an app not cleared even
      so, or the store's reply to the submission. */
  datatype Pressed = NoSuchApp | Unapproved(answer: RefreshAnswer) | NotCleared | Replied(reply: Result<Option<Uuid>>)

  predicate SubmittedBy(p: Pressed) {
    p.Replied? && p.reply.Ok?
  }

  predicate ReadWithoutError(answer: RefreshAnswer) {
    answer == Finished(Attempted(Approves, Ok(())))
  }

  /** The submit button: with the gate on, the remote review is read again first. */
  function PressSubmit(db: Db, id: Uuid, submitter: Uuid, review: Uuid, remote: Option<Review>, now: int,
                       digest: AppInput -> string): (Pressed, Db)
  {
    if id !in db.apps then (NoSuchApp, db)
    else if !db.settings.enabled then
      var (reply, after) := SubmitApp(db, id, submitter, review, now);
      (Replied(reply), after)
    else
      var (answer, read) := Refresh(db, id, "", remote, now, digest);
      if !ReadWithoutError(answer) then (Unapproved(answer), read)
      else if id !in read.apps || !Verified(read, id) then (NotCleared, read)
      else
        var (reply, after) := SubmitApp(read, id, submitter, review, now);
        (Replied(reply), after)
  }

  method RunSubmitOrHold(repository: Repository, id: Uuid, submitter: Uuid, review: Uuid, now: int)
    returns (placed: Result<Placement>)
    requires repository.Valid() && review !in repository.reviews
    modifies repository
    ensures repository.Valid()
    ensures (placed, repository.Snapshot()) == SubmitOrHold(old(repository.Snapshot()), id, submitter, review, now)
  {
    var reply := repository.SubmitApp(id, submitter, review, now);
    if reply.Err? {
      if reply.error == SecurityCheckRequired {
        return Ok(Held);
      }
      return Err(reply.error);
    }
    return Ok(if reply.value.Some? then Waiting(reply.value.value) else Live);
  }

  method RunEditApp(repository: Repository, id: Uuid, input: Option<AppInput>, category: Option<Uuid>, nonce: Uuid,
                    submitter: Uuid, review: Uuid, now: int) returns (reply: Result<()>)
    requires repository.Valid() && review !in repository.reviews
    modifies repository
    ensures repository.Valid()
    ensures (reply, repository.Snapshot())
            == EditApp(old(repository.Snapshot()), id, input, category, nonce, submitter, review, now)
  {
    if id !in repository.apps {
      return Err(NotFound);
    }
    var before := repository.apps[id];
    reply := repository.UpdateApp(id, input, category, nonce);
    if reply.Err? {
      return;
    }
    if ResubmitAfterEdit(repository.config, before.status) {
      var placed := RunSubmitOrHold(repository, id, submitter, review, now);
      reply := if placed.Err? then Err(placed.error) else Ok(());
    }
  }

  method RunPressSubmit(repository: Repository, id: Uuid, submitter: Uuid, review: Uuid, remote: Option<Review>,
                        now: int, digest: AppInput -> string) returns (pressed: Pressed)
    requires repository.Valid() && review !in repository.reviews
    modifies repository
    ensures repository.Valid()
    ensures (pressed, repository.Snapshot())
            == PressSubmit(old(repository.Snapshot()), id, submitter, review, remote, now, digest)
  {
    if id !in repository.apps {
      return NoSuchApp;
    }
    if repository.settings.enabled {
      RefreshLeavesReviews(repository.Snapshot(), id, remote, now, digest);
      var answer := RefreshAppSecurityCheck(repository, id, "", remote, now, digest);
      if !ReadWithoutError(answer) {
        return Unapproved(answer);
      }
      var verified := repository.IsVerified(id);
      if !verified {
        return NotCleared;
      }
    }
    var reply := repository.SubmitApp(id, submitter, review, now);
    return Replied(reply);
  }

  ghost predicate SameButChecks(db: Db, after: Db) {
    after.reviews == db.reviews && after.settings == db.settings && after.apps.Keys == db.apps.Keys
  }

  lemma ConcludingLeavesReviews(db: Db, s: Session, now: int, digest: AppInput -> string)
    requires s.BindingRead?
    ensures SameButChecks(db, Conclude(db, s, now, digest).1)
  {
    var after := StoreCheck(db, s.bound, s.app, s.nonce, s.settings.revision, ResultOf(s.review), now).1;
    assert SameButChecks(db, after);
    assert Conclude(db, s, now, digest).1 in {db, after};
  }

  /** The button's request gets as far as a verdict exactly when there is a review, a connection and an answer. */
  lemma ButtonReads(db: Db, id: Uuid, remote: Option<Review>, now: int, digest: AppInput -> string)
    ensures var (answer, after) := Refresh(db, id, "", remote, now, digest);
            if id in db.apps && AttachedReview(db, id) != "" && db.settings.baseUrl != "" && db.settings.apiKey != ""
               && remote.Some?
            then (answer, after) == (Finished(Conclude(db, Answered(db, id, 0, remote.value), now, digest).0),
                                     Conclude(db, Answered(db, id, 0, remote.value), now, digest).1)
            else !ReadWithoutError(answer) && after == db
  {
    hide Conclude;
  }

  lemma RefreshLeavesReviews(db: Db, id: Uuid, remote: Option<Review>, now: int, digest: AppInput -> string)
    ensures SameButChecks(db, Refresh(db, id, "", remote, now, digest).1)
  {
    hide Refresh, Conclude;
    ButtonReads(db, id, remote, now, digest);
    if id in db.apps && remote.Some? {
      ConcludingLeavesReviews(db, Answered(db, id, 0, remote.value), now, digest);
    }
  }

  // ---- What each way guarantees ----

  /** A submission is held exactly when the gate is on and the app is not cleared; nothing changes then. */
  lemma HeldExactly(db: Db, id: Uuid, submitter: Uuid, review: Uuid, now: int)
    ensures var (placed, after) := SubmitOrHold(db, id, submitter, review, now);
            && (placed == Ok(Held) <==> id in db.apps && db.settings.enabled && !Verified(db, id))
            && (placed == Ok(Held) || placed.Err? ==> after == db)
            && (placed.Ok? && placed != Ok(Held) ==>
                  && placed.value == (if db.config.enabled then Waiting(review) else Live)
                  && id in after.apps
                  && after.apps[id].status == if db.config.enabled then PendingReview else Published)
  {
  }

  /** The edit handler's answer is the edit's, and what it leaves is the edit, with at most a submission on top. */
  lemma EditAnswersExactly(db: Db, id: Uuid, input: Option<AppInput>, category: Option<Uuid>, nonce: Uuid,
                           submitter: Uuid, review: Uuid, now: int)
    requires review !in db.reviews
    ensures var (reply, after) := EditApp(db, id, input, category, nonce, submitter, review, now);
            var edited := UpdateApp(db, id, input, category, nonce).1;
            && (reply == Err(NotFound) <==> id !in db.apps)
            && (reply.Ok? <==> id in db.apps && input.Some? && category.Some? && SlugIsFree(db, input.value.slug, id))
            && (reply.Err? ==> after == db && reply.error in {NotFound, Invalid, Conflict})
            && (reply.Ok? ==> && Edited(db, edited, id, input.value, category.value, nonce)
                              && (after == edited || Submission(edited, after, id, submitter, review, now)))
  {
    hide Edited, Submission, UpdateApp, SubmitApp, Verified, SlugIsFree;
    EditExactly(db, id, input, category, nonce);
    EditLeavesReviews(db, id, input, category, nonce);
    SubmissionExactly(UpdateApp(db, id, input, category, nonce).1, id, submitter, review, now);
  }

  lemma EditLeavesReviews(db: Db, id: Uuid, input: Option<AppInput>, category: Option<Uuid>, nonce: Uuid)
    ensures var after := UpdateApp(db, id, input, category, nonce).1;
            && after.reviews == db.reviews && (id in db.apps ==> id in after.apps)
            && (UpdateApp(db, id, input, category, nonce).0.Err? ==> after == db)
  {
  }

  /** With the gate off, the button is a plain submission. */
  lemma UngatedButton(db: Db, id: Uuid, submitter: Uuid, review: Uuid, remote: Option<Review>, now: int,
                      digest: AppInput -> string)
    requires id in db.apps && !db.settings.enabled && review !in db.reviews
    ensures var (pressed, after) := PressSubmit(db, id, submitter, review, remote, now, digest);
            && pressed == Replied(Ok(if db.config.enabled then Some(review) else None))
            && Submission(db, after, id, submitter, review, now)
  {
    SubmissionExactly(db, id, submitter, review, now);
  }

  /** With the gate on, a new app is a draft until its review is matched. */
  lemma NewAppsWaitAsDrafts(db: Db, id: Uuid, nonce: Uuid, input: Option<AppInput>, category: Option<Uuid>,
                            submitter: Uuid, review: Uuid, now: int)
    requires RegisterApp(db, id, nonce, input, category, submitter, review, now).0.Ok?
    ensures var (placed, after) := RegisterApp(db, id, nonce, input, category, submitter, review, now);
            && id in after.apps && (placed == Ok(Held) <==> db.settings.enabled)
            && (after.apps[id].status == Draft <==> db.settings.enabled)
  {
    var made := CreateApp(db, id, nonce, input, category, Some(Draft), now).1;
    assert !Verified(made, id);
  }

  /** With the gate on, an owner's relevant edit takes the label off and leaves the app where it was: a published
      app stays in the catalog with content that no review was matched against. */
  lemma EditedAppStaysWhereItWas(db: Db, id: Uuid, input: AppInput, category: Uuid, nonce: Uuid,
                                 submitter: Uuid, review: Uuid, now: int)
    requires db.settings.enabled && id in db.apps && ParsedAs(input.categoryId, Some(category))
    requires SecurityRelevantChange(db.apps[id], input)
    requires EditApp(db, id, Some(input), Some(category), nonce, submitter, review, now).0.Ok?
    ensures var after := EditApp(db, id, Some(input), Some(category), nonce, submitter, review, now).1;
            && id in after.apps && !Verified(after, id) && after.apps[id].status == db.apps[id].status
            && BindingInput(after.apps[id]) == BindingInput(WithInput(db.apps[id], input, category))
  {
    var edited := UpdateApp(db, id, Some(input), Some(category), nonce).1;
    assert !Verified(edited, id);
  }

  /** The attached review's row names the app, and the review, read again, approves the app as it is. */
  ghost predicate FreshlyApproved(db: Db, id: Uuid, remote: Option<Review>, now: int, digest: AppInput -> string) {
    && id in db.apps && AttachedReview(db, id) != "" && db.settings.baseUrl != "" && db.settings.apiKey != ""
    && remote.Some? && db.checks[AttachedReview(db, id)].appId == Some(id)
    && Verify(remote, BindingText(id, db.apps[id].nonce, BindingInput(db.apps[id]), digest), db.apps[id].name, now)
       == Approves
  }

  /** An approving answer for the attached review is recorded, and any other is reported as an error. */
  lemma ApprovalIsRecordedExactly(db: Db, id: Uuid, review: Review, now: int, digest: AppInput -> string)
    requires id in db.apps && AttachedReview(db, id) != "" && Fetched(review, AttachedReview(db, id))
    ensures ReadWithoutError(Finished(Conclude(db, Answered(db, id, 0, review), now, digest).0))
            <==> && Judge(Answered(db, id, 0, review), now, digest) == Approves
                 && db.checks[AttachedReview(db, id)].appId == Some(id)
  {
    ReviewIdIsTrimmed(review.id);
    hide Judge, Verified;
  }

  lemma ClearedIsSubmitted(db: Db, id: Uuid, submitter: Uuid, review: Uuid, now: int)
    requires id in db.apps && Verified(db, id)
    ensures SubmitApp(db, id, submitter, review, now).0.Ok?
  {
    hide Verified, CancelPending;
  }

  /** With the gate on, the button submits exactly when the review approves the app as it is at that moment. */
  lemma ButtonSubmitsExactly(db: Db, id: Uuid, submitter: Uuid, review: Uuid, remote: Option<Review>, now: int,
                             digest: AppInput -> string)
    requires db.settings.enabled
    requires id in db.apps && remote.Some? ==> Fetched(remote.value, AttachedReview(db, id))
    ensures SubmittedBy(PressSubmit(db, id, submitter, review, remote, now, digest).0)
            <==> FreshlyApproved(db, id, remote, now, digest)
  {
    hide Refresh, Conclude, SubmitApp, Verified, Verify, AttachedReview;
    var (answer, after) := Refresh(db, id, "", remote, now, digest);
    ButtonReads(db, id, remote, now, digest);
    SuccessMeansVerified(db, id, "", remote, now, digest);
    if ReadWithoutError(answer) {
      ApprovalIsRecordedExactly(db, id, remote.value, now, digest);
      ClearedIsSubmitted(after, id, submitter, review, now);
    } else if id in db.apps && AttachedReview(db, id) != "" && remote.Some? {
      ApprovalIsRecordedExactly(db, id, remote.value, now, digest);
    }
  }

  /** An edit submits exactly when it is accepted, the workflow is on, the app was rejected or is published under a
      workflow that asks for approval again, and, with the gate on, the stored label is on and nothing a reviewer was
      shown changes. What the remote review says now plays no part. */
  lemma EditSubmitsExactly(db: Db, id: Uuid, input: Option<AppInput>, category: Option<Uuid>, nonce: Uuid,
                           submitter: Uuid, review: Uuid, now: int)
    requires review !in db.reviews
    requires input.Some? ==> ParsedAs(input.value.categoryId, category)
    ensures review in EditApp(db, id, input, category, nonce, submitter, review, now).1.reviews
            <==> && id in db.apps && input.Some? && category.Some? && SlugIsFree(db, input.value.slug, id)
                 && db.config.enabled
                 && (db.apps[id].status == Rejected
                     || (db.apps[id].status == Published && db.config.reapprovalAfterEdit))
                 && (db.settings.enabled ==>
                       Verified(db, id) && !SecurityRelevantChange(db.apps[id], input.value))
  {
    var (reply, edited) := UpdateApp(db, id, input, category, nonce);
    if reply.Ok? {
      OwnerEditDropsLabelExactly(db, id, input.value, category.value, nonce);
      SubmissionQueuesExactly(edited, id, submitter, review, now);
    }
  }

  lemma SubmissionQueuesExactly(db: Db, id: Uuid, submitter: Uuid, review: Uuid, now: int)
    requires review !in db.reviews
    ensures review in SubmitOrHold(db, id, submitter, review, now).1.reviews
            <==> id in db.apps && (db.settings.enabled ==> Verified(db, id)) && db.config.enabled
  {
  }

  /** The states in which the button refuses and an edit submits on the stored answer: the attached review no longer
      approves, and yet the label is on. */
  lemma CachedBadgeSubmitsThroughEdit(
      db: Db, id: Uuid, input: Option<AppInput>, category: Option<Uuid>, nonce: Uuid, submitter: Uuid, review: Uuid,
      remote: Option<Review>, now: int, digest: AppInput -> string)
    requires db.settings.enabled && review !in db.reviews
    requires input.Some? ==> ParsedAs(input.value.categoryId, category)
    requires id in db.apps && remote.Some? ==> Fetched(remote.value, AttachedReview(db, id))
    ensures && !SubmittedBy(PressSubmit(db, id, submitter, review, remote, now, digest).0)
            && review in EditApp(db, id, input, category, nonce, submitter, review, now).1.reviews
            <==> && !FreshlyApproved(db, id, remote, now, digest)
                 && id in db.apps && input.Some? && category.Some? && SlugIsFree(db, input.value.slug, id)
                 && db.config.enabled
                 && (db.apps[id].status == Rejected
                     || (db.apps[id].status == Published && db.config.reapprovalAfterEdit))
                 && Verified(db, id) && !SecurityRelevantChange(db.apps[id], input.value)
  {
    ButtonSubmitsExactly(db, id, submitter, review, remote, now, digest);
    EditSubmitsExactly(db, id, input, category, nonce, submitter, review, now);
  }
}
