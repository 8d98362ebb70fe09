/** What the review workflow keeps in every run, and what a publication proves about its submission. */
module WorkflowProof {
  import opened Wrappers
  import opened Uuids
  import opened SecurityBinding
  import opened Catalog
  import opened Runs

  /** The review at one place of a submission's chain: its level is its place, and only the last is undecided or
      refused. */
  ghost predicate LinkOk(w: World, c: nat, i: nat, app: Uuid, submitter: Uuid)
    requires c < |w.flow.chains| && i < |w.flow.chains[c]|
  {
    var chain := w.flow.chains[c];
    var x := chain[i];
    && x in w.db.reviews && x in w.flow.chainOf && w.flow.chainOf[x] == c
    && w.db.reviews[x].appId == app && w.db.reviews[x].submitterId == submitter && w.db.reviews[x].level == i + 1
    && (i + 1 < |chain| ==> w.db.reviews[x].status == ReviewApproved)
  }

  ghost predicate ChainOk(w: World, c: nat, app: Uuid, submitter: Uuid) {
    c < |w.flow.chains| && forall i :: 0 <= i < |w.flow.chains[c]| ==> LinkOk(w, c, i, app, submitter)
  }

  ghost predicate PlacedOk(w: World, r: Uuid)
    requires r in w.db.reviews
  {
    var row := w.db.reviews[r];
    && r in w.flow.chainOf && ChainOk(w, w.flow.chainOf[r], row.appId, row.submitterId)
    && 1 <= row.level <= |w.flow.chains[w.flow.chainOf[r]]| && w.flow.chains[w.flow.chainOf[r]][row.level - 1] == r
  }

  /** A decided review names who decided it, and under prevention that was not the submitter. */
  ghost predicate DecisionOk(w: World, r: Uuid)
    requires r in w.db.reviews
  {
    var row := w.db.reviews[r];
    row.status in {ReviewApproved, ReviewRejected} ==>
      row.reviewerId.Some? && r in w.flow.guarded && (w.flow.guarded[r] ==> row.reviewerId.value != row.submitterId)
  }

  ghost predicate RowOk(w: World, r: Uuid)
    requires r in w.db.reviews
  {
    var row := w.db.reviews[r];
    && 1 <= row.level <= 10 && row.appId in w.db.apps
    && (row.status == Pending ==> w.db.apps[row.appId].status == PendingReview || row.appId in w.flow.overridden)
    && DecisionOk(w, r) && PlacedOk(w, r)
  }

  ghost predicate OnePending(w: World) {
    forall q, r | q in w.db.reviews && r in w.db.reviews && w.db.reviews[q].appId == w.db.reviews[r].appId ::
      w.db.reviews[q].status == w.db.reviews[r].status == Pending ==> q == r
  }

  ghost predicate NamesOk(w: World) {
    && (forall r :: r in w.db.reviews ==> r in w.issued)
    && (forall r :: r in w.flow.chainOf ==> r in w.issued)
    && (forall a :: a in w.db.apps ==> a in w.issued)
  }

  ghost predicate FlowOk(w: World) {
    && 1 <= w.db.config.levels <= 10 && NamesOk(w) && OnePending(w)
    && forall r :: r in w.db.reviews ==> RowOk(w, r)
  }

  // ---- Steps that leave the reviews alone ----

  ghost predicate ReviewsUntouched(w: World, w': World) {
    && w'.db.reviews == w.db.reviews && 1 <= w'.db.config.levels <= 10 && w.issued <= w'.issued
    && w'.flow == w.flow.(overridden := w'.flow.overridden) && w.flow.overridden <= w'.flow.overridden
    && (forall a :: a in w'.db.apps ==> a in w'.issued)
    && (forall a :: a in w.db.apps ==>
          a in w'.db.apps && (w'.db.apps[a].status == w.db.apps[a].status || a in w'.flow.overridden))
  }

  lemma PlacedKept(w: World, w': World, r: Uuid)
    requires r in w.db.reviews && w'.db.reviews == w.db.reviews && PlacedOk(w, r)
    requires w'.flow.chains == w.flow.chains && w'.flow.chainOf == w.flow.chainOf
    ensures PlacedOk(w', r)
  {
    var c := w.flow.chainOf[r];
    forall i | 0 <= i < |w'.flow.chains[c]|
      ensures LinkOk(w', c, i, w.db.reviews[r].appId, w.db.reviews[r].submitterId)
    {
      assert LinkOk(w, c, i, w.db.reviews[r].appId, w.db.reviews[r].submitterId);
    }
  }

  lemma UntouchedKeeps(w: World, w': World)
    requires FlowOk(w) && ReviewsUntouched(w, w')
    ensures FlowOk(w')
  {
    forall r | r in w'.db.reviews ensures RowOk(w', r) {
      assert RowOk(w, r);
      PlacedKept(w, w', r);
    }
  }

  /** What the steps that leave the reviews alone need. */
  ghost predicate Settled(w: World) {
    1 <= w.db.config.levels <= 10 && forall a :: a in w.db.apps ==> a in w.issued
  }

  lemma CreatingTouchesNoReview(w: World, step: Step, digest: AppInput -> string)
    requires Settled(w) && Enabled(w, step) && step.CreatesApp?
    ensures ReviewsUntouched(w, Next(w, step, digest))
  {
  }

  lemma UpdatingTouchesNoReview(w: World, id: Uuid, input: Option<AppInput>, category: Option<Uuid>, nonce: Uuid)
    requires Settled(w)
    ensures ReviewsUntouched(w, AfterUpdate(w, id, input, category, nonce))
  {
    hide SecurityRelevantChange, SlugTaken, ParsedAs;
  }

  lemma RewritingTouchesNoReview(w: World, id: Uuid, input: Option<AppInput>, category: Option<Uuid>,
                                 status: Option<AppStatus>, now: int)
    requires Settled(w)
    ensures ReviewsUntouched(w, AfterAdminUpdate(w, id, input, category, status, now))
  {
    hide SlugTaken, BindingInput;
  }

  lemma SettingTouchesNoReview(w: World, id: Uuid, status: Option<AppStatus>, now: int)
    requires Settled(w)
    ensures ReviewsUntouched(w, AfterSetStatus(w, id, status, now))
  {
    hide Verified;
  }

  lemma RecordingTouchesNoReview(db: Db, s: Session, now: int)
    requires s.BindingRead?
    ensures var after := StoreCheck(db, s.bound, s.app, s.nonce, s.settings.revision, ResultOf(s.review), now).1;
            && after.reviews == db.reviews && after.config == db.config && after.apps.Keys == db.apps.Keys
            && forall a :: a in db.apps ==> after.apps[a].status == db.apps[a].status
  {
  }

  lemma ConcludingTouchesNoReview(w: World, k: nat, now: int, digest: AppInput -> string)
    requires Settled(w) && k in w.sessions && w.sessions[k].BindingRead?
    ensures ReviewsUntouched(w, AfterConclude(w, k, now, digest))
  {
    hide Judge, StoreCheck;
    RecordingTouchesNoReview(w.db, w.sessions[k], now);
  }

  lemma SavingTouchesNoReview(w: World, k: nat, enabled: bool, baseUrl: string, timeoutSeconds: int,
                              newKey: Option<string>)
    requires Settled(w) && k in w.saves
    ensures ReviewsUntouched(w, AfterConnect(w, k, enabled, baseUrl, timeoutSeconds, newKey))
  {
    hide SavedSettings;
  }

  lemma ReadingTouchesNoReview(w: World, w': World)
    requires Settled(w) && w'.db == w.db && w'.issued == w.issued && w'.flow == w.flow
    ensures ReviewsUntouched(w, w')
  {
  }

  lemma ConfiguringTouchesNoReview(w: World, config: WorkflowConfig)
    requires Settled(w)
    ensures ReviewsUntouched(w, w.(db := UpdateWorkflowConfig(w.db, config).1))
  {
    hide Text.Unique;
  }

  /** Every step but a deletion, a submission and a decision. */
  lemma TouchesNoReview(w: World, step: Step, digest: AppInput -> string)
    requires Settled(w) && Enabled(w, step) && !(step.DeletesApp? || step.Submits? || step.Decides?)
    ensures ReviewsUntouched(w, Next(w, step, digest))
  {
    hide AfterUpdate, AfterAdminUpdate, AfterSetStatus, AfterConclude, AfterConnect, CreateApp, ReadSettings,
         ReadChallenge, ReadApp, ReadBinding, UpdateWorkflowConfig, ReviewsUntouched;
    var w' := Next(w, step, digest);
    if w'.db == w.db && w'.issued == w.issued && w'.flow == w.flow {
      ReadingTouchesNoReview(w, w');
    }
    match step
    case CreatesApp(_, _, _, _, _, _) => CreatingTouchesNoReview(w, step, digest);
    case UpdatesApp(id, input, category, nonce) => UpdatingTouchesNoReview(w, id, input, category, nonce);
    case AdminUpdatesApp(id, input, category, status, now) =>
      RewritingTouchesNoReview(w, id, input, category, status, now);
    case SetsStatus(id, status, now) => SettingTouchesNoReview(w, id, status, now);
    case Concludes(k, now) => ConcludingTouchesNoReview(w, k, now, digest);
    case Configures(config) => ConfiguringTouchesNoReview(w, config);
    case Connects(k, enabled, baseUrl, timeoutSeconds, newKey) =>
      SavingTouchesNoReview(w, k, enabled, baseUrl, timeoutSeconds, newKey);
    case _ =>
  }

  // ---- Deleting, submitting, deciding ----

  lemma DeletionKeepsFlow(w: World, id: Uuid)
    requires FlowOk(w)
    ensures FlowOk(w.(db := DeleteApp(w.db, id).1))
  {
    var w' := w.(db := DeleteApp(w.db, id).1);
    forall r | r in w'.db.reviews ensures RowOk(w', r) {
      assert RowOk(w, r);
      PlacedAfterDeletion(w, w', r);
    }
  }

  lemma PlacedAfterDeletion(w: World, w': World, r: Uuid)
    requires r in w.db.reviews && r in w'.db.reviews && PlacedOk(w, r) && w'.flow == w.flow
    requires forall q :: q in w.db.reviews && w.db.reviews[q].appId == w.db.reviews[r].appId ==>
               q in w'.db.reviews && w'.db.reviews[q] == w.db.reviews[q]
    ensures PlacedOk(w', r)
  {
    var c, row := w.flow.chainOf[r], w.db.reviews[r];
    forall i | 0 <= i < |w'.flow.chains[c]| ensures LinkOk(w', c, i, row.appId, row.submitterId) {
      assert LinkOk(w, c, i, row.appId, row.submitterId);
    }
  }

  lemma DeleteKeepsFlow(w: World, step: Step, digest: AppInput -> string)
    requires FlowOk(w) && Enabled(w, step) && step.DeletesApp?
    ensures FlowOk(Next(w, step, digest))
  {
    hide FlowOk, DeleteApp;
    DeletionKeepsFlow(w, step.id);
  }

  /** The effect of an accepted submission on reviews, apps and history. */
  ghost predicate Submitted(w: World, w': World, id: Uuid, submitter: Uuid, review: Uuid, now: int) {
    && id in w.db.apps && review !in w.issued && w'.issued == w.issued + {review} && w'.db.config == w.db.config
    && w'.db.apps.Keys == w.db.apps.Keys && (forall a :: a in w.db.apps && a != id ==> w'.db.apps[a] == w.db.apps[a])
    && w'.flow.guarded == w.flow.guarded && w'.flow.overridden == w.flow.overridden - {id}
    && (|| (&& w'.db.reviews == CancelPending(w.db.reviews, id, now)
            && w'.flow.chains == w.flow.chains && w'.flow.chainOf == w.flow.chainOf)
        || (&& w'.db.reviews == CancelPending(w.db.reviews, id, now)[review := NewReview(id, submitter, 1)]
            && w'.db.apps[id].status == PendingReview
            && w'.flow.chains == w.flow.chains + [[review]]
            && w'.flow.chainOf == w.flow.chainOf[review := |w.flow.chains|]))
  }

  lemma SubmitIsSubmitted(w: World, id: Uuid, submitter: Uuid, review: Uuid, now: int)
    requires review !in w.issued
    ensures var w' := AfterSubmit(w, id, submitter, review, now);
            Submitted(w, w', id, submitter, review, now)
            || (w'.db == w.db && w'.flow == w.flow && w'.issued == w.issued + {review})
  {
  }

  lemma OldPlacedAfterSubmit(w: World, w': World, id: Uuid, submitter: Uuid, review: Uuid, now: int, r: Uuid)
    requires NamesOk(w) && Submitted(w, w', id, submitter, review, now) && r in w.db.reviews && PlacedOk(w, r)
    ensures r in w'.db.reviews && PlacedOk(w', r)
  {
    var c, row := w.flow.chainOf[r], w.db.reviews[r];
    assert w'.flow.chains[c] == w.flow.chains[c];
    forall i | 0 <= i < |w'.flow.chains[c]| ensures LinkOk(w', c, i, row.appId, row.submitterId) {
      assert LinkOk(w, c, i, row.appId, row.submitterId);
      assert w.flow.chains[c][i] != review;
    }
  }

  lemma OldRowAfterSubmit(w: World, w': World, id: Uuid, submitter: Uuid, review: Uuid, now: int, r: Uuid)
    requires NamesOk(w) && Submitted(w, w', id, submitter, review, now) && r in w.db.reviews && RowOk(w, r)
    ensures r in w'.db.reviews && RowOk(w', r)
  {
    OldPlacedAfterSubmit(w, w', id, submitter, review, now, r);
    assert r != review;
    var row, after := w.db.reviews[r], w'.db.reviews[r];
    assert after.appId == row.appId && after.level == row.level && after.submitterId == row.submitterId
           && after.reviewerId == row.reviewerId;
    assert after.status == row.status || after.status == Cancelled;
  }

  lemma NewRowAfterSubmit(w: World, w': World, id: Uuid, submitter: Uuid, review: Uuid, now: int)
    requires NamesOk(w) && Submitted(w, w', id, submitter, review, now) && review in w'.db.reviews
    ensures RowOk(w', review)
  {
    assert review !in w.db.reviews;
    assert w'.flow.chains[|w.flow.chains|] == [review];
    assert LinkOk(w', |w.flow.chains|, 0, id, submitter);
  }

  lemma SubmitKeeps(w: World, w': World, id: Uuid, submitter: Uuid, review: Uuid, now: int)
    requires FlowOk(w) && Submitted(w, w', id, submitter, review, now)
    ensures FlowOk(w')
  {
    SubmitKeepsNames(w, w', id, submitter, review, now);
    forall r | r in w'.db.reviews ensures RowOk(w', r) {
      if r == review {
        NewRowAfterSubmit(w, w', id, submitter, review, now);
      } else {
        assert r in w.db.reviews && RowOk(w, r);
        OldRowAfterSubmit(w, w', id, submitter, review, now, r);
      }
    }
  }

  lemma SubmitKeepsNames(w: World, w': World, id: Uuid, submitter: Uuid, review: Uuid, now: int)
    requires NamesOk(w) && OnePending(w) && Submitted(w, w', id, submitter, review, now)
    ensures NamesOk(w') && OnePending(w')
  {
    assert forall r :: r in w'.db.reviews && r != review ==>
             r in w.db.reviews && w'.db.reviews[r].appId == w.db.reviews[r].appId
             && (w'.db.reviews[r].status == Pending ==>
                   w.db.reviews[r].status == Pending && w.db.reviews[r].appId != id);
  }

  /** The effect of an accepted decision. */
  ghost predicate Decided(w: World, w': World, review: Uuid, reviewer: Uuid, approved: bool, reason: string, next: Uuid,
                          now: int) {
    review in w.db.reviews &&
    var row := w.db.reviews[review];
    var decided := w.db.reviews[review := row.(reviewerId := Some(reviewer),
                                               status := if approved then ReviewApproved else ReviewRejected,
                                               reason := reason, decidedAt := Some(now))];
    && row.status == Pending && (w.db.config.preventSelfApproval ==> reviewer != row.submitterId)
    && next !in w.issued && w'.issued == w.issued + {next} && w'.db.config == w.db.config
    && w'.flow.guarded == w.flow.guarded[review := w.db.config.preventSelfApproval]
    && w'.flow.overridden == w.flow.overridden
    && w'.db.apps.Keys == w.db.apps.Keys
    && (forall a :: a in w.db.apps && a != row.appId ==> w'.db.apps[a] == w.db.apps[a])
    && (|| (w'.db.reviews == decided && w'.flow.chains == w.flow.chains && w'.flow.chainOf == w.flow.chainOf)
        || (&& approved && w.db.config.enabled && row.level < w.db.config.levels
            && review in w.flow.chainOf && w.flow.chainOf[review] < |w.flow.chains|
            && w'.db.apps == w.db.apps
            && w'.db.reviews == decided[next := NewReview(row.appId, row.submitterId, row.level + 1)]
            && (var c := w.flow.chainOf[review];
                && w'.flow.chains == w.flow.chains[c := w.flow.chains[c] + [next]]
                && w'.flow.chainOf == w.flow.chainOf[next := c])))
  }

  ghost predicate Refused(w: World, w': World, next: Uuid) {
    w'.db == w.db && w'.flow == w.flow && w'.issued == w.issued + {next}
  }

  /** A review has an app, and its submission is on record. */
  ghost predicate OnRecord(w: World, review: Uuid)
    requires review in w.db.reviews
  {
    w.db.reviews[review].appId in w.db.apps && review in w.flow.chainOf && w.flow.chainOf[review] < |w.flow.chains|
  }

  lemma AcceptedIsDecided(w: World, review: Uuid, reviewer: Uuid, decision: Decision, reason: string, next: Uuid,
                          now: int)
    requires next !in w.issued && review in w.db.reviews && OnRecord(w, review)
    requires DecideReview(w.db, review, reviewer, Some(decision), reason, next, now).0.Ok?
    ensures Decided(w, AfterDecide(w, review, reviewer, Some(decision), reason, next, now),
                    review, reviewer, decision == Approve, Text.Trim(reason), next, now)
  {
    hide Text.Trim, WithStatus;
  }

  lemma RefusedIsRefused(w: World, review: Uuid, reviewer: Uuid, decision: Option<Decision>, reason: string, next: Uuid,
                         now: int)
    requires DecideReview(w.db, review, reviewer, decision, reason, next, now).0.Err?
    ensures Refused(w, AfterDecide(w, review, reviewer, decision, reason, next, now), next)
  {
    hide Text.Trim, StatusSet;
  }

  lemma DecidedInReview(db: Db, review: Uuid, reviewer: Uuid, decision: Option<Decision>, reason: string, next: Uuid,
                        now: int)
    requires DecideReview(db, review, reviewer, decision, reason, next, now).0.Ok?
    ensures review in db.reviews && decision.Some?
  {
    hide Text.Trim, StatusSet;
  }

  lemma DecideIsDecided(w: World, review: Uuid, reviewer: Uuid, decision: Option<Decision>, reason: string, next: Uuid,
                        now: int)
    requires FlowOk(w) && next !in w.issued
    ensures var w', note := AfterDecide(w, review, reviewer, decision, reason, next, now), Text.Trim(reason);
            || (decision.Some? && Decided(w, w', review, reviewer, decision.value == Approve, note, next, now))
            || Refused(w, w', next)
  {
    hide AfterDecide, DecideReview, Decided, OnePending, NamesOk;
    if DecideReview(w.db, review, reviewer, decision, reason, next, now).0.Err? {
      RefusedIsRefused(w, review, reviewer, decision, reason, next, now);
    } else {
      DecidedInReview(w.db, review, reviewer, decision, reason, next, now);
      assert RowOk(w, review) && OnRecord(w, review);
      AcceptedIsDecided(w, review, reviewer, decision.value, reason, next, now);
    }
  }

  /** Only the last review of a chain can be pending. */
  lemma PendingIsLast(w: World, r: Uuid)
    requires FlowOk(w) && r in w.db.reviews && w.db.reviews[r].status == Pending
    ensures RowOk(w, r) && w.db.reviews[r].level == |w.flow.chains[w.flow.chainOf[r]]|
  {
    assert RowOk(w, r);
    var row := w.db.reviews[r];
    assert LinkOk(w, w.flow.chainOf[r], row.level - 1, row.appId, row.submitterId);
  }

  ghost predicate LastInChain(w: World, r: Uuid) {
    r in w.db.reviews && PlacedOk(w, r) && w.db.reviews[r].level == |w.flow.chains[w.flow.chainOf[r]]|
  }

  lemma PlacedAfterDecide(w: World, w': World, review: Uuid, reviewer: Uuid, approved: bool, reason: string, next: Uuid,
                          now: int, r: Uuid)
    requires NamesOk(w) && LastInChain(w, review) && Decided(w, w', review, reviewer, approved, reason, next, now)
    requires r in w.db.reviews && PlacedOk(w, r)
    ensures r in w'.db.reviews && PlacedOk(w', r)
  {
    var c, row := w.flow.chainOf[r], w.db.reviews[r];
    var was := w.flow.chains[c];
    assert r != next;
    forall i | 0 <= i < |w'.flow.chains[c]| ensures LinkOk(w', c, i, row.appId, row.submitterId) {
      if i < |was| {
        assert LinkOk(w, c, i, row.appId, row.submitterId);
        assert was[i] != next && w'.flow.chains[c][i] == was[i];
        LastIsNotInside(w, review, c, i, row.appId, row.submitterId);
      } else {
        assert c == w.flow.chainOf[review] && i == |was| && w'.flow.chains[c][i] == next;
        assert LinkOk(w, c, |was| - 1, row.appId, row.submitterId);
        assert was[|was| - 1] == review;
      }
    }
  }

  /** The pending review stands at no place but the last. */
  lemma LastIsNotInside(w: World, review: Uuid, c: nat, i: nat, app: Uuid, submitter: Uuid)
    requires LastInChain(w, review) && c < |w.flow.chains| && i < |w.flow.chains[c]| && LinkOk(w, c, i, app, submitter)
    ensures w.flow.chains[c][i] == review ==> i + 1 == |w.flow.chains[c]|
  {
  }

  lemma OldRowAfterDecide(w: World, w': World, review: Uuid, reviewer: Uuid, approved: bool, reason: string, next: Uuid,
                          now: int, r: Uuid)
    requires NamesOk(w) && OnePending(w) && LastInChain(w, review)
    requires Decided(w, w', review, reviewer, approved, reason, next, now)
    requires r in w.db.reviews && RowOk(w, r)
    ensures r in w'.db.reviews && RowOk(w', r)
  {
    PlacedAfterDecide(w, w', review, reviewer, approved, reason, next, now, r);
    assert r != next;
    if r != review && w.db.reviews[r].status == Pending {
      assert w.db.reviews[r].appId != w.db.reviews[review].appId;
    }
  }

  lemma NewRowAfterDecide(w: World, w': World, review: Uuid, reviewer: Uuid, approved: bool, reason: string, next: Uuid,
                          now: int)
    requires NamesOk(w) && LastInChain(w, review) && RowOk(w, review)
    requires Decided(w, w', review, reviewer, approved, reason, next, now)
    requires next in w'.db.reviews && w.db.config.levels <= 10
    ensures RowOk(w', next)
  {
    assert next !in w.db.reviews;
    PlacedAfterDecide(w, w', review, reviewer, approved, reason, next, now, review);
    var c := w.flow.chainOf[review];
    assert w'.flow.chains[c] == w.flow.chains[c] + [next];
    assert ChainOk(w', c, w.db.reviews[review].appId, w.db.reviews[review].submitterId);
  }

  lemma DecideKeepsNames(w: World, w': World, review: Uuid, reviewer: Uuid, approved: bool, reason: string, next: Uuid,
                         now: int)
    requires NamesOk(w) && OnePending(w) && Decided(w, w', review, reviewer, approved, reason, next, now)
    ensures NamesOk(w') && OnePending(w')
  {
  }

  lemma DecideKeeps(w: World, w': World, review: Uuid, reviewer: Uuid, approved: bool, reason: string, next: Uuid,
                    now: int)
    requires FlowOk(w) && Decided(w, w', review, reviewer, approved, reason, next, now)
    ensures FlowOk(w')
  {
    PendingIsLast(w, review);
    DecideKeepsNames(w, w', review, reviewer, approved, reason, next, now);
    forall r | r in w'.db.reviews ensures RowOk(w', r) {
      if r in w.db.reviews {
        assert RowOk(w, r);
        OldRowAfterDecide(w, w', review, reviewer, approved, reason, next, now, r);
      } else {
        assert r == next;
        NewRowAfterDecide(w, w', review, reviewer, approved, reason, next, now);
      }
    }
  }

  lemma StepKeepsFlow(w: World, step: Step, digest: AppInput -> string)
    requires FlowOk(w) && Enabled(w, step)
    ensures FlowOk(Next(w, step, digest))
  {
    hide RowOk, OnePending, Submitted, Decided, AfterUpdate, AfterAdminUpdate, AfterSetStatus, AfterConclude,
         CreateApp, AfterSubmit, AfterDecide;
    var w' := Next(w, step, digest);
    match step
    case DeletesApp(_) => DeleteKeepsFlow(w, step, digest);
    case Submits(id, submitter, review, now) =>
      SubmitIsSubmitted(w, id, submitter, review, now);
      if Submitted(w, w', id, submitter, review, now) {
        SubmitKeeps(w, w', id, submitter, review, now);
      } else {
        UntouchedKeeps(w, w');
      }
    case Decides(review, reviewer, decision, reason, next, now) =>
      DecideIsDecided(w, review, reviewer, decision, reason, next, now);
      if decision.Some? && Decided(w, w', review, reviewer, decision.value == Approve, Text.Trim(reason), next, now) {
        DecideKeeps(w, w', review, reviewer, decision.value == Approve, Text.Trim(reason), next, now);
      } else {
        UntouchedKeeps(w, w');
      }
    case _ => TouchesNoReview(w, step, digest); UntouchedKeeps(w, w');
  }

  lemma {:induction false} RunKeepsFlow(w: World, steps: seq<Step>, end: World, digest: AppInput -> string)
    requires FlowOk(w) && Reaches(w, steps, end, digest)
    ensures FlowOk(end)
    decreases |steps|
  {
    hide Next, FlowOk;
    if steps != [] {
      StepKeepsFlow(w, steps[0], digest);
      RunKeepsFlow(Next(w, steps[0], digest), steps[1..], end, digest);
    }
  }

  lemma {:induction false} RunIsInOrder(w0: World, steps: seq<Step>, w: World, digest: AppInput -> string)
    requires Initial(w0) && Reaches(w0, steps, w, digest)
    ensures FlowOk(w)
  {
    hide Next, RowOk;
    assert FlowOk(w0);
    RunKeepsFlow(w0, steps, w, digest);
  }

  // ---- What it gives ----

  /** In every run: levels stay in range, an app has at most one pending review, and while no one has set its
      status by hand since its last submission, a pending review means the app is waiting for one. */
  lemma {:induction false} ReviewsStayInOrder(w0: World, steps: seq<Step>, w: World, q: Uuid, r: Uuid,
                                              digest: AppInput -> string)
    requires Initial(w0) && Reaches(w0, steps, w, digest)
    requires q in w.db.reviews && r in w.db.reviews
    ensures 1 <= w.db.reviews[r].level <= 10 && w.db.reviews[r].appId in w.db.apps
    ensures (w.db.reviews[q].status == w.db.reviews[r].status == Pending
             && w.db.reviews[q].appId == w.db.reviews[r].appId)
            ==> q == r
    ensures (w.db.reviews[r].status == Pending && w.db.reviews[r].appId !in w.flow.overridden)
            ==> w.db.apps[w.db.reviews[r].appId].status == PendingReview
  {
    hide Next, Reaches, PlacedOk, DecisionOk;
    RunIsInOrder(w0, steps, w, digest);
    assert RowOk(w, r);
  }

  /** Setting a status by hand keeps "pending review, waiting app" exactly when the app has no pending review
      or the status set is the waiting one. */
  lemma HandSetStatusKeepsWaitingExactly(db: Db, id: Uuid, status: AppStatus, now: int)
    requires SetAppStatus(db, id, Some(status), now).0.Ok?
    requires forall r :: r in db.reviews && db.reviews[r].status == Pending && db.reviews[r].appId == id ==>
               db.apps[id].status == PendingReview
    ensures var after := SetAppStatus(db, id, Some(status), now).1;
            (forall r :: r in after.reviews && after.reviews[r].status == Pending && after.reviews[r].appId == id
                         ==> after.apps[id].status == PendingReview)
            <==> status == PendingReview
                 || forall r :: r in db.reviews && db.reviews[r].appId == id ==> db.reviews[r].status != Pending
  {
  }

  /** Every level from 1 up to a level no lower than `levels` was approved in this review's submission, for one
      app and one submitter; and a level decided while self-approval was prevented was not decided by them. */
  ghost predicate FullyApproved(w: World, review: Uuid, levels: int)
    requires review in w.db.reviews
  {
    var row := w.db.reviews[review];
    && review in w.flow.chainOf && w.flow.chainOf[review] < |w.flow.chains|
    && var chain := w.flow.chains[w.flow.chainOf[review]];
    && levels <= |chain| && review in chain
    && forall i :: 0 <= i < |chain| ==> ApprovedAt(w, chain[i], i + 1, row.appId, row.submitterId)
  }

  ghost predicate ApprovedAt(w: World, x: Uuid, level: int, app: Uuid, submitter: Uuid) {
    && x in w.db.reviews && w.db.reviews[x].status == ReviewApproved && w.db.reviews[x].level == level
    && w.db.reviews[x].appId == app && w.db.reviews[x].submitterId == submitter
    && w.db.reviews[x].reviewerId.Some? && x in w.flow.guarded
    && (w.flow.guarded[x] ==> w.db.reviews[x].reviewerId.value != submitter)
  }

  /** An approved review at the end of its chain completes a fully approved submission. */
  lemma ApprovedLastCompletes(w: World, review: Uuid)
    requires FlowOk(w) && review in w.db.reviews && w.db.reviews[review].status == ReviewApproved
    requires PlacedOk(w, review) && w.db.reviews[review].level == |w.flow.chains[w.flow.chainOf[review]]|
    ensures FullyApproved(w, review, w.db.reviews[review].level)
  {
    var c, row := w.flow.chainOf[review], w.db.reviews[review];
    var chain := w.flow.chains[c];
    forall i | 0 <= i < |chain| ensures ApprovedAt(w, chain[i], i + 1, row.appId, row.submitterId) {
      assert LinkOk(w, c, i, row.appId, row.submitterId);
      assert RowOk(w, chain[i]);
    }
  }

  lemma PublishingDecision(w: World, review: Uuid, reviewer: Uuid, decision: Option<Decision>, reason: string,
                           next: Uuid, now: int)
    requires w.db.config.enabled
    requires var reply := DecideReview(w.db, review, reviewer, decision, reason, next, now).0;
             reply.Ok? && reply.value.appStatus == Published
    ensures review in w.db.reviews && w.db.reviews[review].status == Pending
    ensures w.db.config.levels <= w.db.reviews[review].level
    ensures var w' := AfterDecide(w, review, reviewer, decision, reason, next, now);
            && review in w'.db.reviews && w'.db.reviews[review].status == ReviewApproved
            && w'.db.reviews[review].level == w.db.reviews[review].level
            && w'.flow.chains == w.flow.chains && w'.flow.chainOf == w.flow.chainOf
  {
  }

  /** A pending review of the last level, once approved, completes its submission. */
  lemma PublishedCompletes(w: World, w': World, review: Uuid)
    requires FlowOk(w) && FlowOk(w') && review in w.db.reviews && review in w'.db.reviews
    requires w.db.reviews[review].status == Pending && w'.db.reviews[review].status == ReviewApproved
    requires w'.db.reviews[review].level == w.db.reviews[review].level >= w.db.config.levels
    requires w'.flow.chains == w.flow.chains && w'.flow.chainOf == w.flow.chainOf
    ensures FullyApproved(w', review, w.db.config.levels)
  {
    PendingIsLast(w, review);
    assert RowOk(w', review);
    ApprovedLastCompletes(w', review);
  }

  /** In every run, whatever happened to the level count meanwhile: a decision that publishes with the workflow
      on completes a submission approved at every level the configuration asks for at that moment. */
  lemma {:induction false} PublicationIsFullyApproved(w0: World, steps: seq<Step>, w: World, review: Uuid,
                                                      reviewer: Uuid, decision: Option<Decision>, reason: string,
                                                      next: Uuid, now: int, digest: AppInput -> string)
    requires Initial(w0) && Reaches(w0, steps, w, digest) && next !in w.issued && w.db.config.enabled
    requires var reply := DecideReview(w.db, review, reviewer, decision, reason, next, now).0;
             reply.Ok? && reply.value.appStatus == Published
    ensures var w' := Next(w, Decides(review, reviewer, decision, reason, next, now), digest);
            review in w'.db.reviews && FullyApproved(w', review, w.db.config.levels)
  {
    hide FlowOk, FullyApproved, AfterDecide, DecideReview;
    RunIsInOrder(w0, steps, w, digest);
    StepKeepsFlow(w, Decides(review, reviewer, decision, reason, next, now), digest);
    PublishingDecision(w, review, reviewer, decision, reason, next, now);
    PublishedCompletes(w, AfterDecide(w, review, reviewer, decision, reason, next, now), review);
  }
}
