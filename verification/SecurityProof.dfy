/** What a "verified" label means in every run, whatever ran in between. */
module SecurityProof {
  import opened Wrappers
  import opened Uuids
  import opened SecurityBinding
  import opened SecCheck
  import opened Catalog
  import opened Runs

  // ---- The invariant ----

  predicate HoldsSettings(s: Session) { !s.Started? }

  predicate HoldsNonce(s: Session) { !s.Started? && !s.SettingsRead? }

  predicate HoldsInput(s: Session) { s.AppRead? || s.ReviewFetched? || s.BindingRead? }

  /** Every identifier and challenge in use was generated in this run. */
  ghost predicate IssuedOk(w: World) {
    && (forall a :: a in w.db.apps ==> a in w.issued && w.db.apps[a].nonce in w.issued)
    && (forall k :: k in w.sessions ==>
          w.sessions[k].app in w.issued && (HoldsNonce(w.sessions[k]) ==> w.sessions[k].nonce in w.issued))
    && (forall r :: r in w.log.provenance ==>
          w.log.provenance[r].app in w.issued && w.log.provenance[r].nonce in w.issued)
  }

  /** The connection in use, and whatever a save has read, was given to its revision. */
  ghost predicate LinksOk(w: World) {
    && Given(w.db.settings) in w.log.given
    && forall k :: k in w.saves ==> Given(w.saves[k]) in w.log.given
  }

  /** Of the apps there are, no other carries this challenge. */
  ghost predicate OnlyNonceOf(w: World, app: Uuid, nonce: Uuid) {
    forall b :: b in w.db.apps && w.db.apps[b].nonce == nonce ==> b == app
  }

  /** Unless an administrator has changed it since this version, an app that still carries this challenge still has
      this content. */
  ghost predicate StillHas(w: World, app: Uuid, nonce: Uuid, version: nat, input: AppInput) {
    && version <= Rewrites(w.log, app)
    && (app in w.db.apps && w.db.apps[app].nonce == nonce && version == Rewrites(w.log, app) ==>
          BindingInput(w.db.apps[app]) == input)
  }

  ghost predicate SessionOk(w: World, s: Session) {
    && (HoldsSettings(s) ==> Given(s.settings) in w.log.given)
    && (HoldsInput(s) ==> StillHas(w, s.app, s.nonce, s.version, s.input))
  }

  function VerdictOf(p: Provenance, digest: AppInput -> string): Verdict {
    Verify(Some(p.review), BindingText(p.app, p.nonce, p.input, digest), p.input.name, p.at)
  }

  /** A recorded comparison was one the service records. */
  ghost predicate ComparisonOk(r: string, p: Provenance, digest: AppInput -> string) {
    p.review.id == r && Recordable(VerdictOf(p, digest))
  }

  /** A stored check is its recorded comparison. */
  ghost predicate CheckOk(w: World, r: string)
    requires r in w.db.checks
  {
    r in w.log.provenance &&
    var check, p := w.db.checks[r], w.log.provenance[r];
    && check.capturedNonce == p.nonce && (check.settingsRevision, p.link) in w.log.given
    && check.remoteStatus == p.review.status && check.finalResult == p.review.finalResult
    && check.approvedAt == p.review.approvedAt
    && OnlyNonceOf(w, p.app, p.nonce) && StillHas(w, p.app, p.nonce, p.version, p.input)
  }

  ghost predicate AppOk(w: World, a: Uuid)
    requires a in w.db.apps
  {
    && OnlyNonceOf(w, a, w.db.apps[a].nonce)
    && (w.db.apps[a].reviewId.Some? ==> w.db.apps[a].reviewId.value in w.db.checks)
  }

  ghost predicate StateOk(w: World) {
    && IssuedOk(w) && LinksOk(w)
    && (forall k :: k in w.sessions ==> SessionOk(w, w.sessions[k]))
    && (forall r :: r in w.db.checks ==> CheckOk(w, r))
    && (forall a :: a in w.db.apps ==> AppOk(w, a))
  }

  ghost predicate Inv(w: World, digest: AppInput -> string) {
    && StateOk(w)
    && forall r :: r in w.log.provenance ==> ComparisonOk(r, w.log.provenance[r], digest)
  }

  // ---- Every step keeps it ----

  /** How a row may change under the invariant: it is new, its challenge was rotated, or challenge and
      attached review stay and a change of content is on record. */
  ghost predicate RowKept(w: World, w': World, a: Uuid)
    requires a in w'.db.apps
  {
    var after := w'.db.apps[a];
    || (a !in w.issued && after.nonce !in w.issued && after.reviewId.None?)
    || (a in w.db.apps && after.nonce !in w.issued && after.reviewId.None?)
    || (&& a in w.db.apps && after.nonce == w.db.apps[a].nonce && after.reviewId == w.db.apps[a].reviewId
        && (Rewrites(w.log, a) < Rewrites(w'.log, a) || BindingInput(after) == BindingInput(w.db.apps[a])))
  }

  ghost predicate OnlyRowsChange(w: World, w': World) {
    && w'.db.checks == w.db.checks && w'.db.settings == w.db.settings && w'.sessions == w.sessions
    && w'.saves == w.saves && w'.log == w.log.(rewrites := w'.log.rewrites)
    && (forall a :: Rewrites(w.log, a) <= Rewrites(w'.log, a))
    && w.issued <= w'.issued && w.db.apps.Keys <= w'.db.apps.Keys
    && (forall a :: a in w'.db.apps ==> a in w'.issued && w'.db.apps[a].nonce in w'.issued && RowKept(w, w', a))
    && NewNoncesDiffer(w, w')
  }

  ghost predicate NewNoncesDiffer(w: World, w': World) {
    forall a, b | a in w'.db.apps && b in w'.db.apps && w'.db.apps[a].nonce !in w.issued ::
      w'.db.apps[a].nonce == w'.db.apps[b].nonce ==> a == b
  }

  lemma StillHasKept(w: World, w': World, app: Uuid, nonce: Uuid, version: nat, input: AppInput)
    requires OnlyRowsChange(w, w') && app in w.issued && nonce in w.issued && StillHas(w, app, nonce, version, input)
    ensures StillHas(w', app, nonce, version, input) && (app in w'.db.apps <==> app in w.db.apps)
  {
    if app in w'.db.apps {
      assert RowKept(w, w', app);
    }
  }

  lemma OnlyNonceKept(w: World, w': World, app: Uuid, nonce: Uuid)
    requires OnlyRowsChange(w, w') && nonce in w.issued && OnlyNonceOf(w, app, nonce)
    ensures OnlyNonceOf(w', app, nonce)
  {
    forall b | b in w'.db.apps && w'.db.apps[b].nonce == nonce ensures b == app {
      assert RowKept(w, w', b);
    }
  }

  lemma RowChangesKeep(w: World, w': World)
    requires StateOk(w) && OnlyRowsChange(w, w')
    ensures StateOk(w')
  {
    hide StillHas, OnlyNonceOf, RowKept, Rewrites;
    forall k | k in w'.sessions ensures SessionOk(w', w'.sessions[k]) {
      var s := w.sessions[k];
      assert SessionOk(w, s);
      if HoldsInput(s) {
        StillHasKept(w, w', s.app, s.nonce, s.version, s.input);
      }
    }
    forall r | r in w'.db.checks ensures CheckOk(w', r) {
      assert CheckOk(w, r);
      var p := w.log.provenance[r];
      StillHasKept(w, w', p.app, p.nonce, p.version, p.input);
      OnlyNonceKept(w, w', p.app, p.nonce);
    }
    forall a | a in w'.db.apps ensures AppOk(w', a) {
      AppKept(w, w', a);
    }
  }

  lemma AppKept(w: World, w': World, a: Uuid)
    requires StateOk(w) && OnlyRowsChange(w, w') && a in w'.db.apps
    ensures AppOk(w', a)
  {
    assert RowKept(w, w', a);
    assert a in w.db.apps ==> AppOk(w, a);
    if a in w.db.apps && w'.db.apps[a].nonce == w.db.apps[a].nonce {
      OnlyNonceKept(w, w', a, w.db.apps[a].nonce);
    }
  }

  lemma CreateEffect(db: Db, id: Uuid, nonce: Uuid, input: Option<AppInput>, category: Option<Uuid>,
                     status: Option<AppStatus>, now: int)
    requires id !in db.apps
    ensures var after := CreateApp(db, id, nonce, input, category, status, now).1;
            || after == db
            || (&& id in after.apps && after == db.(apps := db.apps[id := after.apps[id]])
                && after.apps[id].nonce == nonce && after.apps[id].reviewId.None?)
  {
  }

  lemma CreatedRowsKept(w: World, w': World, id: Uuid, nonce: Uuid)
    requires IssuedOk(w) && id !in w.issued && nonce !in w.issued && w'.issued == w.issued + {id, nonce}
    requires w'.sessions == w.sessions && w'.saves == w.saves && w'.log == w.log
    requires || w'.db == w.db
             || (&& id in w'.db.apps && w'.db == w.db.(apps := w.db.apps[id := w'.db.apps[id]])
                 && w'.db.apps[id].nonce == nonce && w'.db.apps[id].reviewId.None?)
    ensures OnlyRowsChange(w, w')
  {
  }

  lemma CreateChangesRows(w: World, step: Step, digest: AppInput -> string)
    requires StateOk(w) && Enabled(w, step) && step.CreatesApp?
    ensures OnlyRowsChange(w, Next(w, step, digest))
  {
    CreateEffect(w.db, step.id, step.nonce, step.input, step.category, step.status, step.now);
    hide CreateApp, OnlyRowsChange, SessionOk, CheckOk, AppOk;
    CreatedRowsKept(w, Next(w, step, digest), step.id, step.nonce);
  }

  /** An accepted edit either writes the row it found or rotates the challenge. */
  lemma UpdateEffect(db: Db, id: Uuid, input: AppInput, category: Uuid, nonce: Uuid)
    requires ParsedAs(input.categoryId, Some(category)) && UpdateApp(db, id, Some(input), Some(category), nonce).0.Ok?
    ensures var after := UpdateApp(db, id, Some(input), Some(category), nonce).1;
            && id in db.apps && after == db.(apps := db.apps[id := after.apps[id]])
            && (if SecurityRelevantChange(db.apps[id], input)
                then after.apps[id].nonce == nonce && after.apps[id].reviewId.None?
                else after.apps[id] == db.apps[id])
  {
    if !SecurityRelevantChange(db.apps[id], input) {
      NoRelevantChangeKeepsRow(db.apps[id], input, Some(category));
    }
  }

  lemma UpdateChangesRows(w: World, step: Step, digest: AppInput -> string)
    requires StateOk(w) && Enabled(w, step) && step.UpdatesApp?
    ensures OnlyRowsChange(w, Next(w, step, digest))
  {
    var w' := AfterUpdate(w, step.id, step.input, step.category, step.nonce);
    if UpdateApp(w.db, step.id, step.input, step.category, step.nonce).0.Ok? {
      UpdateEffect(w.db, step.id, step.input.value, step.category.value, step.nonce);
    }
    UpdateRowsKept(w, w', step.id, step.nonce);
  }

  lemma UpdateRowsKept(w: World, w': World, id: Uuid, nonce: Uuid)
    requires IssuedOk(w) && nonce !in w.issued && w' == w.(db := w'.db, issued := w.issued + {nonce})
    requires || w'.db == w.db
             || (&& id in w.db.apps && id in w'.db.apps && w'.db == w.db.(apps := w.db.apps[id := w'.db.apps[id]])
                 && (|| w'.db.apps[id] == w.db.apps[id]
                     || (w'.db.apps[id].nonce == nonce && w'.db.apps[id].reviewId.None?)))
    ensures OnlyRowsChange(w, w')
  {
  }

  /** An administrator's accepted update keeps challenge and review, and a change of content is counted. */
  ghost predicate Rewritten(w: World, w': World, id: Uuid) {
    && id in w.db.apps && id in w'.db.apps && w'.db == w.db.(apps := w.db.apps[id := w'.db.apps[id]])
    && w'.db.apps[id].nonce == w.db.apps[id].nonce && w'.db.apps[id].reviewId == w.db.apps[id].reviewId
    && (if BindingInput(w'.db.apps[id]) == BindingInput(w.db.apps[id]) then w'.log == w.log
        else w'.log == w.log.(rewrites := w.log.rewrites[id := Rewrites(w.log, id) + 1]))
  }

  lemma AdminUpdateRewrites(w: World, step: Step, digest: AppInput -> string)
    requires Enabled(w, step) && step.AdminUpdatesApp?
    ensures var w' := Next(w, step, digest);
            && w'.sessions == w.sessions && w'.saves == w.saves && w'.issued == w.issued
            && ((w'.db == w.db && w'.log == w.log) || Rewritten(w, w', step.id))
  {
    hide SlugTaken;
  }

  lemma RewrittenRowsKept(w: World, w': World, id: Uuid)
    requires IssuedOk(w) && w'.sessions == w.sessions && w'.saves == w.saves && w'.issued == w.issued
    requires (w'.db == w.db && w'.log == w.log) || Rewritten(w, w', id)
    ensures OnlyRowsChange(w, w')
  {
  }

  lemma AdminUpdateChangesRows(w: World, step: Step, digest: AppInput -> string)
    requires StateOk(w) && Enabled(w, step) && step.AdminUpdatesApp?
    ensures OnlyRowsChange(w, Next(w, step, digest))
  {
    hide OnlyRowsChange, Rewritten, SessionOk, CheckOk, AppOk;
    AdminUpdateRewrites(w, step, digest);
    RewrittenRowsKept(w, Next(w, step, digest), step.id);
  }

  ghost predicate Deleted(w: World, w': World, id: Uuid) {
    && w'.sessions == w.sessions && w'.saves == w.saves && w'.issued == w.issued && w'.log == w.log
    && w'.db.settings == w.db.settings && w'.db.apps == w.db.apps - {id} && w'.db.checks == Orphaned(w.db.checks, id)
  }

  lemma DeletedCheckOk(w: World, w': World, id: Uuid, r: string)
    requires Deleted(w, w', id) && r in w.db.checks && CheckOk(w, r)
    ensures r in w'.db.checks && CheckOk(w', r)
  {
  }

  lemma DeletingKeeps(w: World, w': World, id: Uuid)
    requires StateOk(w) && Deleted(w, w', id)
    ensures StateOk(w')
  {
    hide CheckOk, Orphaned;
    forall r | r in w'.db.checks ensures CheckOk(w', r) {
      OrphanedKeys(w.db.checks, id);
      DeletedCheckOk(w, w', id, r);
    }
    forall a | a in w'.db.apps ensures AppOk(w', a) {
      assert AppOk(w, a);
      OrphanedKeys(w.db.checks, id);
    }
    forall k | k in w'.sessions ensures SessionOk(w', w'.sessions[k]) {
      assert SessionOk(w, w.sessions[k]);
    }
  }

  lemma OrphanedKeys(checks: map<string, Check>, id: Uuid)
    ensures Orphaned(checks, id).Keys == checks.Keys
    ensures forall r :: r in checks && checks[r].appId != Some(id) ==> Orphaned(checks, id)[r] == checks[r]
  {
  }

  lemma DeleteKeeps(w: World, step: Step, digest: AppInput -> string)
    requires StateOk(w) && Enabled(w, step) && step.DeletesApp?
    ensures StateOk(Next(w, step, digest))
  {
    hide StateOk;
    if step.id in w.db.apps {
      DeletingKeeps(w, Next(w, step, digest), step.id);
    }
  }

  /** Status changes, submissions, decisions and configuration write no column the security check reads. */
  ghost predicate OnlyStatusChanges(before: Db, after: Db) {
    && after.checks == before.checks && after.settings == before.settings && after.apps.Keys == before.apps.Keys
    && forall a :: a in before.apps ==> SameSecurity(before.apps[a], after.apps[a])
  }

  ghost predicate SameSecurity(a: App, b: App) {
    b == a.(status := b.status, publishedAt := b.publishedAt)
  }

  lemma SetStatusEffect(db: Db, id: Uuid, status: Option<AppStatus>, now: int)
    ensures OnlyStatusChanges(db, SetAppStatus(db, id, status, now).1)
  {
  }

  lemma StatusSetKeepsSecurity(apps: map<Uuid, App>, id: Uuid, status: AppStatus, now: int)
    ensures StatusSet(apps, id, status, now).Keys == apps.Keys
    ensures forall a :: a in apps ==> SameSecurity(apps[a], StatusSet(apps, id, status, now)[a])
  {
  }

  lemma SubmitEffect(db: Db, id: Uuid, submitter: Uuid, review: Uuid, now: int)
    ensures OnlyStatusChanges(db, SubmitApp(db, id, submitter, review, now).1)
  {
    hide Verified, CancelPending;
  }

  lemma DecideEffect(db: Db, review: Uuid, reviewer: Uuid, decision: Option<Decision>, reason: string, next: Uuid,
                     now: int)
    ensures OnlyStatusChanges(db, DecideReview(db, review, reviewer, decision, reason, next, now).1)
  {
    DecideTables(db, review, reviewer, decision, reason, next, now);
    if review in db.reviews {
      StatusSetKeepsSecurity(db.apps, db.reviews[review].appId, Rejected, now);
      StatusSetKeepsSecurity(db.apps, db.reviews[review].appId, Published, now);
    }
    hide DecideReview, StatusSet;
  }

  lemma DecideTables(db: Db, review: Uuid, reviewer: Uuid, decision: Option<Decision>, reason: string, next: Uuid,
                     now: int)
    ensures var after := DecideReview(db, review, reviewer, decision, reason, next, now).1;
            && after.checks == db.checks && after.settings == db.settings
            && (review !in db.reviews ==> after == db)
            && (review in db.reviews ==>
                  || after.apps == db.apps
                  || after.apps == StatusSet(db.apps, db.reviews[review].appId, Rejected, now)
                  || after.apps == StatusSet(db.apps, db.reviews[review].appId, Published, now))
  {
    hide StatusSet;
  }

  lemma StatusStepEffect(w: World, step: Step, digest: AppInput -> string)
    requires Enabled(w, step)
    requires step.SetsStatus? || step.Submits? || step.Decides? || step.Configures?
    ensures var w' := Next(w, step, digest);
            && OnlyStatusChanges(w.db, w'.db) && w'.sessions == w.sessions && w'.saves == w.saves && w'.log == w.log
            && w.issued <= w'.issued
  {
    match step
    case SetsStatus(id, status, now) => SetStatusEffect(w.db, id, status, now);
    case Submits(id, submitter, review, now) => SubmitEffect(w.db, id, submitter, review, now);
    case Decides(review, reviewer, decision, reason, next, now) =>
      DecideEffect(w.db, review, reviewer, decision, reason, next, now);
    case Configures(config) =>
  }

  lemma StatusStepChangesRows(w: World, step: Step, digest: AppInput -> string)
    requires StateOk(w) && Enabled(w, step)
    requires step.SetsStatus? || step.Submits? || step.Decides? || step.Configures?
    ensures OnlyRowsChange(w, Next(w, step, digest))
  {
    hide SessionOk, CheckOk, OnlyRowsChange, OnlyStatusChanges;
    StatusStepEffect(w, step, digest);
    StatusRowsKept(w, Next(w, step, digest));
  }

  lemma StatusRowsKept(w: World, w': World)
    requires IssuedOk(w) && OnlyStatusChanges(w.db, w'.db) && w'.sessions == w.sessions && w'.saves == w.saves
    requires w'.log == w.log && w.issued <= w'.issued
    ensures OnlyRowsChange(w, w')
  {
    forall a | a in w'.db.apps ensures a in w'.issued && w'.db.apps[a].nonce in w'.issued && RowKept(w, w', a) {
      assert SameSecurity(w.db.apps[a], w'.db.apps[a]);
    }
  }

  /** The transactions that write app rows and nothing else a label rests on. */
  predicate IsRowStep(step: Step) {
    || step.CreatesApp? || step.UpdatesApp? || step.AdminUpdatesApp?
    || step.SetsStatus? || step.Submits? || step.Decides? || step.Configures?
  }

  lemma RowStepChangesRows(w: World, step: Step, digest: AppInput -> string)
    requires StateOk(w) && Enabled(w, step) && IsRowStep(step)
    ensures OnlyRowsChange(w, Next(w, step, digest))
  {
    hide StateOk, Next, OnlyRowsChange;
    if step.CreatesApp? {
      CreateChangesRows(w, step, digest);
    } else if step.UpdatesApp? {
      UpdateChangesRows(w, step, digest);
    } else if step.AdminUpdatesApp? {
      AdminUpdateChangesRows(w, step, digest);
    } else {
      StatusStepChangesRows(w, step, digest);
    }
  }

  predicate IsSave(step: Step) {
    step.ReadsConnection? || step.Connects?
  }

  /** A save took a step: at most the settings were written, and their connection was given to their revision. */
  ghost predicate Relinked(w: World, w': World) {
    && w'.db == w.db.(settings := w'.db.settings) && w'.sessions == w.sessions && w'.issued == w.issued
    && w'.log == w.log.(given := w'.log.given) && w.log.given <= w'.log.given && LinksOk(w')
  }

  lemma SaveRelinks(w: World, step: Step, digest: AppInput -> string)
    requires LinksOk(w) && Enabled(w, step) && IsSave(step)
    ensures Relinked(w, Next(w, step, digest))
  {
    hide SavedSettings;
  }

  lemma RelinkingKeeps(w: World, w': World)
    requires StateOk(w) && Relinked(w, w')
    ensures StateOk(w')
  {
    forall k | k in w'.sessions ensures SessionOk(w', w'.sessions[k]) {
      assert SessionOk(w, w.sessions[k]);
    }
    forall r | r in w'.db.checks ensures CheckOk(w', r) {
      assert CheckOk(w, r);
    }
    forall a | a in w'.db.apps ensures AppOk(w', a) {
      assert AppOk(w, a);
    }
  }

  lemma SaveKeeps(w: World, step: Step, digest: AppInput -> string)
    requires StateOk(w) && Enabled(w, step) && IsSave(step)
    ensures StateOk(Next(w, step, digest))
  {
    assert LinksOk(w);
    hide StateOk, Relinked, LinksOk;
    SaveRelinks(w, step, digest);
    RelinkingKeeps(w, Next(w, step, digest));
  }

  /** The steps of a verification request that write nothing. */
  predicate IsRead(step: Step) {
    || step.Begins? || step.ReadsSettings? || step.ReadsChallenge? || step.ReadsApp? || step.Fetches?
    || step.ReadsBinding? || step.Abandons?
  }

  lemma ReadsLeaveTables(w: World, step: Step, digest: AppInput -> string)
    requires Enabled(w, step) && IsRead(step)
    ensures Next(w, step, digest).db == w.db
  {
    hide ReadSettings, ReadChallenge, ReadApp, ReadBinding;
  }

  /** One request went a step further, or gave up; nothing else changed. */
  ghost predicate Advances(w: World, w': World, k: nat) {
    && w'.db == w.db && w'.log == w.log && w'.issued == w.issued && w'.saves == w.saves
    && (forall j :: j in w'.sessions && j != k ==> j in w.sessions && w'.sessions[j] == w.sessions[j])
    && (k in w'.sessions ==> SessionFits(w, w'.sessions[k]))
  }

  ghost predicate SessionFits(w: World, s: Session) {
    SessionOk(w, s) && s.app in w.issued && (HoldsNonce(s) ==> s.nonce in w.issued)
  }

  lemma SettingsReadFit(w: World, s: Session)
    requires StateOk(w) && SessionFits(w, s) && s.Started?
    ensures SessionFits(w, ReadSettings(w.db, s))
  {
  }

  lemma ChallengeReadFits(w: World, s: Session)
    requires StateOk(w) && SessionFits(w, s) && s.SettingsRead?
    ensures ReadChallenge(w.db, s).Some? ==> SessionFits(w, ReadChallenge(w.db, s).value)
  {
  }

  lemma AppReadFits(w: World, s: Session)
    requires StateOk(w) && SessionFits(w, s) && s.ChallengeRead?
    ensures var next := ReadApp(w.db, s, Rewrites(w.log, s.app));
            next.Some? ==> SessionFits(w, next.value)
  {
  }

  lemma ProgressAdvances(w: World, k: nat, next: Option<Session>)
    requires next.Some? ==> SessionFits(w, next.value)
    ensures Advances(w, Progress(w, k, next), k)
  {
  }

  lemma BeginningAdvances(w: World, k: nat, id: Uuid, requested: string)
    requires StateOk(w) && id in w.db.apps
    ensures Advances(w, w.(sessions := w.sessions[k := Started(id, requested)]), k)
  {
  }

  lemma FetchFits(w: World, s: Session, answer: Review)
    requires SessionFits(w, s) && s.AppRead?
    ensures SessionFits(w, ReviewFetched(s.app, s.settings, s.nonce, s.input, s.version, answer))
  {
  }

  lemma BindingReadFits(w: World, s: Session)
    requires SessionFits(w, s) && s.ReviewFetched?
    ensures SessionFits(w, ReadBinding(w.db, s))
  {
  }

  /** The session a reading step leaves behind. */
  function Read(w: World, step: Step): Option<Session>
    requires IsRead(step) && step.session in w.sessions
    requires step.ReadsSettings? ==> w.sessions[step.session].Started?
    requires step.ReadsChallenge? ==> w.sessions[step.session].SettingsRead?
    requires step.ReadsApp? ==> w.sessions[step.session].ChallengeRead?
    requires step.Fetches? ==> w.sessions[step.session].AppRead?
    requires step.ReadsBinding? ==> w.sessions[step.session].ReviewFetched?
  {
    var s := w.sessions[step.session];
    if step.ReadsSettings? then Some(ReadSettings(w.db, s))
    else if step.ReadsChallenge? then ReadChallenge(w.db, s)
    else if step.ReadsApp? then ReadApp(w.db, s, Rewrites(w.log, s.app))
    else if step.Fetches? then Some(ReviewFetched(s.app, s.settings, s.nonce, s.input, s.version, step.answer))
    else if step.ReadsBinding? then Some(ReadBinding(w.db, s))
    else None
  }

  lemma ReadFits(w: World, step: Step)
    requires StateOk(w) && Enabled(w, step) && IsRead(step) && !step.Begins? && step.session in w.sessions
    ensures Read(w, step).Some? ==> SessionFits(w, Read(w, step).value)
  {
    var s := w.sessions[step.session];
    assert SessionFits(w, s);
    if step.ReadsSettings? {
      SettingsReadFit(w, s);
    } else if step.ReadsChallenge? {
      ChallengeReadFits(w, s);
    } else if step.ReadsApp? {
      AppReadFits(w, s);
    } else if step.Fetches? {
      FetchFits(w, s, step.answer);
    } else if step.ReadsBinding? {
      BindingReadFits(w, s);
    }
  }

  lemma ReadProgresses(w: World, step: Step, digest: AppInput -> string)
    requires Enabled(w, step) && IsRead(step) && !step.Begins? && step.session in w.sessions
    ensures Next(w, step, digest) == Progress(w, step.session, Read(w, step))
  {
    hide ReadSettings, ReadChallenge, ReadApp, ReadBinding, Progress, Rewrites;
  }

  lemma BeginsOrEnds(w: World, step: Step, digest: AppInput -> string)
    requires Enabled(w, step) && IsRead(step) && (step.Begins? || step.session !in w.sessions)
    ensures Next(w, step, digest)
            == if step.Begins? then w.(sessions := w.sessions[step.session := Started(step.id, step.requested)])
               else Progress(w, step.session, None)
  {
    hide Progress;
  }

  lemma ReadAdvances(w: World, step: Step, digest: AppInput -> string)
    requires StateOk(w) && Enabled(w, step) && IsRead(step)
    ensures Advances(w, Next(w, step, digest), step.session)
  {
    hide StateOk, SessionFits, Advances, Next, Read, Progress;
    if step.Begins? || step.session !in w.sessions {
      BeginsOrEnds(w, step, digest);
      if step.Begins? {
        BeginningAdvances(w, step.session, step.id, step.requested);
      } else {
        ProgressAdvances(w, step.session, None);
      }
    } else {
      ReadFits(w, step);
      ReadProgresses(w, step, digest);
      ProgressAdvances(w, step.session, Read(w, step));
    }
  }

  lemma AdvanceKeeps(w: World, w': World, k: nat)
    requires StateOk(w) && Advances(w, w', k)
    ensures StateOk(w')
  {
    forall j | j in w'.sessions ensures SessionOk(w', w'.sessions[j]) && SessionFits(w, w'.sessions[j]) {
      assert j != k ==> SessionOk(w, w.sessions[j]);
    }
    forall r | r in w'.db.checks ensures CheckOk(w', r) {
      assert CheckOk(w, r);
    }
    forall a | a in w'.db.apps ensures AppOk(w', a) {
      assert AppOk(w, a);
    }
  }

  lemma ReadKeeps(w: World, step: Step, digest: AppInput -> string)
    requires StateOk(w) && Enabled(w, step) && IsRead(step)
    ensures StateOk(Next(w, step, digest))
  {
    hide StateOk, Advances;
    ReadAdvances(w, step, digest);
    AdvanceKeeps(w, Next(w, step, digest), step.session);
  }

  /** What a recording request writes: its comparison, the check row under the app the row names already, if there is
      one, and the app's pointer to it. */
  ghost predicate Recorded(w: World, w': World, s: Session, now: int)
    requires s.BindingRead?
  {
    var r := s.review.id;
    && s.app in w.db.apps && w.db.apps[s.app].nonce == s.nonce && w.db.settings.revision == s.settings.revision
    && (s.bound.Some? ==> s.bound.value == Some(s.app))
    && w'.db == w.db.(checks := w.db.checks[r := Check(Named(w.db, s), s.nonce, s.settings.revision, s.review.number,
                                                       s.review.status, s.review.finalResult, s.review.approvedAt,
                                                       now)],
                      apps := w.db.apps[s.app := w.db.apps[s.app].(reviewId := Some(r))])
    && w'.log == w.log.(provenance := w.log.provenance[r := Provenance(s.app, s.nonce, s.input, s.version,
                                                                       LinkOf(s.settings), s.review, now)])
  }

  function Named(db: Db, s: Session): Option<Uuid>
    requires s.BindingRead?
  {
    if s.review.id in db.checks then db.checks[s.review.id].appId else Some(s.app)
  }

  lemma ConcludeEffect(w: World, k: nat, now: int, digest: AppInput -> string)
    requires k in w.sessions && w.sessions[k].BindingRead?
    ensures var w', s := AfterConclude(w, k, now, digest), w.sessions[k];
            && w'.sessions == w.sessions - {k} && w'.saves == w.saves && w'.issued == w.issued && w'.flow == w.flow
            && ((w'.db == w.db && w'.log == w.log)
                || (Recorded(w, w', s, now) && Recordable(Judge(s, now, digest))))
  {
  }

  lemma ConcludeKeeps(w: World, k: nat, now: int, digest: AppInput -> string)
    requires StateOk(w) && k in w.sessions && w.sessions[k].BindingRead?
    ensures StateOk(AfterConclude(w, k, now, digest))
  {
    var w', s := AfterConclude(w, k, now, digest), w.sessions[k];
    ConcludeEffect(w, k, now, digest);
    if Recorded(w, w', s, now) {
      RecordedKeeps(w, k, w', now);
    } else {
      forall j | j in w'.sessions ensures SessionOk(w', w'.sessions[j]) {
        assert SessionOk(w, w.sessions[j]);
      }
      forall r | r in w'.db.checks ensures CheckOk(w', r) {
        assert CheckOk(w, r);
      }
      forall a | a in w'.db.apps ensures AppOk(w', a) {
        assert AppOk(w, a);
      }
    }
  }

  lemma RecordedStillHas(w: World, w': World, s: Session, now: int, app: Uuid, nonce: Uuid, version: nat,
                         input: AppInput)
    requires s.BindingRead? && Recorded(w, w', s, now) && StillHas(w, app, nonce, version, input)
    ensures StillHas(w', app, nonce, version, input)
  {
  }

  lemma RecordedOnlyNonce(w: World, w': World, s: Session, now: int, app: Uuid, nonce: Uuid)
    requires s.BindingRead? && Recorded(w, w', s, now) && OnlyNonceOf(w, app, nonce)
    ensures OnlyNonceOf(w', app, nonce)
  {
    assert forall b :: b in w'.db.apps ==> b in w.db.apps && w'.db.apps[b].nonce == w.db.apps[b].nonce;
  }

  lemma RecordedSessions(w: World, w': World, k: nat, now: int)
    requires StateOk(w) && k in w.sessions && w.sessions[k].BindingRead?
    requires Recorded(w, w', w.sessions[k], now) && w'.sessions == w.sessions - {k}
    ensures forall j :: j in w'.sessions ==> SessionOk(w', w'.sessions[j])
  {
    forall j | j in w'.sessions ensures SessionOk(w', w'.sessions[j]) {
      var t := w.sessions[j];
      assert SessionOk(w, t);
      if HoldsInput(t) {
        RecordedStillHas(w, w', w.sessions[k], now, t.app, t.nonce, t.version, t.input);
      }
    }
  }

  lemma RecordedChecks(w: World, w': World, s: Session, now: int)
    requires StateOk(w) && s.BindingRead? && SessionOk(w, s) && Recorded(w, w', s, now)
    ensures forall r :: r in w'.db.checks ==> CheckOk(w', r)
  {
    hide StillHas, OnlyNonceOf;
    assert AppOk(w, s.app);
    forall r | r in w'.db.checks ensures CheckOk(w', r) {
      if r == s.review.id {
        RecordedStillHas(w, w', s, now, s.app, s.nonce, s.version, s.input);
        RecordedOnlyNonce(w, w', s, now, s.app, s.nonce);
      } else {
        assert CheckOk(w, r);
        var p := w.log.provenance[r];
        RecordedStillHas(w, w', s, now, p.app, p.nonce, p.version, p.input);
        RecordedOnlyNonce(w, w', s, now, p.app, p.nonce);
      }
    }
  }

  lemma RecordedApps(w: World, w': World, s: Session, now: int)
    requires StateOk(w) && s.BindingRead? && Recorded(w, w', s, now)
    ensures forall a :: a in w'.db.apps ==> AppOk(w', a)
  {
    hide OnlyNonceOf;
    forall a | a in w'.db.apps ensures AppOk(w', a) {
      assert AppOk(w, a);
      RecordedOnlyNonce(w, w', s, now, a, w.db.apps[a].nonce);
    }
  }

  lemma RecordedIssued(w: World, w': World, k: nat, now: int)
    requires StateOk(w) && k in w.sessions && w.sessions[k].BindingRead?
    requires Recorded(w, w', w.sessions[k], now) && w'.sessions == w.sessions - {k} && w'.saves == w.saves
    requires w'.issued == w.issued
    ensures IssuedOk(w') && LinksOk(w')
  {
    hide SessionOk, CheckOk, AppOk;
  }

  lemma RecordedKeeps(w: World, k: nat, w': World, now: int)
    requires StateOk(w) && k in w.sessions && w.sessions[k].BindingRead?
    requires Recorded(w, w', w.sessions[k], now)
    requires w'.sessions == w.sessions - {k} && w'.saves == w.saves && w'.issued == w.issued
    ensures StateOk(w')
  {
    assert SessionOk(w, w.sessions[k]);
    hide SessionOk, CheckOk, AppOk, IssuedOk, LinksOk, Recorded;
    RecordedIssued(w, w', k, now);
    RecordedSessions(w, w', k, now);
    RecordedChecks(w, w', w.sessions[k], now);
    RecordedApps(w, w', w.sessions[k], now);
  }

  lemma OnlyConcludingRecords(w: World, step: Step, digest: AppInput -> string)
    requires Enabled(w, step) && !step.Concludes?
    ensures Next(w, step, digest).log.provenance == w.log.provenance
  {
    hide UpdateApp, AdminUpdateApp, SetAppStatus, SubmitApp, DecideReview, AfterConclude, CreateApp, ReadSettings,
         ReadChallenge, ReadApp, ReadBinding, SavedSettings, UpdateWorkflowConfig;
  }

  lemma ConcludingKeepsComparisons(w: World, k: nat, now: int, digest: AppInput -> string)
    requires k in w.sessions && w.sessions[k].BindingRead?
    requires forall r :: r in w.log.provenance ==> ComparisonOk(r, w.log.provenance[r], digest)
    ensures var after := AfterConclude(w, k, now, digest).log.provenance;
            forall r :: r in after ==> ComparisonOk(r, after[r], digest)
  {
    ConcludeEffect(w, k, now, digest);
  }

  lemma ComparisonsKept(w: World, step: Step, digest: AppInput -> string)
    requires Inv(w, digest) && Enabled(w, step)
    ensures var w' := Next(w, step, digest);
            forall r :: r in w'.log.provenance ==> ComparisonOk(r, w'.log.provenance[r], digest)
  {
    hide ComparisonOk, StateOk, AfterConclude, AfterUpdate, AfterAdminUpdate, AfterSetStatus, AfterSubmit, AfterDecide;
    if step.Concludes? {
      ConcludingKeepsComparisons(w, step.session, step.now, digest);
    } else {
      OnlyConcludingRecords(w, step, digest);
    }
  }

  lemma StateKept(w: World, step: Step, digest: AppInput -> string)
    requires StateOk(w) && Enabled(w, step)
    ensures StateOk(Next(w, step, digest))
  {
    hide StateOk, OnlyRowsChange, AfterConclude;
    if IsRowStep(step) {
      RowStepChangesRows(w, step, digest);
      RowChangesKeep(w, Next(w, step, digest));
    } else if step.DeletesApp? {
      DeleteKeeps(w, step, digest);
    } else if IsSave(step) {
      SaveKeeps(w, step, digest);
    } else if step.Concludes? {
      ConcludeKeeps(w, step.session, step.now, digest);
    } else {
      ReadKeeps(w, step, digest);
    }
  }

  lemma StepKeeps(w: World, step: Step, digest: AppInput -> string)
    requires Inv(w, digest) && Enabled(w, step)
    ensures Inv(Next(w, step, digest), digest)
  {
    hide StateOk, ComparisonOk, Next;
    ComparisonsKept(w, step, digest);
    StateKept(w, step, digest);
  }

  lemma {:induction false} RunKeeps(w: World, steps: seq<Step>, end: World, digest: AppInput -> string)
    requires Inv(w, digest) && Reaches(w, steps, end, digest)
    ensures Inv(end, digest)
    decreases |steps|
  {
    if steps != [] {
      StepKeeps(w, steps[0], digest);
      RunKeeps(Next(w, steps[0], digest), steps[1..], end, digest);
    }
  }

  lemma {:induction false} RunsFromTheStart(w0: World, steps: seq<Step>, w: World, digest: AppInput -> string)
    requires Initial(w0) && Reaches(w0, steps, w, digest)
    ensures Inv(w, digest)
  {
    RunKeeps(w0, steps, w, digest);
  }

  // ---- What it gives ----

  /** The comparison behind the review attached to an app. */
  ghost predicate MatchedBy(w: World, a: Uuid, p: Provenance, digest: AppInput -> string)
    requires a in w.db.apps
  {
    && p.app == a && p.nonce == w.db.apps[a].nonce && (w.db.settings.revision, p.link) in w.log.given
    && w.db.apps[a].reviewId == Some(p.review.id)
    && BindingMatches(p.review.description, BindingText(a, p.nonce, p.input, digest))
    && p.review.serviceName == p.input.name
    && p.review.status == StatusApproved && p.review.finalResult == ResultApproved && p.review.approvedAt.Some?
  }

  ghost predicate HasProvenance(w: World, a: Uuid)
    requires a in w.db.apps
  {
    w.db.apps[a].reviewId.Some? && w.db.apps[a].reviewId.value in w.log.provenance
  }

  function ProvenanceOf(w: World, a: Uuid): Provenance
    requires a in w.db.apps && HasProvenance(w, a)
  {
    w.log.provenance[w.db.apps[a].reviewId.value]
  }

  /** The content compared is the content the app has now. */
  ghost predicate ContentMatched(w: World, a: Uuid)
    requires a in w.db.apps && HasProvenance(w, a)
  {
    ProvenanceOf(w, a).input == BindingInput(w.db.apps[a])
  }

  /** Each revision has stood for one connection. */
  ghost predicate OneConnection(given: set<(nat, Link)>) {
    forall x, y :: x in given && y in given && x.0 == y.0 ==> x == y
  }

  /** In every run, in whatever order steps of different requests and saves fall: an app that reads as verified has the
      identifier and challenge its approved review was matched against, over a connection its revision stood for, which
      is the one in use now if no revision has stood for two, and, unless an administrator has changed it since that
      request read it, exactly the content. */
  lemma {:induction false} VerifiedMeansMatched(w0: World, steps: seq<Step>, w: World, a: Uuid,
                                                digest: AppInput -> string)
    requires Initial(w0) && Reaches(w0, steps, w, digest)
    requires a in w.db.apps && Verified(w.db, a)
    ensures HasProvenance(w, a) && MatchedBy(w, a, ProvenanceOf(w, a), digest)
    ensures OneConnection(w.log.given) ==> ProvenanceOf(w, a).link == LinkOf(w.db.settings)
    ensures Rewrites(w.log, a) == ProvenanceOf(w, a).version ==> ContentMatched(w, a)
  {
    RunsFromTheStart(w0, steps, w, digest);
    VerifiedMatched(w, a, digest);
  }

  lemma VerifiedMatched(w: World, a: Uuid, digest: AppInput -> string)
    requires Inv(w, digest) && a in w.db.apps && Verified(w.db, a)
    ensures HasProvenance(w, a) && MatchedBy(w, a, ProvenanceOf(w, a), digest)
    ensures OneConnection(w.log.given) ==> ProvenanceOf(w, a).link == LinkOf(w.db.settings)
    ensures Rewrites(w.log, a) == ProvenanceOf(w, a).version ==> ContentMatched(w, a)
  {
    hide Verify, BindingMatches, BindingText;
    var r := w.db.apps[a].reviewId.value;
    assert CheckOk(w, r);
    var p := w.log.provenance[r];
    assert ComparisonOk(r, p, digest);
    RecordableMeansBound(p.review, BindingText(p.app, p.nonce, p.input, digest), p.input.name, p.at);
    assert Given(w.db.settings) in w.log.given;
  }

  lemma AdminUpdateEffect(db: Db, id: Uuid, input: Option<AppInput>, category: Option<Uuid>, status: Option<AppStatus>,
                          now: int)
    requires AdminUpdateApp(db, id, input, category, status, now).0.Ok?
    ensures input.Some? && category.Some? && id in db.apps
    ensures var after := AdminUpdateApp(db, id, input, category, status, now).1;
            && id in after.apps && after == db.(apps := after.apps)
            && BindingInput(after.apps[id]) == BindingInput(WithInput(db.apps[id], input.value, category.value))
            && after.apps[id].nonce == db.apps[id].nonce && after.apps[id].reviewId == db.apps[id].reviewId
  {
  }

  /** An administrator's rewrite keeps a truthful label on; the label still tells the truth exactly when the
      rewrite changed nothing a reviewer was shown. */
  lemma AdminUpdateKeepsLabelTruthfulExactly(w: World, id: Uuid, input: AppInput, category: Uuid, status: AppStatus,
                                             now: int)
    requires AdminUpdateApp(w.db, id, Some(input), Some(category), Some(status), now).0.Ok?
    requires id in w.db.apps && Verified(w.db, id) && HasProvenance(w, id) && ContentMatched(w, id)
    ensures var w' := AfterAdminUpdate(w, id, Some(input), Some(category), Some(status), now);
            && id in w'.db.apps && Verified(w'.db, id) && HasProvenance(w', id)
            && (ContentMatched(w', id)
                <==> category == w.db.apps[id].categoryId
                     && !SecurityRelevantChange(w.db.apps[id], input.(categoryId := FormatUuid(category))))
  {
    AdminUpdateEffect(w.db, id, Some(input), Some(category), Some(status), now);
    EditKeepsContentExactly(w.db.apps[id], input, category);
    LabelStays(w, AfterAdminUpdate(w, id, Some(input), Some(category), Some(status), now), id);
  }

  lemma LabelStays(w: World, w': World, id: Uuid)
    requires id in w.db.apps && id in w'.db.apps && Verified(w.db, id) && HasProvenance(w, id)
    requires w'.db == w.db.(apps := w'.db.apps) && w'.log.provenance == w.log.provenance
    requires w'.db.apps[id].nonce == w.db.apps[id].nonce && w'.db.apps[id].reviewId == w.db.apps[id].reviewId
    ensures Verified(w'.db, id) && HasProvenance(w', id) && ProvenanceOf(w', id) == ProvenanceOf(w, id)
  {
  }

  /** After an owner's accepted edit the label is on exactly when it was on and the change is not a relevant one. */
  lemma OwnerEditDropsLabelExactly(db: Db, id: Uuid, input: AppInput, category: Uuid, nonce: Uuid)
    requires ParsedAs(input.categoryId, Some(category))
    requires UpdateApp(db, id, Some(input), Some(category), nonce).0.Ok?
    ensures var after := UpdateApp(db, id, Some(input), Some(category), nonce).1;
            && id in db.apps && id in after.apps
            && (Verified(after, id) <==> Verified(db, id) && !SecurityRelevantChange(db.apps[id], input))
  {
    UpdateEffect(db, id, input, category, nonce);
  }

  /** A change of connection takes the label off every app that had it; any other settings change off none. */
  lemma ReconnectingDropsEveryLabel(db: Db, a: Uuid, enabled: bool, baseUrl: string, timeoutSeconds: int,
                                    newKey: Option<string>)
    requires a in db.apps && Verified(db, a)
    ensures var after := UpdateSecuritySettings(db, enabled, baseUrl, timeoutSeconds, newKey).1;
            a in after.apps && (Verified(after, a) <==> LinkOf(after.settings) == LinkOf(db.settings))
  {
  }

  /** A finished request that was stored leaves the app verified exactly after an approval or a review refused
      only because items are still open. */
  lemma StoredVerdictVerifiesExactly(db: Db, s: Session, now: int, digest: AppInput -> string)
    requires s.BindingRead?
    ensures var (done, after) := Conclude(db, s, now, digest);
            done.Attempted? && done.reply.Ok? ==>
              s.app in after.apps && (Verified(after, s.app) <==> done.verdict in {Approves, Refuses(Incomplete)})
  {
    if Recordable(Judge(s, now, digest)) {
      RecordableMeansBound(s.review, BindingText(s.app, s.nonce, s.input, digest), s.input.name, now);
    }
  }

  // ---- The gate ----

  ghost predicate Open(w: World, a: Uuid) {
    a in w.db.apps && OpensToPublic(w.db.apps[a].status)
  }

  /** The app has another status than before, and it is one that shows it to others. */
  ghost predicate OpenedIn(before: Db, after: Db, a: Uuid) {
    && a in after.apps && OpensToPublic(after.apps[a].status)
    && (a in before.apps ==> before.apps[a].status != after.apps[a].status)
  }

  lemma GatedPathsOpenOnlyCleared(db: Db, id: Uuid, status: Option<AppStatus>, submitter: Uuid, review: Uuid, now: int,
                                  a: Uuid)
    requires db.settings.enabled
    ensures OpenedIn(db, SetAppStatus(db, id, status, now).1, a) ==> a in db.apps && Verified(db, a)
    ensures OpenedIn(db, SubmitApp(db, id, submitter, review, now).1, a) ==> a in db.apps && Verified(db, a)
  {
  }

  lemma UpdateOpensNothing(db: Db, id: Uuid, input: Option<AppInput>, category: Option<Uuid>, nonce: Uuid, a: Uuid)
    ensures !OpenedIn(db, UpdateApp(db, id, input, category, nonce).1, a)
  {
    hide SecurityRelevantChange, SlugTaken;
  }

  lemma SaveLeavesApps(w: World, step: Step, digest: AppInput -> string)
    requires Enabled(w, step) && IsSave(step)
    ensures Next(w, step, digest).db == w.db.(settings := Next(w, step, digest).db.settings)
  {
    hide SavedSettings;
  }

  /** Neither column of the gate nor the status is written. */
  lemma OtherPathsOpenNothing(w: World, step: Step, a: Uuid, digest: AppInput -> string)
    requires Enabled(w, step)
    requires step.UpdatesApp? || step.DeletesApp? || step.Configures? || IsSave(step) || IsRead(step)
    ensures !OpenedIn(w.db, Next(w, step, digest).db, a)
  {
    hide UpdateApp, AfterConnect, ReadSettings, ReadChallenge, ReadApp, ReadBinding;
    if step.UpdatesApp? {
      UpdateOpensNothing(w.db, step.id, step.input, step.category, step.nonce, a);
    } else if IsSave(step) {
      SaveLeavesApps(w, step, digest);
    } else if IsRead(step) {
      ReadsLeaveTables(w, step, digest);
    }
  }

  lemma RecordingOpensNothing(w: World, k: nat, now: int, a: Uuid, digest: AppInput -> string)
    requires k in w.sessions && w.sessions[k].BindingRead?
    ensures !OpenedIn(w.db, AfterConclude(w, k, now, digest).db, a)
  {
    ConcludeEffect(w, k, now, digest);
  }

  ghost predicate Uncleared(db: Db, a: Uuid) {
    a in db.apps ==> !Verified(db, a)
  }

  /** A decision opens an uncleared app exactly when it is an approval that publishes it. */
  lemma DecisionOpensExactly(db: Db, review: Uuid, reviewer: Uuid, decision: Option<Decision>, reason: string,
                             next: Uuid, now: int, a: Uuid)
    ensures OpenedIn(db, DecideReview(db, review, reviewer, decision, reason, next, now).1, a)
            <==> DecisionPublishes(db, review, reviewer, decision) && db.reviews[review].appId == a
                 && a in db.apps && db.apps[a].status != Published
  {
  }

  /** An administrator's update opens an app exactly when it is accepted with another status that is an open one. */
  lemma AdminUpdateOpensExactly(db: Db, id: Uuid, input: Option<AppInput>, category: Option<Uuid>,
                                status: Option<AppStatus>, now: int, a: Uuid)
    ensures OpenedIn(db, AdminUpdateApp(db, id, input, category, status, now).1, a)
            <==> id == a && a in db.apps && input.Some? && category.Some? && status.Some?
                 && !SlugTaken(db, input.value.slug, a) && OpensToPublic(status.value)
                 && status.value != db.apps[a].status
  {
  }

  /** A creation opens the new app exactly when it is accepted with an open status. */
  lemma CreationOpensExactly(db: Db, id: Uuid, nonce: Uuid, input: Option<AppInput>, category: Option<Uuid>,
                             status: Option<AppStatus>, now: int, a: Uuid)
    requires id !in db.apps
    ensures OpenedIn(db, CreateApp(db, id, nonce, input, category, status, now).1, a)
            <==> id == a && input.Some? && category.Some? && status.Some?
                 && !SlugTaken(db, input.value.slug, a) && OpensToPublic(status.value)
  {
  }

  /** The steps, with their guards, that bring an uncleared app into the queue or the catalog. */
  ghost predicate BypassesGate(db: Db, step: Step, a: Uuid) {
    match step
    case Decides(review, reviewer, decision, _, _, _) =>
      && DecisionPublishes(db, review, reviewer, decision) && db.reviews[review].appId == a
      && a in db.apps && db.apps[a].status != Published && !Verified(db, a)
    case AdminUpdatesApp(id, input, category, status, _) =>
      && id == a && a in db.apps && input.Some? && category.Some? && status.Some? && !SlugTaken(db, input.value.slug, a)
      && OpensToPublic(status.value) && status.value != db.apps[a].status && !Verified(db, a)
    case CreatesApp(id, _, input, category, status, _) =>
      && id == a && input.Some? && category.Some? && status.Some? && !SlugTaken(db, input.value.slug, a)
      && OpensToPublic(status.value)
    case _ => false
  }

  lemma UngatedOpenExactly(w: World, step: Step, a: Uuid, digest: AppInput -> string)
    requires IssuedOk(w) && Enabled(w, step) && (step.CreatesApp? || step.AdminUpdatesApp? || step.Decides?)
    ensures OpenedIn(w.db, Next(w, step, digest).db, a) && Uncleared(w.db, a) <==> BypassesGate(w.db, step, a)
  {
    match step
    case CreatesApp(id, nonce, input, category, status, now) =>
      CreationOpensExactly(w.db, id, nonce, input, category, status, now, a);
    case AdminUpdatesApp(id, input, category, status, now) =>
      AdminUpdateOpensExactly(w.db, id, input, category, status, now, a);
    case Decides(review, reviewer, decision, reason, next, now) =>
      DecisionOpensExactly(w.db, review, reviewer, decision, reason, next, now, a);
  }

  lemma GatedOpenOnlyCleared(w: World, step: Step, a: Uuid, digest: AppInput -> string)
    requires Enabled(w, step) && w.db.settings.enabled && !step.CreatesApp? && !step.AdminUpdatesApp? && !step.Decides?
    ensures OpenedIn(w.db, Next(w, step, digest).db, a) ==> !Uncleared(w.db, a)
  {
    if step.SetsStatus? {
      GatedPathsOpenOnlyCleared(w.db, step.id, step.status, 0, 0, step.now, a);
    } else if step.Submits? {
      GatedPathsOpenOnlyCleared(w.db, step.id, None, step.submitter, step.review, step.now, a);
    } else if step.Concludes? {
      RecordingOpensNothing(w, step.session, step.now, a, digest);
    } else {
      OtherPathsOpenNothing(w, step, a, digest);
    }
  }

  /** In every run with the gate on, a step brings an app that is not verified into the queue or the catalog exactly
      when it is a decision, an administrator's update or a creation that meets the guards above. */
  lemma {:induction false} UnclearedOpensExactly(w0: World, steps: seq<Step>, w: World, step: Step, a: Uuid,
                                                 digest: AppInput -> string)
    requires Initial(w0) && Reaches(w0, steps, w, digest) && Enabled(w, step) && w.db.settings.enabled
    ensures OpenedIn(w.db, Next(w, step, digest).db, a) && Uncleared(w.db, a) <==> BypassesGate(w.db, step, a)
  {
    RunsFromTheStart(w0, steps, w, digest);
    if step.CreatesApp? || step.AdminUpdatesApp? || step.Decides? {
      UngatedOpenExactly(w, step, a, digest);
    } else {
      GatedOpenOnlyCleared(w, step, a, digest);
    }
  }

  /** A submission that passes the gate is of the content the approved review was matched against. */
  lemma {:induction false} SubmissionIsOfReviewedContent(
      w0: World, steps: seq<Step>, w: World, step: Step, digest: AppInput -> string)
    requires Initial(w0) && Reaches(w0, steps, w, digest) && Enabled(w, step) && step.Submits?
    requires w.db.settings.enabled && SubmitApp(w.db, step.id, step.submitter, step.review, step.now).0.Ok?
    ensures var w' := Next(w, step, digest);
            && step.id in w'.db.apps && Open(w', step.id) && HasProvenance(w', step.id)
            && MatchedBy(w', step.id, ProvenanceOf(w', step.id), digest)
            && (Rewrites(w.log, step.id) == ProvenanceOf(w', step.id).version ==> ContentMatched(w', step.id))
  {
    VerifiedMeansMatched(w0, steps, w, step.id, digest);
    StatusStepEffect(w, step, digest);
    assert SameSecurity(w.db.apps[step.id], Next(w, step, digest).db.apps[step.id]);
  }
}
