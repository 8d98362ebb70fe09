/** The day an app was first published: always there once it is in the catalog, and never rewritten. */
module PublicationDates {
  import opened Wrappers
  import opened Uuids
  import opened SecurityBinding
  import opened Catalog
  import opened Runs
  import opened SecurityProof

  ghost predicate Dated(app: App) {
    app.status == Published ==> app.publishedAt.Some?
  }

  /** Rows stay dated, and a date once set stays. */
  ghost predicate DatesKept(before: map<Uuid, App>, after: map<Uuid, App>) {
    forall a :: a in after ==> RowDateKept(before, after, a)
  }

  ghost predicate RowDateKept(before: map<Uuid, App>, after: map<Uuid, App>, a: Uuid)
    requires a in after
  {
    if a !in before then Dated(after[a])
    else
      && (Dated(before[a]) ==> Dated(after[a]))
      && (before[a].publishedAt.Some? ==> after[a].publishedAt == before[a].publishedAt)
  }

  lemma CreateKeepsDates(db: Db, id: Uuid, nonce: Uuid, input: Option<AppInput>, category: Option<Uuid>,
                         status: Option<AppStatus>, now: int)
    requires id !in db.apps
    ensures DatesKept(db.apps, CreateApp(db, id, nonce, input, category, status, now).1.apps)
  {
  }

  lemma UpdateKeepsDates(db: Db, id: Uuid, input: Option<AppInput>, category: Option<Uuid>, nonce: Uuid)
    ensures DatesKept(db.apps, UpdateApp(db, id, input, category, nonce).1.apps)
  {
    hide SecurityRelevantChange, SlugTaken;
  }

  lemma AdminUpdateKeepsDates(db: Db, id: Uuid, input: Option<AppInput>, category: Option<Uuid>,
                              status: Option<AppStatus>, now: int)
    ensures DatesKept(db.apps, AdminUpdateApp(db, id, input, category, status, now).1.apps)
  {
    hide SlugTaken;
  }

  lemma SetStatusKeepsDates(db: Db, id: Uuid, status: Option<AppStatus>, now: int)
    ensures DatesKept(db.apps, SetAppStatus(db, id, status, now).1.apps)
  {
    hide Verified;
  }

  lemma SubmitKeepsDates(db: Db, id: Uuid, submitter: Uuid, review: Uuid, now: int)
    ensures DatesKept(db.apps, SubmitApp(db, id, submitter, review, now).1.apps)
  {
    hide Verified, CancelPending;
  }

  lemma DecideKeepsDates(db: Db, review: Uuid, reviewer: Uuid, decision: Option<Decision>, reason: string, next: Uuid,
                         now: int)
    ensures DatesKept(db.apps, DecideReview(db, review, reviewer, decision, reason, next, now).1.apps)
  {
  }

  /** The steps that write no date and no status. */
  predicate WritesNoStatus(step: Step) {
    step.DeletesApp? || step.Configures? || IsSave(step) || IsRead(step)
  }

  lemma SettingsAndDeletionsKeepDates(w: World, step: Step, digest: AppInput -> string)
    requires Enabled(w, step) && (step.DeletesApp? || step.Configures? || IsSave(step))
    ensures DatesKept(w.db.apps, Next(w, step, digest).db.apps)
  {
    if IsSave(step) {
      SaveLeavesApps(w, step, digest);
    }
    hide AfterConnect, UpdateWorkflowConfig, AfterUpdate, AfterAdminUpdate, AfterSetStatus, AfterSubmit, AfterDecide,
         AfterConclude;
    if step.Configures? {
      ConfiguringLeavesApps(w.db, step.config);
    }
  }

  lemma ConfiguringLeavesApps(db: Db, config: WorkflowConfig)
    ensures UpdateWorkflowConfig(db, config).1.apps == db.apps
  {
  }

  lemma OthersKeepDates(w: World, step: Step, digest: AppInput -> string)
    requires Enabled(w, step) && WritesNoStatus(step)
    ensures DatesKept(w.db.apps, Next(w, step, digest).db.apps)
  {
    hide Next;
    if IsRead(step) {
      ReadsLeaveTables(w, step, digest);
    } else {
      SettingsAndDeletionsKeepDates(w, step, digest);
    }
  }

  lemma RecordingKeepsDates(w: World, k: nat, now: int, digest: AppInput -> string)
    requires k in w.sessions && w.sessions[k].BindingRead?
    ensures DatesKept(w.db.apps, AfterConclude(w, k, now, digest).db.apps)
  {
    ConcludeEffect(w, k, now, digest);
  }

  lemma AppStepKeepsDates(w: World, step: Step, digest: AppInput -> string)
    requires Enabled(w, step) && (step.UpdatesApp? || step.AdminUpdatesApp? || step.SetsStatus?)
    ensures DatesKept(w.db.apps, Next(w, step, digest).db.apps)
  {
    hide UpdateApp, AdminUpdateApp, SetAppStatus, DatesKept;
    match step
    case UpdatesApp(id, input, category, nonce) => UpdateKeepsDates(w.db, id, input, category, nonce);
    case AdminUpdatesApp(id, input, category, status, now) =>
      AdminUpdateKeepsDates(w.db, id, input, category, status, now);
    case SetsStatus(id, status, now) => SetStatusKeepsDates(w.db, id, status, now);
  }

  lemma FlowStepKeepsDates(w: World, step: Step, digest: AppInput -> string)
    requires Enabled(w, step) && (step.Submits? || step.Decides?)
    ensures DatesKept(w.db.apps, Next(w, step, digest).db.apps)
  {
    hide SubmitApp, DecideReview, DatesKept;
    match step
    case Submits(id, submitter, review, now) => SubmitKeepsDates(w.db, id, submitter, review, now);
    case Decides(review, reviewer, decision, reason, next, now) =>
      DecideKeepsDates(w.db, review, reviewer, decision, reason, next, now);
  }

  lemma CreationKeepsDates(w: World, step: Step, digest: AppInput -> string)
    requires IssuedOk(w) && Enabled(w, step) && step.CreatesApp?
    ensures DatesKept(w.db.apps, Next(w, step, digest).db.apps)
  {
    CreateKeepsDates(w.db, step.id, step.nonce, step.input, step.category, step.status, step.now);
  }

  lemma StepKeepsDates(w: World, step: Step, digest: AppInput -> string)
    requires IssuedOk(w) && Enabled(w, step)
    ensures DatesKept(w.db.apps, Next(w, step, digest).db.apps)
  {
    if step.CreatesApp? {
      CreationKeepsDates(w, step, digest);
    } else if step.Submits? || step.Decides? {
      FlowStepKeepsDates(w, step, digest);
    } else if step.Concludes? {
      RecordingKeepsDates(w, step.session, step.now, digest);
    } else if WritesNoStatus(step) {
      OthersKeepDates(w, step, digest);
    } else {
      AppStepKeepsDates(w, step, digest);
    }
  }

  /** An identifier in use or used up keeps its date while the app exists, and is never given out again. */
  ghost predicate KeepsDate(w: World, a: Uuid, t: int) {
    a in w.issued && (a in w.db.apps ==> w.db.apps[a].publishedAt == Some(t))
  }

  lemma NoAppComesBack(w: World, step: Step, a: Uuid, digest: AppInput -> string)
    requires Enabled(w, step) && a in w.issued && a !in w.db.apps
    ensures a !in Next(w, step, digest).db.apps
  {
    hide AfterConclude, AfterSetStatus, AfterSubmit, AfterDecide, AfterConnect, ReadSettings, ReadChallenge, ReadApp,
         ReadBinding, OnlyStatusChanges;
    if step.SetsStatus? || step.Submits? || step.Decides? || step.Configures? {
      StatusLeavesKeys(w, step, digest);
    } else if step.Concludes? {
      ConcludeEffect(w, step.session, step.now, digest);
    } else if IsSave(step) {
      SaveLeavesApps(w, step, digest);
    } else if IsRead(step) {
      ReadsLeaveTables(w, step, digest);
    }
  }

  lemma StatusLeavesKeys(w: World, step: Step, digest: AppInput -> string)
    requires Enabled(w, step) && (step.SetsStatus? || step.Submits? || step.Decides? || step.Configures?)
    ensures Next(w, step, digest).db.apps.Keys == w.db.apps.Keys
  {
    StatusStepEffect(w, step, digest);
    hide Next;
  }

  lemma IssuedStays(w: World, step: Step, digest: AppInput -> string)
    requires Enabled(w, step)
    ensures w.issued <= Next(w, step, digest).issued
  {
  }

  lemma {:induction false} DateStays(w: World, steps: seq<Step>, end: World, a: Uuid, t: int,
                                     digest: AppInput -> string)
    requires Inv(w, digest) && Reaches(w, steps, end, digest) && KeepsDate(w, a, t)
    ensures KeepsDate(end, a, t)
    decreases |steps|
  {
    if steps != [] {
      var w' := Next(w, steps[0], digest);
      StepKeeps(w, steps[0], digest);
      StepKeepsDates(w, steps[0], digest);
      IssuedStays(w, steps[0], digest);
      if a !in w.db.apps {
        NoAppComesBack(w, steps[0], a, digest);
      } else if a in w'.db.apps {
        assert RowDateKept(w.db.apps, w'.db.apps, a);
      }
      DateStays(w', steps[1..], end, a, t, digest);
    }
  }

  lemma {:induction false} RowsStayDated(w: World, steps: seq<Step>, end: World, digest: AppInput -> string)
    requires Inv(w, digest) && Reaches(w, steps, end, digest)
    requires forall a :: a in w.db.apps ==> Dated(w.db.apps[a])
    ensures forall a :: a in end.db.apps ==> Dated(end.db.apps[a])
    decreases |steps|
  {
    if steps != [] {
      var w' := Next(w, steps[0], digest);
      StepKeeps(w, steps[0], digest);
      StepKeepsDates(w, steps[0], digest);
      forall a | a in w'.db.apps ensures Dated(w'.db.apps[a]) {
        assert RowDateKept(w.db.apps, w'.db.apps, a);
      }
      RowsStayDated(w', steps[1..], end, digest);
    }
  }

  /** In every run: an app in the catalog has a publication time, and once an app has one, later editing,
      archiving, rejecting and publishing again leave it as it is. */
  lemma {:induction false} FirstPublicationIsKept(w0: World, before: seq<Step>, w: World, after: seq<Step>,
                                                  end: World, a: Uuid, digest: AppInput -> string)
    requires Initial(w0) && Reaches(w0, before, w, digest) && Reaches(w, after, end, digest)
    requires a in w.db.apps && a in end.db.apps
    ensures w.db.apps[a].status == Published ==> w.db.apps[a].publishedAt.Some?
    ensures w.db.apps[a].publishedAt.Some? ==> end.db.apps[a].publishedAt == w.db.apps[a].publishedAt
  {
    RunsFromTheStart(w0, before, w, digest);
    RowsStayDated(w0, before, w, digest);
    if w.db.apps[a].publishedAt.Some? {
      DateStays(w, after, end, a, w.db.apps[a].publishedAt.value, digest);
    }
  }
}
