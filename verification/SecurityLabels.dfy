/** How long a "verified" label lasts: what takes it off, what puts it on, and whether it is there at the decision. */
module SecurityLabels {
  import opened Wrappers
  import opened Uuids
  import opened SecurityBinding
  import opened SecCheck
  import opened Catalog
  import opened Runs
  import opened SecurityProof

  predicate On(db: Db, a: Uuid) {
    a in db.apps && Verified(db, a)
  }

  ghost predicate Labelled(w: World, a: Uuid) {
    On(w.db, a)
  }

  /** A request stores its answer, with one of these verdicts. */
  ghost predicate StoresIn(db: Db, s: Session, now: int, verdicts: set<Verdict>, digest: AppInput -> string)
    requires s.BindingRead?
  {
    var done := Conclude(db, s, now, digest).0;
    done.Attempted? && done.reply.Ok? && done.verdict in verdicts
  }

  ghost predicate Stores(w: World, k: nat, now: int, a: Uuid, verdicts: set<Verdict>, digest: AppInput -> string) {
    && k in w.sessions && w.sessions[k].BindingRead? && w.sessions[k].app == a
    && StoresIn(w.db, w.sessions[k], now, verdicts, digest)
  }

  /** The edit an owner's form makes is accepted and is a relevant one. */
  predicate RelevantEdit(db: Db, id: Uuid, input: Option<AppInput>, category: Option<Uuid>) {
    && id in db.apps && input.Some? && category.Some? && !SlugTaken(db, input.value.slug, id)
    && SecurityRelevantChange(db.apps[id], input.value)
  }

  /** The attached review says approved, for the challenge the app carries; only the connection is left to ask for. */
  predicate AnswerStands(db: Db, a: Uuid) {
    a in db.apps && db.apps[a].reviewId.Some? && db.apps[a].reviewId.value in db.checks &&
    var check := db.checks[db.apps[a].reviewId.value];
    SaysApproved(check.remoteStatus, check.finalResult, check.approvedAt) && check.capturedNonce == db.apps[a].nonce
  }

  /** The revision of the connection that answer came over. */
  function AnswerRevision(db: Db, a: Uuid): nat
    requires AnswerStands(db, a)
  {
    db.checks[db.apps[a].reviewId.value].settingsRevision
  }

  /** The revision a save writes, if it is accepted. */
  function WrittenRevision(w: World, step: Step): Option<nat>
    requires step.Connects?
  {
    if step.save !in w.saves then None
    else
      var saved := SavedSettings(w.saves[step.save], step.enabled, step.baseUrl, step.timeoutSeconds, step.newKey);
      if saved.Ok? then Some(saved.value.revision) else None
  }

  /** Another app's request stores its answer in the row of the review attached to this one. */
  ghost predicate StoresOver(w: World, k: nat, now: int, a: Uuid, digest: AppInput -> string) {
    && k in w.sessions && w.sessions[k].BindingRead? && w.sessions[k].app != a
    && a in w.db.apps && w.db.apps[a].reviewId == Some(w.sessions[k].review.id)
    && StoresIn(w.db, w.sessions[k], now, {Approves, Refuses(NotApproved), Refuses(Incomplete)}, digest)
  }

  /** The owner's relevant edit, the app's deletion, a save that moves the revision, a re-read that is no approval, and
      another app's answer stored over the app's own. */
  ghost predicate TakesOff(w: World, step: Step, a: Uuid, digest: AppInput -> string) {
    match step
    case UpdatesApp(id, input, category, _) => id == a && RelevantEdit(w.db, a, input, category)
    case DeletesApp(id) => id == a
    case Connects(_, _, _, _, _) => WrittenRevision(w, step) !in {None, Some(w.db.settings.revision)}
    case Concludes(k, now) => Stores(w, k, now, a, {Refuses(NotApproved)}, digest) || StoresOver(w, k, now, a, digest)
    case _ => false
  }

  /** A re-read that is an approval, or one refused only for open items; and a save that writes the revision a standing
      answer came over. */
  ghost predicate PutsOn(w: World, step: Step, a: Uuid, digest: AppInput -> string) {
    match step
    case Connects(_, _, _, _, _) => AnswerStands(w.db, a) && WrittenRevision(w, step) == Some(AnswerRevision(w.db, a))
    case Concludes(k, now) => Stores(w, k, now, a, {Approves, Refuses(Incomplete)}, digest)
    case _ => false
  }

  // ---- One transaction ----

  /** What the label of one app rests on. */
  ghost predicate SameGround(before: Db, after: Db, a: Uuid) {
    && after.checks == before.checks && after.settings.revision == before.settings.revision
    && (a in after.apps <==> a in before.apps)
    && (a in before.apps ==>
          after.apps[a].nonce == before.apps[a].nonce && after.apps[a].reviewId == before.apps[a].reviewId)
  }

  lemma SameGroundSameLabel(before: Db, after: Db, a: Uuid)
    requires SameGround(before, after, a)
    ensures On(after, a) <==> On(before, a)
  {
  }

  lemma UpdateDecides(db: Db, id: Uuid, input: Option<AppInput>, category: Option<Uuid>, nonce: Uuid, a: Uuid)
    requires input.Some? ==> ParsedAs(input.value.categoryId, category)
    ensures On(UpdateApp(db, id, input, category, nonce).1, a)
            <==> On(db, a) && !(id == a && RelevantEdit(db, a, input, category))
  {
    var (reply, after) := UpdateApp(db, id, input, category, nonce);
    if reply.Ok? && id == a {
      OwnerEditDropsLabelExactly(db, id, input.value, category.value, nonce);
    } else {
      SameGroundSameLabel(db, after, a);
    }
  }

  lemma AdminDecides(db: Db, id: Uuid, input: Option<AppInput>, category: Option<Uuid>, status: Option<AppStatus>,
                     now: int, a: Uuid)
    ensures SameGround(db, AdminUpdateApp(db, id, input, category, status, now).1, a)
  {
  }

  lemma CreateDecides(db: Db, id: Uuid, nonce: Uuid, input: Option<AppInput>, category: Option<Uuid>,
                      status: Option<AppStatus>, now: int, a: Uuid)
    requires id != a
    ensures SameGround(db, CreateApp(db, id, nonce, input, category, status, now).1, a)
  {
  }

  lemma DeleteDecides(db: Db, id: Uuid, a: Uuid)
    ensures On(DeleteApp(db, id).1, a) <==> On(db, a) && id != a
  {
    var after := DeleteApp(db, id).1;
    if a in db.apps && id in db.apps && a != id && db.apps[a].reviewId.Some? && db.apps[a].reviewId.value in db.checks {
      OrphaningKeepsAnswer(db.checks, id, db.apps[a].reviewId.value);
    }
  }

  lemma OrphaningKeepsAnswer(checks: map<string, Check>, id: Uuid, r: string)
    requires r in checks
    ensures r in Orphaned(checks, id) && Orphaned(checks, id)[r] == checks[r].(appId := Orphaned(checks, id)[r].appId)
  {
  }

  /** Under whatever settings, the label is on exactly when the answer stands and came over their revision. */
  lemma SettingsDecide(db: Db, settings: Settings, a: Uuid)
    ensures On(db.(settings := settings), a) <==> AnswerStands(db, a) && AnswerRevision(db, a) == settings.revision
  {
  }

  /** An answer stored for one app leaves the label of another, unless it goes into the row of that one's review. */
  lemma StoringDecidesOthers(db: Db, s: Session, now: int, a: Uuid)
    requires s.BindingRead? && s.app != a && (a in db.apps ==> db.apps[a].nonce != s.nonce)
    ensures var (reply, after) := StoreCheck(db, s.bound, s.app, s.nonce, s.settings.revision, ResultOf(s.review), now);
            On(after, a) <==> On(db, a) && !(reply.Ok? && db.apps[a].reviewId == Some(s.review.id))
  {
    hide ValidStatus, Text.Trim;
  }

  lemma ConcludingDecidesOthers(db: Db, s: Session, now: int, a: Uuid, digest: AppInput -> string)
    requires s.BindingRead? && s.app != a
    requires a in db.apps && s.app in db.apps && db.apps[s.app].nonce == s.nonce ==> db.apps[a].nonce != s.nonce
    ensures On(Conclude(db, s, now, digest).1, a)
            <==> On(db, a) && !(StoresIn(db, s, now, {Approves, Refuses(NotApproved), Refuses(Incomplete)}, digest)
                                && db.apps[a].reviewId == Some(s.review.id))
  {
    ConcludeDecides(db, s, now, digest);
    if s.app in db.apps && db.apps[s.app].nonce == s.nonce {
      StoringDecidesOthers(db, s, now, a);
    }
    hide Verified, Judge, SaysApproved;
  }

  lemma ConcludeDecides(db: Db, s: Session, now: int, digest: AppInput -> string)
    requires s.BindingRead?
    ensures var (done, after) := Conclude(db, s, now, digest);
            if done.Attempted? && done.reply.Ok? then
              && done.verdict in {Approves, Refuses(NotApproved), Refuses(Incomplete)}
              && (On(after, s.app) <==> done.verdict in {Approves, Refuses(Incomplete)})
            else after == db
  {
    hide Verified, StoreCheck;
    StoredVerdictVerifiesExactly(db, s, now, digest);
    var recorded := StoreCheck(db, s.bound, s.app, s.nonce, s.settings.revision, ResultOf(s.review), now);
    RefusalLeavesTables(db, s, now);
    assert Conclude(db, s, now, digest).1 in {db, recorded.1};
  }

  lemma RefusalLeavesTables(db: Db, s: Session, now: int)
    requires s.BindingRead?
    ensures var (reply, after) := StoreCheck(db, s.bound, s.app, s.nonce, s.settings.revision, ResultOf(s.review), now);
            reply.Err? ==> after == db
  {
  }

  // ---- One step ----

  lemma StatusStepsLeaveLabels(w: World, step: Step, a: Uuid, digest: AppInput -> string)
    requires Enabled(w, step) && (step.SetsStatus? || step.Submits? || step.Decides? || step.Configures?)
    ensures Labelled(Next(w, step, digest), a) <==> Labelled(w, a)
  {
    StatusStepEffect(w, step, digest);
    if a in w.db.apps {
      assert SameSecurity(w.db.apps[a], Next(w, step, digest).db.apps[a]);
    }
    SameGroundSameLabel(w.db, Next(w, step, digest).db, a);
  }

  lemma ReadsLeaveLabels(w: World, step: Step, a: Uuid, digest: AppInput -> string)
    requires Enabled(w, step) && IsRead(step)
    ensures Labelled(Next(w, step, digest), a) <==> Labelled(w, a)
  {
    hide Next;
    ReadsLeaveTables(w, step, digest);
  }

  lemma AppWritesDecide(w: World, step: Step, a: Uuid, digest: AppInput -> string)
    requires Enabled(w, step) && a in w.issued
    requires step.CreatesApp? || step.UpdatesApp? || step.AdminUpdatesApp? || step.DeletesApp?
    ensures Labelled(Next(w, step, digest), a) <==> Labelled(w, a) && !TakesOff(w, step, a, digest)
  {
    match step
    case CreatesApp(id, nonce, input, category, status, now) =>
      CreateDecides(w.db, id, nonce, input, category, status, now, a);
      SameGroundSameLabel(w.db, CreateApp(w.db, id, nonce, input, category, status, now).1, a);
    case UpdatesApp(id, input, category, nonce) =>
      UpdateDecides(w.db, id, input, category, nonce, a);
    case AdminUpdatesApp(id, input, category, status, now) =>
      AdminDecides(w.db, id, input, category, status, now, a);
      SameGroundSameLabel(w.db, AdminUpdateApp(w.db, id, input, category, status, now).1, a);
      AdminStepTables(w, step, digest);
    case DeletesApp(id) =>
      DeleteDecides(w.db, id, a);
  }

  lemma AdminStepTables(w: World, step: Step, digest: AppInput -> string)
    requires Enabled(w, step) && step.AdminUpdatesApp?
    ensures Next(w, step, digest).db
            == AdminUpdateApp(w.db, step.id, step.input, step.category, step.status, step.now).1
  {
  }

  lemma SavingDecides(w: World, step: Step, a: Uuid, digest: AppInput -> string)
    requires Enabled(w, step) && IsSave(step)
    ensures Decided(w, step, a, digest)
  {
    if step.Connects? {
      var saved := SavedSettings(w.saves[step.save], step.enabled, step.baseUrl, step.timeoutSeconds, step.newKey);
      SettingsDecide(w.db, w.db.settings, a);
      if saved.Ok? {
        SettingsDecide(w.db, saved.value, a);
      }
      assert w.db.(settings := w.db.settings) == w.db;
      hide SavedSettings, On, AnswerStands, AnswerRevision;
    }
  }

  /** After the step the label is on exactly when the step put it on, or it was on and the step did not take it off. */
  ghost predicate Decided(w: World, step: Step, a: Uuid, digest: AppInput -> string)
    requires Enabled(w, step)
  {
    Labelled(Next(w, step, digest), a)
    <==> PutsOn(w, step, a, digest) || (Labelled(w, a) && !TakesOff(w, step, a, digest))
  }

  lemma OwnAnswerDecides(db: Db, s: Session, now: int, digest: AppInput -> string)
    requires s.BindingRead?
    ensures On(Conclude(db, s, now, digest).1, s.app)
            <==> StoresIn(db, s, now, {Approves, Refuses(Incomplete)}, digest)
                 || (On(db, s.app) && !StoresIn(db, s, now, {Refuses(NotApproved)}, digest))
  {
    hide Conclude, Verified;
    ConcludeDecides(db, s, now, digest);
  }

  lemma OwnRereadDecides(w: World, k: nat, now: int, digest: AppInput -> string)
    requires k in w.sessions && w.sessions[k].BindingRead?
    ensures Decided(w, Concludes(k, now), w.sessions[k].app, digest)
  {
    hide Conclude, Verified;
    OwnAnswerDecides(w.db, w.sessions[k], now, digest);
  }

  lemma OtherRereadDecides(w: World, k: nat, now: int, a: Uuid, digest: AppInput -> string)
    requires StateOk(w) && k in w.sessions && w.sessions[k].BindingRead? && w.sessions[k].app != a
    ensures Decided(w, Concludes(k, now), a, digest)
  {
    hide Conclude, Verified, CheckOk, SessionOk;
    var s := w.sessions[k];
    if s.app in w.db.apps {
      assert AppOk(w, s.app);
    }
    ConcludingDecidesOthers(w.db, s, now, a, digest);
  }

  lemma LabelStepExactly(w: World, step: Step, a: Uuid, digest: AppInput -> string)
    requires StateOk(w) && Enabled(w, step) && a in w.issued
    ensures Decided(w, step, a, digest)
  {
    if step.Concludes? {
      if w.sessions[step.session].app == a {
        OwnRereadDecides(w, step.session, step.now, digest);
      } else {
        OtherRereadDecides(w, step.session, step.now, a, digest);
      }
    } else {
      OtherStepsDecide(w, step, a, digest);
    }
  }

  lemma OtherStepsDecide(w: World, step: Step, a: Uuid, digest: AppInput -> string)
    requires StateOk(w) && Enabled(w, step) && a in w.issued && !step.Concludes?
    ensures Decided(w, step, a, digest)
  {
    if IsSave(step) {
      SavingDecides(w, step, a, digest);
    } else if step.CreatesApp? || step.UpdatesApp? || step.AdminUpdatesApp? || step.DeletesApp? {
      AppWritesDecide(w, step, a, digest);
    } else {
      StepsBesideLabels(w, step, a, digest);
    }
  }

  lemma StepsBesideLabels(w: World, step: Step, a: Uuid, digest: AppInput -> string)
    requires Enabled(w, step)
    requires step.SetsStatus? || step.Submits? || step.Decides? || step.Configures? || IsRead(step)
    ensures Labelled(Next(w, step, digest), a) <==> Labelled(w, a)
  {
    if step.SetsStatus? || step.Submits? || step.Decides? || step.Configures? {
      StatusStepsLeaveLabels(w, step, a, digest);
    } else {
      ReadsLeaveLabels(w, step, a, digest);
    }
  }

  // ---- Runs ----

  /** The last step of a run that touched the label put it on, or none did and it was on. */
  ghost predicate LabelAfter(w: World, steps: seq<Step>, a: Uuid, on: bool, digest: AppInput -> string)
    decreases |steps|
  {
    if steps == [] || !Enabled(w, steps[0]) then on
    else LabelAfter(Next(w, steps[0], digest), steps[1..], a,
                    PutsOn(w, steps[0], a, digest) || (on && !TakesOff(w, steps[0], a, digest)), digest)
  }

  ghost predicate NothingTakesOff(w: World, steps: seq<Step>, a: Uuid, digest: AppInput -> string)
    decreases |steps|
  {
    steps != [] && Enabled(w, steps[0]) ==>
      !TakesOff(w, steps[0], a, digest) && NothingTakesOff(Next(w, steps[0], digest), steps[1..], a, digest)
  }

  ghost predicate NothingPutsOn(w: World, steps: seq<Step>, a: Uuid, digest: AppInput -> string)
    decreases |steps|
  {
    steps != [] && Enabled(w, steps[0]) ==>
      !PutsOn(w, steps[0], a, digest) && NothingPutsOn(Next(w, steps[0], digest), steps[1..], a, digest)
  }

  lemma IssuedGrows(w: World, step: Step, digest: AppInput -> string)
    requires Enabled(w, step)
    ensures w.issued <= Next(w, step, digest).issued
  {
  }

  /** Over a whole run the label is what the last step that touched it made of it. */
  lemma {:induction false} LabelRunExactly(w: World, steps: seq<Step>, end: World, a: Uuid, digest: AppInput -> string)
    requires Inv(w, digest) && Reaches(w, steps, end, digest) && a in w.issued
    ensures Labelled(end, a) <==> LabelAfter(w, steps, a, Labelled(w, a), digest)
    decreases |steps|
  {
    if steps != [] {
      StepKeeps(w, steps[0], digest);
      LabelStepExactly(w, steps[0], a, digest);
      IssuedGrows(w, steps[0], digest);
      LabelRunExactly(Next(w, steps[0], digest), steps[1..], end, a, digest);
    }
  }

  lemma {:induction false} OffStaysOff(w: World, steps: seq<Step>, a: Uuid, digest: AppInput -> string)
    requires NothingPutsOn(w, steps, a, digest)
    ensures !LabelAfter(w, steps, a, false, digest)
    decreases |steps|
  {
    if steps != [] && Enabled(w, steps[0]) {
      OffStaysOff(Next(w, steps[0], digest), steps[1..], a, digest);
    }
  }

  lemma {:induction false} OnUntilTakenOff(w: World, steps: seq<Step>, a: Uuid, digest: AppInput -> string)
    requires NothingPutsOn(w, steps, a, digest)
    ensures LabelAfter(w, steps, a, true, digest) <==> NothingTakesOff(w, steps, a, digest)
    decreases |steps|
  {
    if steps != [] && Enabled(w, steps[0]) {
      if TakesOff(w, steps[0], a, digest) {
        OffStaysOff(Next(w, steps[0], digest), steps[1..], a, digest);
      } else {
        OnUntilTakenOff(Next(w, steps[0], digest), steps[1..], a, digest);
      }
    }
  }

  /** From an accepted submission under the gate to any later moment, a decision on its review included, with nothing
      that puts the label on in between: the app is still verified exactly when no relevant owner edit, deletion, save
      that moves the revision, non-approving re-read or other app's answer in its review's row came in between. */
  lemma {:induction false} VerifiedWhenDecidedExactly(
      w0: World, before: seq<Step>, w: World, submission: Step, between: seq<Step>, end: World,
      digest: AppInput -> string)
    requires Initial(w0) && Reaches(w0, before, w, digest) && Enabled(w, submission) && submission.Submits?
    requires w.db.settings.enabled
    requires SubmitApp(w.db, submission.id, submission.submitter, submission.review, submission.now).0.Ok?
    requires Reaches(Next(w, submission, digest), between, end, digest)
    requires NothingPutsOn(Next(w, submission, digest), between, submission.id, digest)
    ensures Labelled(end, submission.id)
            <==> NothingTakesOff(Next(w, submission, digest), between, submission.id, digest)
  {
    var submitted := Next(w, submission, digest);
    RunsFromTheStart(w0, before, w, digest);
    StepKeeps(w, submission, digest);
    StatusStepsLeaveLabels(w, submission, submission.id, digest);
    IssuedGrows(w, submission, digest);
    LabelRunExactly(submitted, between, end, submission.id, digest);
    OnUntilTakenOff(submitted, between, submission.id, digest);
  }
}
