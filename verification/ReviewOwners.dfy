/** A review belongs to one app: what keeps it so, and the one step that breaks it. */
module ReviewOwners {
  import opened Wrappers
  import opened Uuids
  import opened SecurityBinding
  import opened SecCheck
  import opened Catalog
  import opened Runs
  import opened SecurityProof

  /** A review's row names the app of its recorded comparison for as long as that app exists. */
  ghost predicate OwnerOk(w: World, r: string)
    requires r in w.db.checks
  {
    r in w.log.provenance &&
    var app := w.log.provenance[r].app;
    w.db.checks[r].appId == if app in w.db.apps then Some(app) else None
  }

  ghost predicate AttachedOk(w: World, a: Uuid)
    requires a in w.db.apps
  {
    var reviewId := w.db.apps[a].reviewId;
    reviewId.Some? ==> reviewId.value in w.db.checks && w.db.checks[reviewId.value].appId == Some(a)
  }

  /** Every review row names the app it was compared for, and is attached to no other. */
  ghost predicate BoundOk(w: World) {
    && (forall r :: r in w.db.checks ==> OwnerOk(w, r))
    && (forall a :: a in w.db.apps ==> AttachedOk(w, a))
  }

  ghost predicate StoresAnswer(w: World, k: nat, now: int, digest: AppInput -> string)
    requires k in w.sessions && w.sessions[k].BindingRead?
  {
    var done := Conclude(w.db, w.sessions[k], now, digest).0;
    done.Attempted? && done.reply.Ok?
  }

  /** A request stores its answer in a row that by then names another app or none: the row came, or lost its app,
      after the look-up. */
  ghost predicate Rebinds(w: World, step: Step, digest: AppInput -> string) {
    step.Concludes? && step.session in w.sessions && w.sessions[step.session].BindingRead? &&
    var s := w.sessions[step.session];
    && StoresAnswer(w, step.session, step.now, digest)
    && s.review.id in w.db.checks && w.db.checks[s.review.id].appId != Some(s.app)
  }

  // ---- One step ----

  lemma RowChangesKeepBound(w: World, w': World)
    requires IssuedOk(w) && BoundOk(w) && OnlyRowsChange(w, w')
    ensures BoundOk(w')
  {
    forall r | r in w'.db.checks ensures OwnerOk(w', r) {
      assert OwnerOk(w, r);
      var app := w.log.provenance[r].app;
      assert app in w'.db.apps ==> RowKept(w, w', app);
    }
    forall a | a in w'.db.apps ensures AttachedOk(w', a) {
      assert RowKept(w, w', a);
      assert a in w.db.apps ==> AttachedOk(w, a);
    }
  }

  lemma DeletionKeepsBound(w: World, w': World, id: Uuid)
    requires BoundOk(w) && Deleted(w, w', id)
    ensures BoundOk(w')
  {
    OrphanedKeys(w.db.checks, id);
    forall r | r in w'.db.checks ensures OwnerOk(w', r) {
      assert OwnerOk(w, r);
    }
    forall a | a in w'.db.apps ensures AttachedOk(w', a) {
      assert AttachedOk(w, a);
    }
  }

  lemma SameTablesKeepBound(w: World, w': World)
    requires BoundOk(w) && w'.db.apps == w.db.apps && w'.db.checks == w.db.checks
    requires w'.log.provenance == w.log.provenance
    ensures BoundOk(w')
  {
    forall r | r in w'.db.checks ensures OwnerOk(w', r) {
      assert OwnerOk(w, r);
    }
    forall a | a in w'.db.apps ensures AttachedOk(w', a) {
      assert AttachedOk(w, a);
    }
  }

  lemma RecordingBindsExactly(w: World, w': World, s: Session, now: int)
    requires BoundOk(w) && s.BindingRead? && Recorded(w, w', s, now)
    ensures BoundOk(w') <==> Named(w.db, s) == Some(s.app)
  {
    var r := s.review.id;
    if Named(w.db, s) == Some(s.app) {
      forall q | q in w'.db.checks ensures OwnerOk(w', q) {
        assert q != r ==> OwnerOk(w, q);
      }
      forall a | a in w'.db.apps ensures AttachedOk(w', a) {
        assert AttachedOk(w, a);
      }
    } else {
      assert !AttachedOk(w', s.app);
    }
  }

  lemma ConcludingBindsExactly(w: World, k: nat, now: int, digest: AppInput -> string)
    requires BoundOk(w) && k in w.sessions && w.sessions[k].BindingRead?
    ensures BoundOk(AfterConclude(w, k, now, digest)) <==> !Rebinds(w, Concludes(k, now), digest)
  {
    var w', s := AfterConclude(w, k, now, digest), w.sessions[k];
    AnswerStoredExactly(w, k, now, digest);
    if StoresAnswer(w, k, now, digest) {
      RecordingBindsExactly(w, w', s, now);
    } else {
      SameTablesKeepBound(w, w');
    }
    hide StoresAnswer, BoundOk, Recorded;
  }

  lemma AnswerStoredExactly(w: World, k: nat, now: int, digest: AppInput -> string)
    requires k in w.sessions && w.sessions[k].BindingRead?
    ensures var w' := AfterConclude(w, k, now, digest);
            if StoresAnswer(w, k, now, digest) then Recorded(w, w', w.sessions[k], now)
            else w'.db == w.db && w'.log == w.log
  {
    hide Judge;
  }

  lemma OtherStepsKeepBound(w: World, step: Step, digest: AppInput -> string)
    requires StateOk(w) && BoundOk(w) && Enabled(w, step) && !step.Concludes?
    ensures BoundOk(Next(w, step, digest))
  {
    if IsRowStep(step) {
      RowStepChangesRows(w, step, digest);
      hide StateOk, BoundOk, OnlyRowsChange, Next;
      RowChangesKeepBound(w, Next(w, step, digest));
    } else if step.DeletesApp? {
      if step.id in w.db.apps {
        DeletionKeepsBound(w, Next(w, step, digest), step.id);
      }
    } else {
      OnlyConcludingRecords(w, step, digest);
      if IsSave(step) {
        SaveLeavesApps(w, step, digest);
      } else {
        ReadsLeaveTables(w, step, digest);
      }
      hide StateOk, BoundOk, Next;
      SameTablesKeepBound(w, Next(w, step, digest));
    }
  }

  /** A step leaves every review with its one app exactly unless it stores an answer in a row that has come to name
      another app, or none, since it was looked up. */
  lemma StepBindsExactly(w: World, step: Step, digest: AppInput -> string)
    requires StateOk(w) && BoundOk(w) && Enabled(w, step)
    ensures BoundOk(Next(w, step, digest)) <==> !Rebinds(w, step, digest)
  {
    hide StateOk, BoundOk, StoresAnswer, AfterConclude;
    if step.Concludes? {
      ConcludingBindsExactly(w, step.session, step.now, digest);
    } else {
      OtherStepsKeepBound(w, step, digest);
    }
  }

  // ---- Runs ----

  ghost predicate NothingRebinds(w: World, steps: seq<Step>, digest: AppInput -> string)
    decreases |steps|
  {
    steps != [] && Enabled(w, steps[0]) ==>
      !Rebinds(w, steps[0], digest) && NothingRebinds(Next(w, steps[0], digest), steps[1..], digest)
  }

  /** At every moment of the run each review has its one app. */
  ghost predicate AlwaysBound(w: World, steps: seq<Step>, digest: AppInput -> string)
    decreases |steps|
  {
    BoundOk(w) && (steps != [] && Enabled(w, steps[0]) ==> AlwaysBound(Next(w, steps[0], digest), steps[1..], digest))
  }

  lemma {:induction false} BoundThroughoutExactly(w: World, steps: seq<Step>, digest: AppInput -> string)
    requires Inv(w, digest) && BoundOk(w)
    ensures AlwaysBound(w, steps, digest) <==> NothingRebinds(w, steps, digest)
    decreases |steps|
  {
    hide BoundOk, Next, Rebinds, StateOk;
    if steps != [] && Enabled(w, steps[0]) {
      StepKeeps(w, steps[0], digest);
      StateOfInv(w, digest);
      StepBindsExactly(w, steps[0], digest);
      if !Rebinds(w, steps[0], digest) {
        BoundThroughoutExactly(Next(w, steps[0], digest), steps[1..], digest);
      }
    }
  }

  lemma StateOfInv(w: World, digest: AppInput -> string)
    requires Inv(w, digest)
    ensures StateOk(w)
  {
  }

  /** In every run every review has its one app at every moment exactly when no request stores its answer in a row
      that changed hands after the look-up. */
  lemma {:induction false} ReviewsKeepTheirAppExactly(w0: World, steps: seq<Step>, digest: AppInput -> string)
    requires Initial(w0)
    ensures AlwaysBound(w0, steps, digest) <==> NothingRebinds(w0, steps, digest)
  {
    RunsFromTheStart(w0, [], w0, digest);
    BoundThroughoutExactly(w0, steps, digest);
  }

  lemma ChecksStay(w: World, step: Step, digest: AppInput -> string)
    requires StateOk(w) && Enabled(w, step) && !step.Concludes?
    ensures var w' := Next(w, step, digest);
            w'.log.provenance == w.log.provenance && w'.db.checks.Keys == w.db.checks.Keys
  {
    OnlyConcludingRecords(w, step, digest);
    if IsRowStep(step) {
      RowStepChangesRows(w, step, digest);
    } else if IsSave(step) {
      SaveLeavesApps(w, step, digest);
    } else if IsRead(step) {
      ReadsLeaveTables(w, step, digest);
    } else {
      OrphanedKeys(w.db.checks, step.id);
    }
    hide OnlyRowsChange, StateOk;
  }

  /** The review is on record, for this app. */
  ghost predicate OwnedBy(w: World, r: string, app: Uuid) {
    r in w.log.provenance && r in w.db.checks && w.log.provenance[r].app == app
  }

  lemma OwnerKeptByRecording(w: World, k: nat, now: int, r: string, app: Uuid, digest: AppInput -> string)
    requires BoundOk(w) && k in w.sessions && w.sessions[k].BindingRead? && OwnedBy(w, r, app)
    requires !Rebinds(w, Concludes(k, now), digest)
    ensures OwnedBy(AfterConclude(w, k, now, digest), r, app)
  {
    hide StoresAnswer, AfterConclude;
    assert OwnerOk(w, r);
    AnswerStoredExactly(w, k, now, digest);
  }

  lemma OwnerKeptByStep(w: World, step: Step, r: string, app: Uuid, digest: AppInput -> string)
    requires StateOk(w) && BoundOk(w) && Enabled(w, step) && OwnedBy(w, r, app) && !Rebinds(w, step, digest)
    ensures OwnedBy(Next(w, step, digest), r, app)
  {
    hide StateOk, BoundOk, AfterConclude, Rebinds;
    if step.Concludes? {
      OwnerKeptByRecording(w, step.session, step.now, r, app, digest);
    } else {
      ChecksStay(w, step, digest);
      hide Next;
    }
  }

  lemma {:induction false} OwnerKept(w: World, steps: seq<Step>, end: World, r: string, app: Uuid,
                                     digest: AppInput -> string)
    requires Inv(w, digest) && BoundOk(w) && Reaches(w, steps, end, digest) && NothingRebinds(w, steps, digest)
    requires OwnedBy(w, r, app)
    ensures OwnedBy(end, r, app) && BoundOk(end)
    decreases |steps|
  {
    hide BoundOk, Next, Rebinds, StateOk, OwnedBy;
    if steps != [] {
      StepKeeps(w, steps[0], digest);
      StateOfInv(w, digest);
      StepBindsExactly(w, steps[0], digest);
      OwnerKeptByStep(w, steps[0], r, app, digest);
      OwnerKept(Next(w, steps[0], digest), steps[1..], end, r, app, digest);
    }
  }

  lemma {:induction false} BoundAtTheEnd(w: World, steps: seq<Step>, end: World, digest: AppInput -> string)
    requires Reaches(w, steps, end, digest) && AlwaysBound(w, steps, digest)
    ensures BoundOk(end)
    decreases |steps|
  {
    hide BoundOk, Next;
    if steps != [] {
      BoundAtTheEnd(Next(w, steps[0], digest), steps[1..], end, digest);
    }
  }

  lemma AttachedIsOwned(w: World, r: string, a: Uuid)
    requires BoundOk(w) && a in w.db.apps && w.db.apps[a].reviewId == Some(r)
    ensures OwnedBy(w, r, a)
  {
    assert AttachedOk(w, a) && OwnerOk(w, r);
  }

  /** In every run in which nothing rebinds a review: a review attached to one app is never attached to another, at that
      moment or ever after, even when the first app is deleted. */
  lemma {:induction false} ReviewIsNeverRebound(w0: World, before: seq<Step>, w: World, after: seq<Step>, end: World,
                                                r: string, a: Uuid, b: Uuid, digest: AppInput -> string)
    requires Initial(w0) && Reaches(w0, before, w, digest) && Reaches(w, after, end, digest)
    requires NothingRebinds(w0, before, digest) && NothingRebinds(w, after, digest)
    requires a in w.db.apps && w.db.apps[a].reviewId == Some(r)
    requires b in end.db.apps && end.db.apps[b].reviewId == Some(r)
    ensures a == b
  {
    hide Inv, Reaches, NothingRebinds, AlwaysBound, BoundOk, Initial;
    RunsFromTheStart(w0, before, w, digest);
    ReviewsKeepTheirAppExactly(w0, before, digest);
    BoundAtTheEnd(w0, before, w, digest);
    AttachedIsOwned(w, r, a);
    OwnerKept(w, after, end, r, a, digest);
    AttachedIsOwned(end, r, b);
  }
}
