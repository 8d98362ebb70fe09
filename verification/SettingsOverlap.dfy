/** Saves of the security settings that overlap: each reads the stored connection first and writes later, unlocked. */
module SettingsOverlap {
  import opened Wrappers
  import opened Uuids
  import opened SecurityBinding
  import opened Catalog
  import opened Runs
  import opened SecurityProof
  import opened SecurityLabels
  import Text

  /** With nothing in between, reading and writing are the save. */
  lemma HalvesAreSave(w: World, k: nat, enabled: bool, baseUrl: string, timeoutSeconds: int, newKey: Option<string>,
                      digest: AppInput -> string)
    requires k !in w.saves
    ensures var read := Next(w, ReadsConnection(k), digest);
            Next(read, Connects(k, enabled, baseUrl, timeoutSeconds, newKey), digest).db
            == UpdateSecuritySettings(w.db, enabled, baseUrl, timeoutSeconds, newKey).1
  {
    hide SavedSettings;
  }

  // ---- One connection per revision ----

  /** The form asks for another connection than the one read. */
  predicate Changes(before: Settings, baseUrl: string, newKey: Option<string>) {
    Text.TrimSlashes(Text.Trim(baseUrl)) != before.baseUrl || (newKey.Some? && newKey.value != before.apiKey)
  }

  lemma SavedRevision(before: Settings, enabled: bool, baseUrl: string, timeoutSeconds: int, newKey: Option<string>)
    requires SavedSettings(before, enabled, baseUrl, timeoutSeconds, newKey).Ok?
    ensures var s := SavedSettings(before, enabled, baseUrl, timeoutSeconds, newKey).value;
            if Changes(before, baseUrl, newKey) then s.revision == before.revision + 1 && LinkOf(s) != LinkOf(before)
            else Given(s) == Given(before)
  {
  }

  ghost predicate GivenOut(w: World, v: nat) {
    exists x :: x in w.log.given && x.0 == v
  }

  function Saved(w: World, step: Step): Result<Settings>
    requires step.Connects? && step.save in w.saves
  {
    SavedSettings(w.saves[step.save], step.enabled, step.baseUrl, step.timeoutSeconds, step.newKey)
  }

  /** An accepted write that changes the connection it read, after another save has used up the next revision for a
      different one. */
  ghost predicate Shares(w: World, step: Step) {
    step.Connects? && step.save in w.saves && Saved(w, step).Ok? &&
    var before := w.saves[step.save];
    && Changes(before, step.baseUrl, step.newKey) && GivenOut(w, before.revision + 1)
    && (before.revision + 1, LinkOf(Saved(w, step).value)) !in w.log.given
  }

  /** A write gives a revision a second connection exactly under that guard. */
  lemma WriteSharesRevisionExactly(w: World, step: Step, digest: AppInput -> string)
    requires LinksOk(w) && OneConnection(w.log.given) && Enabled(w, step) && step.Connects?
    ensures OneConnection(Next(w, step, digest).log.given) <==> !Shares(w, step)
  {
    hide Next, SavedSettings, Changes, OneConnection;
    WriteGives(w, step, digest);
    if Saved(w, step).Ok? {
      SavedRevision(w.saves[step.save], step.enabled, step.baseUrl, step.timeoutSeconds, step.newKey);
      OneMoreGiven(w.log.given, Given(Saved(w, step).value));
      assert Given(w.saves[step.save]) in w.log.given;
    }
  }

  lemma WriteGives(w: World, step: Step, digest: AppInput -> string)
    requires Enabled(w, step) && step.Connects?
    ensures Next(w, step, digest).log.given
            == if Saved(w, step).Ok? then w.log.given + {Given(Saved(w, step).value)} else w.log.given
  {
    hide SavedSettings;
  }

  lemma OneMoreGiven(given: set<(nat, Link)>, more: (nat, Link))
    requires OneConnection(given)
    ensures OneConnection(given + {more}) <==> more in given || forall x :: x in given ==> x.0 != more.0
  {
    if x :| x in given && x.0 == more.0 && x != more {
      assert x in given + {more} && more in given + {more};
    }
  }

  lemma OnlyWritesGive(w: World, step: Step, digest: AppInput -> string)
    requires Enabled(w, step)
    ensures w.log.given <= Next(w, step, digest).log.given
    ensures !step.Connects? ==> Next(w, step, digest).log.given == w.log.given
  {
    hide UpdateApp, AdminUpdateApp, SetAppStatus, SubmitApp, DecideReview, Conclude, CreateApp, ReadSettings,
         ReadChallenge, ReadApp, ReadBinding, SavedSettings, UpdateWorkflowConfig, BindingInput;
  }

  ghost predicate NothingShares(w: World, steps: seq<Step>, digest: AppInput -> string)
    decreases |steps|
  {
    steps != [] && Enabled(w, steps[0]) ==>
      !Shares(w, steps[0]) && NothingShares(Next(w, steps[0], digest), steps[1..], digest)
  }

  lemma LinksOfInv(w: World, digest: AppInput -> string)
    requires Inv(w, digest)
    ensures LinksOk(w)
  {
  }

  lemma {:induction false} SharedStaysShared(w: World, steps: seq<Step>, end: World, digest: AppInput -> string)
    requires !OneConnection(w.log.given) && Reaches(w, steps, end, digest)
    ensures !OneConnection(end.log.given)
    decreases |steps|
  {
    hide Next;
    if steps != [] {
      OnlyWritesGive(w, steps[0], digest);
      SharedStaysShared(Next(w, steps[0], digest), steps[1..], end, digest);
    }
  }

  lemma {:induction false} RunSharesExactly(w: World, steps: seq<Step>, end: World, digest: AppInput -> string)
    requires Inv(w, digest) && OneConnection(w.log.given) && Reaches(w, steps, end, digest)
    ensures OneConnection(end.log.given) <==> NothingShares(w, steps, digest)
    decreases |steps|
  {
    hide Inv, Next, Shares, OneConnection;
    if steps != [] {
      StepKeeps(w, steps[0], digest);
      LinksOfInv(w, digest);
      OnlyWritesGive(w, steps[0], digest);
      if steps[0].Connects? {
        WriteSharesRevisionExactly(w, steps[0], digest);
      } else {
        OnlyWritesShare(w, steps[0]);
      }
      if Shares(w, steps[0]) {
        SharedStaysShared(Next(w, steps[0], digest), steps[1..], end, digest);
      } else {
        RunSharesExactly(Next(w, steps[0], digest), steps[1..], end, digest);
      }
    }
  }

  lemma OnlyWritesShare(w: World, step: Step)
    requires !step.Connects?
    ensures !Shares(w, step)
  {
  }

  /** In every run each revision has stood for one connection exactly when no save wrote under that guard. */
  lemma {:induction false} RevisionsStayApartExactly(w0: World, steps: seq<Step>, w: World, digest: AppInput -> string)
    requires Initial(w0) && Reaches(w0, steps, w, digest)
    ensures OneConnection(w.log.given) <==> NothingShares(w0, steps, digest)
  {
    RunsFromTheStart(w0, [], w0, digest);
    RunSharesExactly(w0, steps, w, digest);
  }

  /** Where no save wrote under that guard, an app that reads as verified was matched over the connection in use. */
  lemma {:induction false} VerifiedOverTheConnectionInUse(
      w0: World, steps: seq<Step>, w: World, a: Uuid, digest: AppInput -> string)
    requires Initial(w0) && Reaches(w0, steps, w, digest) && NothingShares(w0, steps, digest)
    requires a in w.db.apps && Verified(w.db, a)
    ensures HasProvenance(w, a) && ProvenanceOf(w, a).link == LinkOf(w.db.settings)
  {
    RevisionsStayApartExactly(w0, steps, w, digest);
    hide NothingShares, MatchedBy, Verified;
    VerifiedMeansMatched(w0, steps, w, a, digest);
  }

  /** No save writes over settings another has written since it read. */
  ghost predicate InTurn(w: World, steps: seq<Step>, digest: AppInput -> string)
    decreases |steps|
  {
    steps != [] && Enabled(w, steps[0]) ==>
      && (steps[0].Connects? ==> w.saves[steps[0].save] == w.db.settings)
      && InTurn(Next(w, steps[0], digest), steps[1..], digest)
  }

  ghost predicate NoneAhead(w: World) {
    forall x :: x in w.log.given ==> x.0 <= w.db.settings.revision
  }

  lemma InTurnStep(w: World, step: Step, digest: AppInput -> string)
    requires NoneAhead(w) && Enabled(w, step) && (step.Connects? ==> w.saves[step.save] == w.db.settings)
    ensures NoneAhead(Next(w, step, digest)) && !Shares(w, step)
  {
    OnlyWritesGive(w, step, digest);
    if step.Connects? {
      if Saved(w, step).Ok? {
        SavedRevision(w.saves[step.save], step.enabled, step.baseUrl, step.timeoutSeconds, step.newKey);
      }
      hide SavedSettings, Changes;
    } else {
      SettingsStay(w, step, digest);
      hide Next;
    }
  }

  lemma AppWritesKeepSettings(w: World, step: Step, digest: AppInput -> string)
    requires Enabled(w, step) && (step.CreatesApp? || step.UpdatesApp? || step.AdminUpdatesApp? || step.DeletesApp?)
    ensures Next(w, step, digest).db.settings == w.db.settings
  {
    hide SlugTaken, SecurityRelevantChange, WithInput, WithStatus, BindingInput;
  }

  lemma SettingsStay(w: World, step: Step, digest: AppInput -> string)
    requires Enabled(w, step) && !step.Connects?
    ensures Next(w, step, digest).db.settings == w.db.settings
  {
    hide Next;
    if step.SetsStatus? || step.Submits? || step.Decides? || step.Configures? {
      StatusStepEffect(w, step, digest);
    } else if step.Concludes? {
      AnswersKeepSettings(w, step, digest);
    } else if IsRead(step) {
      ReadsLeaveTables(w, step, digest);
    } else if step.ReadsConnection? {
      ReadingKeepsSettings(w, step, digest);
    } else {
      AppWritesKeepSettings(w, step, digest);
    }
  }

  lemma AnswersKeepSettings(w: World, step: Step, digest: AppInput -> string)
    requires Enabled(w, step) && step.Concludes?
    ensures Next(w, step, digest).db.settings == w.db.settings
  {
    hide Judge;
  }

  lemma ReadingKeepsSettings(w: World, step: Step, digest: AppInput -> string)
    requires Enabled(w, step) && step.ReadsConnection?
    ensures Next(w, step, digest).db == w.db
  {
  }

  /** Saves that do not overlap never meet the guard. */
  lemma {:induction false} InTurnSharesNothing(w: World, steps: seq<Step>, digest: AppInput -> string)
    requires NoneAhead(w) && InTurn(w, steps, digest)
    ensures NothingShares(w, steps, digest)
    decreases |steps|
  {
    hide Next, NoneAhead, Shares;
    if steps != [] && Enabled(w, steps[0]) {
      InTurnStep(w, steps[0], digest);
      InTurnSharesNothing(Next(w, steps[0], digest), steps[1..], digest);
    }
  }

  /** In every run whose saves do not overlap, each revision has stood for one connection. */
  lemma {:induction false} SavesInTurnKeepRevisions(w0: World, steps: seq<Step>, w: World, digest: AppInput -> string)
    requires Initial(w0) && Reaches(w0, steps, w, digest) && InTurn(w0, steps, digest)
    ensures OneConnection(w.log.given)
  {
    InTurnSharesNothing(w0, steps, digest);
    RevisionsStayApartExactly(w0, steps, w, digest);
  }

  // ---- What it does to labels ----

  /** After a late write any app, verified before or not, reads as verified exactly when its attached answer approves
      the challenge it carries and came over the revision the write gives: the one read, or the next if the form changes
      the connection. */
  lemma LateWriteDecidesLabelExactly(db: Db, before: Settings, enabled: bool, baseUrl: string, timeoutSeconds: int,
                                     newKey: Option<string>, a: Uuid)
    requires a in db.apps && SavedSettings(before, enabled, baseUrl, timeoutSeconds, newKey).Ok?
    ensures Verified(db.(settings := SavedSettings(before, enabled, baseUrl, timeoutSeconds, newKey).value), a)
            <==> && AnswerStands(db, a)
                 && AnswerRevision(db, a) == before.revision + (if Changes(before, baseUrl, newKey) then 1 else 0)
  {
    SavedRevision(before, enabled, baseUrl, timeoutSeconds, newKey);
    SettingsDecide(db, SavedSettings(before, enabled, baseUrl, timeoutSeconds, newKey).value, a);
    hide SavedSettings, Changes;
  }
}
