/** Runs from a freshly migrated database that show where the promises of a label stop. */
module FreshDatabase {
  import opened Wrappers
  import opened Uuids
  import opened SecurityBinding
  import opened SecCheck
  import opened Catalog
  import opened Runs
  import opened SecurityProof
  import opened SecurityHandlers
  import opened ReviewOwners
  import Text

  /** A form with a plain name, slug and address. */
  function PlainForm(slug: string): AppInput {
    AppInput("Notes", slug, "", "", "", "", "https://n.example", "", [], [], "", "", false, false, "", "1", "public")
  }

  /** One level, published on approval, self-approval prevented. */
  function OneLevel(): WorkflowConfig {
    WorkflowConfig(true, 1, ["reviewer"], [], true, false, false, true)
  }

  function Registers(id: Uuid, nonce: Uuid, category: Uuid, slug: string): Step {
    CreatesApp(id, nonce, Some(PlainForm(slug)), Some(category), Some(Draft), 0)
  }

  /** SecCheck is connected with the gate on, the workflow is set, and a user registers an app. */
  function SetUp(id: Uuid, nonce: Uuid, category: Uuid): seq<Step> {
    [ReadsConnection(0), Connects(0, true, "s", 10, Some("key")), Configures(OneLevel()),
     Registers(id, nonce, category, "notes")]
  }

  lemma ShortHoldsNothing(s: string, p: string)
    requires |s| < |p|
    ensures !Text.Occurs(s, p)
  {
  }

  lemma PlainFormHolds(slug: string, p: string)
    requires |slug| < 20 < |p|
    ensures !FieldHolds(PlainForm(slug), p)
  {
    ShortHoldsNothing(PlainForm(slug).name, p);
    ShortHoldsNothing(slug, p);
    ShortHoldsNothing(PlainForm(slug).serviceUrl, p);
    ShortHoldsNothing(PlainForm(slug).version, p);
  }

  lemma EdgesStay(s: string)
    requires s != "" && !Text.IsSpace(s[0]) && !Text.IsSpace(s[|s| - 1])
    ensures Text.Trim(s) == s
  {
  }

  lemma ConnectingWorks(before: Settings)
    ensures var saved := SavedSettings(before, true, "s", 10, Some("key"));
            saved.Ok? && saved.value.enabled && saved.value.baseUrl == "s" && saved.value.apiKey == "key"
  {
    EdgesStay("s");
  }

  lemma ConfiguringWorks(db: Db)
    ensures var after := UpdateWorkflowConfig(db, OneLevel()).1;
            && after == db.(config := after.config)
            && after.config.enabled && after.config.levels == 1 && after.config.autoPublish
  {
    EdgesStay("reviewer");
    assert ["reviewer"][..0] == [];
    assert Text.Unique(["reviewer"]) == ["reviewer"];
  }

  lemma CreatingWorks(db: Db, id: Uuid, nonce: Uuid, category: Uuid, slug: string)
    requires |slug| < 20 && !SlugTaken(db, slug, id)
    ensures var after := CreateApp(db, id, nonce, Some(PlainForm(slug)), Some(category), Some(Draft), 0).1;
            && id in after.apps && after == db.(apps := db.apps[id := after.apps[id]]) && Reviewable(after.apps[id])
            && after.apps[id].summary == "" && after.apps[id].slug == slug && after.apps[id].nonce == nonce
            && !SlugTaken(after, slug, id)
  {
    var app := CreateApp(db, id, nonce, Some(PlainForm(slug)), Some(category), Some(Draft), 0).1.apps[id];
    PlainFormHolds(slug, MARK);
    PlainFormHolds(slug, END);
    EdgesStay(app.name);
  }

  /** What the runs below start from. */
  ghost predicate Prepared(w: World, id: Uuid, reviewId: string) {
    && Ready(w.db, id, reviewId) && OneLevelGate(w.db) && !SlugTaken(w.db, w.db.apps[id].slug, id)
    && w.db.apps.Keys == {id} && w.db.apps[id].summary == "" && w.db.apps[id].slug == "notes"
    && w.db.settings.baseUrl == "s" && w.db.reviews == map[] && w.sessions == map[] && w.saves == map[]
  }

  function ReadBy(w: World, k: nat): World {
    w.(saves := w.saves[k := w.db.settings])
  }

  lemma ReadLeads(w: World, k: nat, digest: AppInput -> string)
    requires k !in w.saves
    ensures Leads(w, ReadsConnection(k), ReadBy(w, k), digest)
  {
  }

  /** The first save of the settings, written right after it was read. */
  lemma {:induction false} ConnectLeads(w0: World, digest: AppInput -> string) returns (w: World)
    requires w0.saves == map[]
    ensures Leads(ReadBy(w0, 0), Connects(0, true, "s", 10, Some("key")), w, digest)
    ensures w == w0.(db := w0.db.(settings := w.db.settings), log := w.log)
    ensures w.db.settings.enabled && w.db.settings.baseUrl == "s" && w.db.settings.apiKey == "key"
  {
    ConnectingWorks(w0.db.settings);
    hide SavedSettings;
    w := Next(ReadBy(w0, 0), Connects(0, true, "s", 10, Some("key")), digest);
    assert w.saves == map[];
  }

  lemma ConfigureLeads(w: World, digest: AppInput -> string)
    ensures Leads(w, Configures(OneLevel()), w.(db := UpdateWorkflowConfig(w.db, OneLevel()).1), digest)
  {
    hide UpdateWorkflowConfig;
  }

  lemma RegisterLeads(w: World, id: Uuid, nonce: Uuid, category: Uuid, slug: string, digest: AppInput -> string)
    requires id !in w.issued && nonce !in w.issued && id != nonce
    ensures Leads(w, Registers(id, nonce, category, slug),
                  w.(db := CreateApp(w.db, id, nonce, Some(PlainForm(slug)), Some(category), Some(Draft), 0).1,
                     issued := w.issued + {id, nonce}), digest)
  {
    hide CreateApp, PlainForm;
  }

  /** From a fresh database to an app that is ready to be reviewed. */
  lemma {:induction false} PreparedIsReached(
      w0: World, id: Uuid, nonce: Uuid, category: Uuid, reviewId: string, digest: AppInput -> string)
    returns (w: World)
    requires Initial(w0) && id !in w0.issued && nonce !in w0.issued && id != nonce && ValidReviewId(reviewId)
    ensures Reaches(w0, SetUp(id, nonce, category), w, digest) && Prepared(w, id, reviewId)
    ensures w.issued == w0.issued + {id, nonce} && w.db.apps[id].nonce == nonce
  {
    hide Leads, Reaches, UpdateWorkflowConfig, CreateApp, Reviewable, PlainForm, OneLevel;
    ReadLeads(w0, 0, digest);
    var connected := ConnectLeads(w0, digest);
    ConfiguringWorks(connected.db);
    ConfigureLeads(connected, digest);
    var configured := connected.(db := UpdateWorkflowConfig(connected.db, OneLevel()).1);
    CreatingWorks(configured.db, id, nonce, category, "notes");
    RegisterLeads(configured, id, nonce, category, "notes", digest);
    var form := PlainForm("notes");
    w := configured.(db := CreateApp(configured.db, id, nonce, Some(form), Some(category), Some(Draft), 0).1,
                     issued := configured.issued + {id, nonce});
    FourSteps(w0, SetUp(id, nonce, category), ReadBy(w0, 0), connected, configured, w, digest);
  }

  lemma {:induction false} FourSteps(w0: World, steps: seq<Step>, w1: World, w2: World, w3: World, w4: World,
                                     digest: AppInput -> string)
    requires |steps| == 4 && Leads(w0, steps[0], w1, digest) && Leads(w1, steps[1], w2, digest)
    requires Leads(w2, steps[2], w3, digest) && Leads(w3, steps[3], w4, digest)
    ensures Reaches(w0, steps, w4, digest)
  {
    hide Next, Enabled;
    OneStep(w0, steps[0], digest);
    ThenTo(w0, [steps[0]], w1, steps[1], w2, digest);
    ThenTo(w0, [steps[0]] + [steps[1]], w2, steps[2], w3, digest);
    ThenTo(w0, [steps[0]] + [steps[1]] + [steps[2]], w3, steps[3], w4, digest);
    assert steps == [steps[0]] + [steps[1]] + [steps[2]] + [steps[3]];
  }

  /** A run from a fresh database in which an administrator's rewrite leaves an app verified for content that no
      review was compared with. */
  lemma {:induction false} FreshRunMislabels(
      w0: World, id: Uuid, nonce: Uuid, category: Uuid, reviewId: string, digest: AppInput -> string)
    returns (steps: seq<Step>, end: World)
    requires Initial(w0) && id !in w0.issued && nonce !in w0.issued && id != nonce && ValidReviewId(reviewId)
    requires IsDigest(digest)
    ensures Reaches(w0, steps, end, digest) && Mislabelled(end, id)
  {
    var w := PreparedIsReached(w0, id, nonce, category, reviewId, digest);
    hide Reaches, Ready;
    steps, end := RewrittenAppKeepsItsLabel(w, 0, id, reviewId, "rewritten", digest);
    RunsJoin(w0, SetUp(id, nonce, category), w, steps, end, digest);
    steps := SetUp(id, nonce, category) + steps;
  }

  /** A run from a fresh database in which, with the gate on, a reviewer's approval publishes an app that is not
      verified. */
  lemma {:induction false} FreshRunPublishesEdited(
      w0: World, id: Uuid, nonce: Uuid, category: Uuid, reviewId: string, submitter: Uuid, reviewer: Uuid,
      review: Uuid, rotated: Uuid, next: Uuid, digest: AppInput -> string)
    returns (steps: seq<Step>, end: World)
    requires Initial(w0) && ValidReviewId(reviewId) && IsDigest(digest) && submitter != reviewer
    requires |{id, nonce, review, rotated, next}| == 5 && {id, nonce, review, rotated, next} !! w0.issued
    ensures Reaches(w0, steps, end, digest)
    ensures id in end.db.apps && end.db.apps[id].status == Published && end.db.settings.enabled && !Verified(end.db, id)
  {
    var w := PreparedIsReached(w0, id, nonce, category, reviewId, digest);
    hide Reaches, Ready;
    steps, end := ApprovalPublishesEditedApp(w, 0, id, reviewId, "edited", submitter, reviewer, review, rotated, next,
                                             digest);
    RunsJoin(w0, SetUp(id, nonce, category), w, steps, end, digest);
    steps := SetUp(id, nonce, category) + steps;
  }

  // ---- Overlapping saves ----

  /** A save that changes the address it read, written over whatever is there. */
  function Written(w: World, k: nat, url: string): World
    requires k in w.saves
  {
    var saved := Settings(true, url, w.saves[k].apiKey, 10, w.saves[k].revision + 1);
    w.(db := w.db.(settings := saved), saves := w.saves - {k}, log := w.log.(given := w.log.given + {Given(saved)}))
  }

  predicate PlainUrl(url: string) {
    url != "" && !Text.IsSpace(url[0]) && !Text.IsSpace(url[|url| - 1]) && url[|url| - 1] != '/'
  }

  lemma WriteLeads(w: World, k: nat, url: string, digest: AppInput -> string)
    requires k in w.saves && PlainUrl(url) && url != w.saves[k].baseUrl && w.saves[k].apiKey != ""
    ensures Leads(w, Connects(k, true, url, 10, None), Written(w, k, url), digest)
  {
    EdgesStay(url);
    hide Text.Trim;
  }

  /** Two saves read the settings; the second to write comes when it comes. */
  lemma {:induction false} BothRead(w: World, digest: AppInput -> string) returns (steps: seq<Step>)
    requires w.saves == map[]
    ensures Reaches(w, steps, ReadBy(ReadBy(w, 0), 1), digest)
  {
    var w1 := ReadBy(w, 0);
    ReadLeads(w, 0, digest);
    ReadLeads(w1, 1, digest);
    hide Next, Enabled;
    OneStep(w, ReadsConnection(0), digest);
    steps := [ReadsConnection(0)];
    ThenTo(w, steps, w1, ReadsConnection(1), ReadBy(w1, 1), digest);
    steps := steps + [ReadsConnection(1)];
  }

  lemma RevisionDecides(db: Db, settings: Settings, a: Uuid)
    requires a in db.apps && Verified(db, a)
    ensures Verified(db.(settings := settings), a) <==> settings.revision == db.settings.revision
  {
  }

  /** Verified, over a connection that is not the one in use. */
  ghost predicate Mislinked(w: World, id: Uuid) {
    id in w.db.apps && Verified(w.db, id) && HasProvenance(w, id) && ProvenanceOf(w, id).link != LinkOf(w.db.settings)
  }

  lemma StillReady(w: World, id: Uuid, reviewId: string, settings: Settings)
    requires Prepared(w, id, reviewId) && settings.baseUrl != "" && settings.apiKey == w.db.settings.apiKey
    ensures Ready(w.db.(settings := settings), id, reviewId) && w.db.settings.apiKey != ""
  {
    hide Reviewable;
  }

  /** Both saves have read, one is written with another address, and the app is cleared over it. */
  lemma {:induction false} ClearedOverNewConnection(w: World, id: Uuid, reviewId: string, first: nat,
                                                    digest: AppInput -> string)
    returns (steps: seq<Step>, end: World)
    requires IsDigest(digest) && Prepared(w, id, reviewId) && first < 2
    ensures Reaches(w, steps, end, digest) && end.sessions == map[] && end.saves == map[1 - first := w.db.settings]
    ensures end.db.settings == Settings(true, "t", w.db.settings.apiKey, 10, w.db.settings.revision + 1)
    ensures w.db.settings.apiKey != "" && id in end.db.apps && Verified(end.db, id)
    ensures HasProvenance(end, id) && ProvenanceOf(end, id).link == LinkOf(end.db.settings)
  {
    hide Reaches, Ready, Verified, HasProvenance, ContentMatched, Leads, OneLevelGate, SlugTaken;
    var both := ReadBy(ReadBy(w, 0), 1);
    steps := BothRead(w, digest);
    var written := Written(both, first, "t");
    StillReady(w, id, reviewId, written.db.settings);
    WriteLeads(both, first, "t", digest);
    assert written.saves == map[1 - first := w.db.settings];
    ThenTo(w, steps, both, Connects(first, true, "t", 10, None), written, digest);
    steps := steps + [Connects(first, true, "t", 10, None)];
    var clearing;
    clearing, end := ClearingRun(written, 0, id, reviewId, digest);
    RunsJoin(w, steps, written, clearing, end, digest);
    steps := steps + clearing;
  }

  /** Two saves that read the same connection and change it to different ones: an app verified over the first is still
      verified over the second. */
  lemma {:induction false} OverlappingSaves(w: World, id: Uuid, reviewId: string, digest: AppInput -> string)
    returns (steps: seq<Step>, end: World)
    requires IsDigest(digest) && Prepared(w, id, reviewId)
    ensures Reaches(w, steps, end, digest) && Mislinked(end, id)
  {
    hide Reaches, Verified, Leads, Ready;
    var cleared: World;
    steps, cleared := ClearedOverNewConnection(w, id, reviewId, 0, digest);
    WriteLeads(cleared, 1, "u", digest);
    end := Written(cleared, 1, "u");
    RevisionDecides(cleared.db, end.db.settings, id);
    ThenTo(w, steps, cleared, Connects(1, true, "u", 10, None), end, digest);
    steps := steps + [Connects(1, true, "u", 10, None)];
  }

  /** A save that is written after two others moves the revision back: an app whose label the last of them took off is
      verified again, over a third connection. */
  lemma {:induction false} RevivingSave(w: World, id: Uuid, reviewId: string, digest: AppInput -> string)
    returns (steps: seq<Step>, off: World, last: Step, end: World)
    requires IsDigest(digest) && Prepared(w, id, reviewId)
    ensures Reaches(w, steps, off, digest) && id in off.db.apps && !Verified(off.db, id)
    ensures Leads(off, last, end, digest) && last.Connects?
    ensures Mislinked(end, id) && LinkOf(end.db.settings) !in {LinkOf(off.db.settings), LinkOf(w.db.settings)}
  {
    hide Reaches, Verified, Leads, Ready;
    var cleared: World;
    steps, cleared := ClearedOverNewConnection(w, id, reviewId, 1, digest);
    ReadLeads(cleared, 1, digest);
    var again := ReadBy(cleared, 1);
    WriteLeads(again, 1, "u", digest);
    off := Written(again, 1, "u");
    RevisionDecides(cleared.db, off.db.settings, id);
    last := Connects(0, true, "v", 10, None);
    WriteLeads(off, 0, "v", digest);
    end := Written(off, 0, "v");
    RevisionDecides(cleared.db, end.db.settings, id);
    ThenTo(w, steps, cleared, ReadsConnection(1), again, digest);
    steps := steps + [ReadsConnection(1)];
    ThenTo(w, steps, again, Connects(1, true, "u", 10, None), off, digest);
    steps := steps + [Connects(1, true, "u", 10, None)];
  }

  lemma {:induction false} FreshRunMislinks(
      w0: World, id: Uuid, nonce: Uuid, category: Uuid, reviewId: string, digest: AppInput -> string)
    returns (steps: seq<Step>, end: World)
    requires Initial(w0) && id !in w0.issued && nonce !in w0.issued && id != nonce && ValidReviewId(reviewId)
    requires IsDigest(digest)
    ensures Reaches(w0, steps, end, digest) && Mislinked(end, id)
  {
    var w := PreparedIsReached(w0, id, nonce, category, reviewId, digest);
    hide Reaches, Prepared;
    steps, end := OverlappingSaves(w, id, reviewId, digest);
    RunsJoin(w0, SetUp(id, nonce, category), w, steps, end, digest);
    steps := SetUp(id, nonce, category) + steps;
  }

  lemma {:induction false} FreshRunRevives(
      w0: World, id: Uuid, nonce: Uuid, category: Uuid, reviewId: string, digest: AppInput -> string)
    returns (steps: seq<Step>, off: World, last: Step, end: World)
    requires Initial(w0) && id !in w0.issued && nonce !in w0.issued && id != nonce && ValidReviewId(reviewId)
    requires IsDigest(digest)
    ensures Reaches(w0, steps, off, digest) && id in off.db.apps && !Verified(off.db, id)
    ensures Leads(off, last, end, digest) && last.Connects? && Mislinked(end, id)
  {
    var w := PreparedIsReached(w0, id, nonce, category, reviewId, digest);
    hide Reaches, Prepared, Leads, Mislinked, Verified;
    steps, off, last, end := RevivingSave(w, id, reviewId, digest);
    RunsJoin(w0, SetUp(id, nonce, category), w, steps, off, digest);
    steps := SetUp(id, nonce, category) + steps;
  }

  // ---- Two apps, one review ----

  /** The review is attached to both apps, its row names the first, and only the second is verified. */
  ghost predicate Rebound(db: Db, first: Uuid, second: Uuid, reviewId: string) {
    && first in db.apps && second in db.apps && db.apps[first].reviewId == db.apps[second].reviewId == Some(reviewId)
    && reviewId in db.checks && db.checks[reviewId].appId == Some(first)
    && !Verified(db, first) && Verified(db, second)
  }

  lemma AnswerOfApproval(db: Db, id: Uuid, version: nat, reviewId: string, digest: AppInput -> string)
    requires IsDigest(digest) && Ready(db, id, reviewId)
    ensures var s := Answered(db, id, version, ApprovalOf(db, id, reviewId, 0, digest));
            Judge(s, 0, digest) == Approves && s.bound.None? && Text.Trim(reviewId) == reviewId != ""
  {
    ApprovalVerdict(db, id, reviewId, 0, digest);
    ReviewIdIsTrimmed(reviewId);
  }

  lemma BothStored(db: Db, a: Session, b: Session, digest: AppInput -> string)
    requires a.BindingRead? && b.BindingRead? && a.bound.None? && b.bound.None? && a.app != b.app
    requires a.review.id == b.review.id
    requires a.review.id !in db.checks && Text.Trim(a.review.id) != ""
    requires Judge(a, 0, digest) == Approves && Judge(b, 0, digest) == Approves
    requires a.app in db.apps && b.app in db.apps && a.nonce == db.apps[a.app].nonce != db.apps[b.app].nonce == b.nonce
    requires a.settings.revision == b.settings.revision == db.settings.revision
    requires b.review.status == StatusApproved && b.review.finalResult == ResultApproved && b.review.approvedAt.Some?
    requires a.review.status == StatusApproved
    ensures var db1 := Conclude(db, a, 0, digest).1;
            Rebound(Conclude(db1, b, 0, digest).1, a.app, b.app, a.review.id)
  {
    hide Judge, Text.Trim;
  }

  /** A second app is registered beside the first. */
  lemma {:induction false} SecondApp(w: World, first: Uuid, id: Uuid, nonce: Uuid, category: Uuid, reviewId: string,
                                     digest: AppInput -> string)
    returns (end: World)
    requires Prepared(w, first, reviewId) && id !in w.issued && nonce !in w.issued && id != nonce && id != first
    ensures Leads(w, Registers(id, nonce, category, "tasks"), end, digest)
    ensures Ready(end.db, first, reviewId) && Ready(end.db, id, reviewId) && end.sessions == map[]
    ensures end.db.apps[id].nonce == nonce && end.db.apps[first] == w.db.apps[first]
  {
    CreatingWorks(w.db, id, nonce, category, "tasks");
    end := Next(w, Registers(id, nonce, category, "tasks"), digest);
    hide Reviewable;
  }

  /** Both requests look the review up before either stores its answer. */
  lemma {:induction false} BothLookedUp(w: World, a: Uuid, b: Uuid, reviewId: string, digest: AppInput -> string)
    returns (steps: seq<Step>, s: Session, t: Session)
    requires IsDigest(digest) && Ready(w.db, a, reviewId) && Ready(w.db, b, reviewId) && w.sessions == map[]
    ensures s == Answered(w.db, a, Rewrites(w.log, a), ApprovalOf(w.db, a, reviewId, 0, digest))
    ensures t == Answered(w.db, b, Rewrites(w.log, b), ApprovalOf(w.db, b, reviewId, 0, digest))
    ensures Reaches(w, steps, At(At(w, 0, s), 1, t), digest)
  {
    hide Reaches, Verify, Fetched, BindingText, Rewrites, Answered, Reviewable, ValidReviewId;
    ApprovalVerdict(w.db, a, reviewId, 0, digest);
    ApprovalVerdict(w.db, b, reviewId, 0, digest);
    s := Answered(w.db, a, Rewrites(w.log, a), ApprovalOf(w.db, a, reviewId, 0, digest));
    t := Answered(w.db, b, Rewrites(w.log, b), ApprovalOf(w.db, b, reviewId, 0, digest));
    AnswerOfApproval(w.db, a, 0, reviewId, digest);
    steps := AnsweredRun(w, 0, a, ApprovalOf(w.db, a, reviewId, 0, digest), digest);
    var more := AnsweredRun(At(w, 0, s), 1, b, ApprovalOf(w.db, b, reviewId, 0, digest), digest);
    RunsJoin(w, steps, At(w, 0, s), more, At(At(w, 0, s), 1, t), digest);
    steps := steps + more;
  }

  /** Then both store it. */
  lemma {:induction false} BothConcluded(w: World, s: Session, t: Session, digest: AppInput -> string)
    returns (end: World)
    requires w.sessions == map[] && s.BindingRead? && t.BindingRead?
    ensures Reaches(At(At(w, 0, s), 1, t), [Concludes(0, 0)] + [Concludes(1, 0)], end, digest)
    ensures end.db == Conclude(Conclude(w.db, s, 0, digest).1, t, 0, digest).1
  {
    var both := At(At(w, 0, s), 1, t);
    assert both == At(At(w, 1, t), 0, s);
    hide Next, AfterConclude, Conclude, Reaches, Enabled;
    var one := AfterConclude(both, 0, 0, digest);
    ConcludeStep(At(w, 1, t), 0, s, 0, digest);
    ConcludedAt(At(w, 1, t), 0, s, 0, digest);
    var rest := w.(db := one.db, log := one.log);
    assert one == At(rest, 1, t);
    end := AfterConclude(one, 1, 0, digest);
    ConcludeStep(rest, 1, t, 0, digest);
    ConcludedAt(rest, 1, t, 0, digest);
    OneStep(both, Concludes(0, 0), digest);
    ThenTo(both, [Concludes(0, 0)], one, Concludes(1, 0), end, digest);
  }

  /** A run from a fresh database in which two requests that look one review up at once attach it to two apps. */
  lemma {:induction false} FreshRunRebinds(
      w0: World, a: Uuid, nonceA: Uuid, b: Uuid, nonceB: Uuid, category: Uuid, reviewId: string,
      digest: AppInput -> string)
    returns (steps: seq<Step>, end: World)
    requires Initial(w0) && ValidReviewId(reviewId) && IsDigest(digest)
    requires |{a, nonceA, b, nonceB}| == 4 && {a, nonceA, b, nonceB} !! w0.issued
    ensures Reaches(w0, steps, end, digest) && Rebound(end.db, a, b, reviewId) && !BoundOk(end)
  {
    var first := PreparedIsReached(w0, a, nonceA, category, reviewId, digest);
    var w := SecondApp(first, a, b, nonceB, category, reviewId, digest);
    steps := SetUp(a, nonceA, category);
    hide Reaches, Ready, Leads;
    ThenTo(w0, steps, first, Registers(b, nonceB, category, "tasks"), w, digest);
    steps := steps + [Registers(b, nonceB, category, "tasks")];
    var looking, s, t := BothLookedUp(w, a, b, reviewId, digest);
    end := BothConcluded(w, s, t, digest);
    RunsJoin(w0, steps, w, looking, At(At(w, 0, s), 1, t), digest);
    RunsJoin(w0, steps + looking, At(At(w, 0, s), 1, t), [Concludes(0, 0)] + [Concludes(1, 0)], end, digest);
    steps := steps + looking + ([Concludes(0, 0)] + [Concludes(1, 0)]);
    AnswerOfApproval(w.db, a, Rewrites(w.log, a), reviewId, digest);
    AnswerOfApproval(w.db, b, Rewrites(w.log, b), reviewId, digest);
    ReboundAfter(w.db, s, t, reviewId, digest);
    ReboundIsUnbound(end, a, b, reviewId);
  }

  lemma ReboundAfter(db: Db, s: Session, t: Session, reviewId: string, digest: AppInput -> string)
    requires s.BindingRead? && t.BindingRead? && s.app != t.app && Ready(db, s.app, reviewId)
    requires Ready(db, t.app, reviewId)
    requires s == Answered(db, s.app, s.version, ApprovalOf(db, s.app, reviewId, 0, digest))
    requires t == Answered(db, t.app, t.version, ApprovalOf(db, t.app, reviewId, 0, digest))
    requires db.apps[s.app].nonce != db.apps[t.app].nonce && Text.Trim(reviewId) == reviewId
    requires Judge(s, 0, digest) == Approves && Judge(t, 0, digest) == Approves
    ensures Rebound(Conclude(Conclude(db, s, 0, digest).1, t, 0, digest).1, s.app, t.app, reviewId)
  {
    hide Judge, Conclude, BindingText, Reviewable;
    BothStored(db, s, t, digest);
  }

  lemma ReboundIsUnbound(w: World, a: Uuid, b: Uuid, reviewId: string)
    requires Rebound(w.db, a, b, reviewId) && a != b
    ensures !BoundOk(w)
  {
    assert !AttachedOk(w, b);
  }
}
