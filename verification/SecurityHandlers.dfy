/** One verification request run on its own, and runs that show where the gate's promise stops. */
module SecurityHandlers {
  import opened Wrappers
  import opened Uuids
  import opened SecurityBinding
  import opened SecCheck
  import opened Catalog
  import opened Repository
  import opened Runs
  import CatalogEffects
  import opened SecurityProof

  datatype RefreshAnswer =
    | AppNotFound
    | ReviewRequired
    | NotConfigured
    | FetchFailed
    | Finished(conclusion: Conclusion)

  /** A request that has read everything there is now, and looked the review's row up. */
  function Answered(db: Db, id: Uuid, version: nat, review: Review): Session
    requires id in db.apps
  {
    ReadBinding(db, ReviewFetched(id, db.settings, db.apps[id].nonce, BindingInput(db.apps[id]), version, review))
  }

  /** The request's steps with nothing in between; `remote` is what SecCheck answers, if it answers. */
  function Refresh(db: Db, id: Uuid, requested: string, remote: Option<Review>, now: int,
                   digest: AppInput -> string): (RefreshAnswer, Db) {
    var challenge := ReadChallenge(db, ReadSettings(db, Started(id, requested)));
    if id !in db.apps then (AppNotFound, db)
    else if challenge.None? then (ReviewRequired, db)
    else
      var content := ReadApp(db, challenge.value, 0);
      if content.None? then (NotConfigured, db)
      else if remote.None? then (FetchFailed, db)
      else
        var c := content.value;
        var fetched := ReviewFetched(c.app, c.settings, c.nonce, c.input, c.version, remote.value);
        var done := Conclude(db, ReadBinding(db, fetched), now, digest);
        (Finished(done.0), done.1)
  }

  /** The review a request is about: the one asked for, or else the attached one whose row is there. */
  ghost predicate Concerns(db: Db, id: Uuid, requested: string, reviewId: string) {
    id in db.apps &&
    if requested != "" then reviewId == requested
    else db.apps[id].reviewId == Some(reviewId) && reviewId in db.checks && reviewId != ""
  }

  /** The answer is about this app as it is, and no other app has the review. */
  ghost predicate Fits(db: Db, id: Uuid, review: Review, digest: AppInput -> string) {
    && id in db.apps
    && BindingMatches(review.description, BindingText(id, db.apps[id].nonce, BindingInput(db.apps[id]), digest))
    && review.serviceName == db.apps[id].name != ""
    && (review.id in db.checks ==> db.checks[review.id].appId == Some(id))
  }

  /** What re-reading a review does: a fitting answer that withholds approval on either axis, or gives it in time, is
      stored, every column of it, and then decides the label; any other answer changes nothing. */
  ghost predicate Reread(db: Db, after: Db, id: Uuid, review: Review, now: int, digest: AppInput -> string) {
    if Fits(db, id, review, digest)
       && (review.status != StatusApproved || review.finalResult != ResultApproved || ApprovedInTime(review, now))
    then var result := CheckResult(review.id, review.number, review.status, review.finalResult, review.approvedAt);
         && CatalogEffects.Recorded(db, after, id, result, now)
         && (Verified(after, id) <==> ApprovedInTime(review, now))
    else after == db
  }

  /** An answer the client accepts, for the review the request is about, over a configured connection. */
  ghost predicate Answers(db: Db, id: Uuid, requested: string, remote: Option<Review>) {
    && remote.Some? && Concerns(db, id, requested, remote.value.id) && Fetched(remote.value, remote.value.id)
    && db.settings.baseUrl != "" && db.settings.apiKey != ""
  }

  method RefreshAppSecurityCheck(repository: Repository, id: Uuid, requested: string, remote: Option<Review>,
                                 now: int, digest: AppInput -> string) returns (answer: RefreshAnswer)
    requires repository.Valid()
    modifies repository
    ensures repository.Valid()
    ensures (answer, repository.Snapshot()) == Refresh(old(repository.Snapshot()), id, requested, remote, now, digest)
    ensures Answers(old(repository.Snapshot()), id, requested, remote) ==>
              Reread(old(repository.Snapshot()), repository.Snapshot(), id, remote.value, now, digest)
  {
    hide Reread, Answers;
    if Answers(repository.Snapshot(), id, requested, remote) {
      RereadDecidesExactly(repository.Snapshot(), id, requested, remote, now, digest);
    }
    var settings := repository.settings;
    if id !in repository.apps {
      return AppNotFound;
    }
    var nonce := repository.apps[id].nonce;
    var attached := repository.apps[id].reviewId;
    var reviewId := requested;
    if reviewId == "" && attached.Some? && attached.value in repository.checks {
      reviewId := attached.value;
    }
    if reviewId == "" {
      return ReviewRequired;
    }
    var input := BindingInput(repository.apps[id]);
    if settings.baseUrl == "" || settings.apiKey == "" {
      return NotConfigured;
    }
    if remote.None? {
      return FetchFailed;
    }
    var review := remote.value;
    var verdict := Verify(remote, BindingText(id, nonce, input, digest), input.name, now);
    if !Recordable(verdict) {
      return Finished(Refused(verdict));
    }
    var reply := repository.RecordAppSecurityCheck(id, nonce, settings.revision, ResultOf(review), now);
    return Finished(Attempted(verdict, reply));
  }

  // ---- The undisturbed request ----

  lemma {:induction false} RunsJoin(w: World, s: seq<Step>, m: World, t: seq<Step>, end: World,
                                    digest: AppInput -> string)
    requires Reaches(w, s, m, digest) && Reaches(m, t, end, digest)
    ensures Reaches(w, s + t, end, digest)
    decreases |s|
  {
    if s == [] {
      assert s + t == t;
    } else {
      assert (s + t)[1..] == s[1..] + t;
      RunsJoin(Next(w, s[0], digest), s[1..], m, t, end, digest);
    }
  }

  lemma {:induction false} OneStep(w: World, step: Step, digest: AppInput -> string)
    requires Enabled(w, step)
    ensures Reaches(w, [step], Next(w, step, digest), digest)
  {
    var rest := [step][1..];
    assert rest == [];
    assert Reaches(Next(w, step, digest), rest, Next(w, step, digest), digest);
  }

  lemma {:induction false} Then(w: World, s: seq<Step>, m: World, step: Step, digest: AppInput -> string)
    requires Reaches(w, s, m, digest) && Enabled(m, step)
    ensures Reaches(w, s + [step], Next(m, step, digest), digest)
  {
    OneStep(m, step, digest);
    RunsJoin(w, s, m, [step], Next(m, step, digest), digest);
  }

  /** A review that approves the block the app shows now, and is not another app's. */
  ghost predicate ApprovesNow(db: Db, id: Uuid, review: Review, now: int, digest: AppInput -> string) {
    && id in db.apps && db.settings.baseUrl != "" && db.settings.apiKey != ""
    && Fetched(review, review.id)
    && (review.id in db.checks ==> db.checks[review.id].appId == Some(id))
    && Verify(Some(review), BindingText(id, db.apps[id].nonce, BindingInput(db.apps[id]), digest), db.apps[id].name,
              now) == Approves
  }

  /** What an approving request that found the row its own or missing stores. */
  lemma ApprovalStored(db: Db, s: Session, now: int, digest: AppInput -> string)
    requires s.BindingRead? && Judge(s, now, digest) == Approves && s.bound in {None, Some(Some(s.app))}
    requires s.app in db.apps && db.apps[s.app].nonce == s.nonce && db.settings.revision == s.settings.revision
    requires ValidStatus(s.review.status) && Text.Trim(s.review.id) != ""
    ensures var (done, after) := Conclude(db, s, now, digest);
            && done == Attempted(Approves, Ok(()))
            && after == db.(apps := after.apps, checks := after.checks)
            && after.apps == db.apps[s.app := db.apps[s.app].(reviewId := Some(s.review.id))]
  {
    hide Judge, ValidStatus, Text.Trim;
  }

  lemma ApprovingSession(db: Db, id: Uuid, review: Review, now: int, digest: AppInput -> string)
    requires ApprovesNow(db, id, review, now, digest)
    ensures var s := Answered(db, id, 0, review);
            && Judge(s, now, digest) == Approves && s.bound in {None, Some(Some(id))}
            && ValidStatus(review.status) && Text.Trim(review.id) == review.id != ""
  {
    hide Verify, BindingText;
    ReviewIdIsTrimmed(review.id);
  }

  /** Left undisturbed, a request for an approving review leaves the app verified, and nothing else changed. */
  lemma UndisturbedApprovalClears(db: Db, id: Uuid, review: Review, now: int, digest: AppInput -> string)
    requires ApprovesNow(db, id, review, now, digest)
    ensures var (answer, after) := Refresh(db, id, review.id, Some(review), now, digest);
            && answer == Finished(Attempted(Approves, Ok(())))
            && after == db.(apps := after.apps, checks := after.checks)
            && after.apps == db.apps[id := db.apps[id].(reviewId := Some(review.id))] && Verified(after, id)
  {
    var s := Answered(db, id, 0, review);
    ApprovingSession(db, id, review, now, digest);
    hide Refresh, Conclude, Judge, Verified, Verify, Fetched, ValidStatus, Text.Trim;
    ApprovalStored(db, s, now, digest);
    FetchedRefresh(db, id, review, now, digest);
    StoredVerdictVerifiesExactly(db, s, now, digest);
  }

  /** A request that answers without an error did verify the app. */
  lemma SuccessMeansVerified(db: Db, id: Uuid, requested: string, remote: Option<Review>, now: int,
                             digest: AppInput -> string)
    ensures var (answer, after) := Refresh(db, id, requested, remote, now, digest);
            answer == Finished(Attempted(Approves, Ok(()))) ==> id in after.apps && Verified(after, id)
  {
    if id in db.apps && remote.Some? {
      var s := Answered(db, id, 0, remote.value);
      StoredVerdictVerifiesExactly(db, s, now, digest);
    }
  }

  /** The answers of a request that never gets to judge a review. */
  lemma UnansweredExactly(db: Db, id: Uuid, requested: string, remote: Option<Review>, now: int,
                          digest: AppInput -> string)
    ensures var (answer, after) := Refresh(db, id, requested, remote, now, digest);
            && (answer == AppNotFound <==> id !in db.apps)
            && (answer == ReviewRequired <==> id in db.apps && forall r :: !Concerns(db, id, requested, r))
            && (answer == NotConfigured <==>
                  && (exists r :: Concerns(db, id, requested, r))
                  && (db.settings.baseUrl == "" || db.settings.apiKey == ""))
            && (answer == FetchFailed <==>
                  && (exists r :: Concerns(db, id, requested, r)) && db.settings.baseUrl != ""
                  && db.settings.apiKey != "" && remote.None?)
            && (!answer.Finished? ==> after == db)
  {
    hide Conclude;
    if id in db.apps {
      var r := if requested != "" then requested else AttachedReview(db, id);
      assert r != "" <==> Concerns(db, id, requested, r);
      assert forall q :: Concerns(db, id, requested, q) ==> q == r;
    }
  }

  /** So it is for every request that runs undisturbed and gets such an answer. */
  lemma RereadDecidesExactly(db: Db, id: Uuid, requested: string, remote: Option<Review>, now: int,
                             digest: AppInput -> string)
    requires Answers(db, id, requested, remote)
    ensures Reread(db, Refresh(db, id, requested, remote, now, digest).1, id, remote.value, now, digest)
  {
    var review := remote.value;
    var s := Answered(db, id, 0, review);
    ReviewIdIsTrimmed(review.id);
    assert Refresh(db, id, requested, remote, now, digest).1 == Conclude(db, s, now, digest).1 by {
      hide Conclude;
    }
    JudgedExactly(db, id, review, now, digest);
    hide Refresh, Judge, BindingText, BindingMatches, Verify, Fetched, ApprovedInTime, Text.Trim, SaysApproved;
    CatalogEffects.RecordingExactly(db, id, s.nonce, s.settings.revision, ResultOf(review), now);
    StoredVerdictVerifiesExactly(db, s, now, digest);
  }

  lemma JudgedExactly(db: Db, id: Uuid, review: Review, now: int, digest: AppInput -> string)
    requires id in db.apps && Fetched(review, review.id)
    ensures var verdict := Judge(Answered(db, id, 0, review), now, digest);
            && (Recordable(verdict) <==>
                  && BindingMatches(review.description,
                                    BindingText(id, db.apps[id].nonce, BindingInput(db.apps[id]), digest))
                  && review.serviceName == db.apps[id].name != ""
                  && (review.status != StatusApproved || review.finalResult != ResultApproved
                      || ApprovedInTime(review, now)))
            && (verdict in {Approves, Refuses(Incomplete)} <==> Recordable(verdict) && ApprovedInTime(review, now))
  {
    var text := BindingText(id, db.apps[id].nonce, BindingInput(db.apps[id]), digest);
    hide BindingText, BindingMatches, Verify;
    VerdictsExactly(review, text, db.apps[id].name, now);
  }

  /** The world with one request at this stage. */
  function At(w: World, k: nat, s: Session): World {
    w.(sessions := w.sessions[k := s])
  }

  /** One step of a request leads from one world to another. */
  ghost predicate Leads(w: World, step: Step, w': World, digest: AppInput -> string) {
    Enabled(w, step) && Next(w, step, digest) == w'
  }

  lemma SettingsStep(w: World, k: nat, id: Uuid, reviewId: string, digest: AppInput -> string)
    ensures Leads(At(w, k, Started(id, reviewId)), ReadsSettings(k),
                  At(w, k, SettingsRead(id, reviewId, w.db.settings)), digest)
  {
    var after := Next(At(w, k, Started(id, reviewId)), ReadsSettings(k), digest);
    assert after.sessions == w.sessions[k := SettingsRead(id, reviewId, w.db.settings)];
  }

  lemma ChallengeStep(w: World, k: nat, id: Uuid, reviewId: string, settings: Settings, digest: AppInput -> string)
    requires id in w.db.apps && reviewId != ""
    ensures Leads(At(w, k, SettingsRead(id, reviewId, settings)), ReadsChallenge(k),
                  At(w, k, ChallengeRead(id, reviewId, settings, w.db.apps[id].nonce)), digest)
  {
    var after := Next(At(w, k, SettingsRead(id, reviewId, settings)), ReadsChallenge(k), digest);
    assert after.sessions == w.sessions[k := ChallengeRead(id, reviewId, settings, w.db.apps[id].nonce)];
  }

  lemma AppStep(w: World, k: nat, id: Uuid, reviewId: string, settings: Settings, nonce: Uuid,
                digest: AppInput -> string)
    requires id in w.db.apps && settings.baseUrl != "" && settings.apiKey != ""
    ensures Leads(At(w, k, ChallengeRead(id, reviewId, settings, nonce)), ReadsApp(k),
                  At(w, k, AppRead(id, reviewId, settings, nonce, BindingInput(w.db.apps[id]), Rewrites(w.log, id))),
                  digest)
  {
    hide Rewrites, BindingInput;
    var after := Next(At(w, k, ChallengeRead(id, reviewId, settings, nonce)), ReadsApp(k), digest);
    assert after.sessions
           == w.sessions[k := AppRead(id, reviewId, settings, nonce, BindingInput(w.db.apps[id]), Rewrites(w.log, id))];
  }

  lemma FetchStep(w: World, k: nat, s: Session, review: Review, digest: AppInput -> string)
    requires s.AppRead? && Fetched(review, s.reviewId)
    ensures Leads(At(w, k, s), Fetches(k, review),
                  At(w, k, ReviewFetched(s.app, s.settings, s.nonce, s.input, s.version, review)), digest)
  {
    var after := Next(At(w, k, s), Fetches(k, review), digest);
    assert after.sessions == w.sessions[k := ReviewFetched(s.app, s.settings, s.nonce, s.input, s.version, review)];
  }

  lemma BindingStep(w: World, k: nat, s: Session, digest: AppInput -> string)
    requires s.ReviewFetched?
    ensures Leads(At(w, k, s), ReadsBinding(k), At(w, k, ReadBinding(w.db, s)), digest)
  {
    var after := Next(At(w, k, s), ReadsBinding(k), digest);
    assert after.sessions == w.sessions[k := ReadBinding(w.db, s)];
  }

  lemma {:induction false} ThenTo(w: World, s: seq<Step>, m: World, step: Step, end: World, digest: AppInput -> string)
    requires Reaches(w, s, m, digest) && Leads(m, step, end, digest)
    ensures Reaches(w, s + [step], end, digest)
  {
    hide Next, Enabled;
    Then(w, s, m, step, digest);
  }

  /** What a request holds that has read the app as it is now. */
  function ReadNow(w: World, id: Uuid, reviewId: string): Session
    requires id in w.db.apps
  {
    AppRead(id, reviewId, w.db.settings, w.db.apps[id].nonce, BindingInput(w.db.apps[id]), Rewrites(w.log, id))
  }

  /** The reading half of an undisturbed request. */
  lemma {:induction false} ReadingRun(w: World, k: nat, id: Uuid, reviewId: string, digest: AppInput -> string)
    returns (steps: seq<Step>)
    requires k !in w.sessions && id in w.db.apps && w.db.settings.baseUrl != "" && w.db.settings.apiKey != ""
    requires reviewId != ""
    ensures Reaches(w, steps, At(w, k, ReadNow(w, id, reviewId)), digest)
  {
    var settings, nonce := w.db.settings, w.db.apps[id].nonce;
    OneStep(w, Begins(k, id, reviewId), digest);
    steps := [Begins(k, id, reviewId)];
    assert Reaches(w, steps, At(w, k, Started(id, reviewId)), digest);
    hide Next, At, Leads, Reaches;
    SettingsStep(w, k, id, reviewId, digest);
    ThenTo(w, steps, At(w, k, Started(id, reviewId)), ReadsSettings(k), At(w, k, SettingsRead(id, reviewId, settings)),
           digest);
    steps := steps + [ReadsSettings(k)];
    ChallengeStep(w, k, id, reviewId, settings, digest);
    ThenTo(w, steps, At(w, k, SettingsRead(id, reviewId, settings)), ReadsChallenge(k),
           At(w, k, ChallengeRead(id, reviewId, settings, nonce)), digest);
    steps := steps + [ReadsChallenge(k)];
    AppStep(w, k, id, reviewId, settings, nonce, digest);
    ThenTo(w, steps, At(w, k, ChallengeRead(id, reviewId, settings, nonce)), ReadsApp(k),
           At(w, k, ReadNow(w, id, reviewId)), digest);
    steps := steps + [ReadsApp(k)];
  }

  /** The run of an undisturbed request, up to the look-up of the review's row. */
  lemma {:induction false} AnsweredRun(w: World, k: nat, id: Uuid, review: Review, digest: AppInput -> string)
    returns (steps: seq<Step>)
    requires k !in w.sessions && id in w.db.apps && w.db.settings.baseUrl != "" && w.db.settings.apiKey != ""
    requires Fetched(review, review.id) && review.id != ""
    ensures Reaches(w, steps, At(w, k, Answered(w.db, id, Rewrites(w.log, id), review)), digest)
  {
    hide Next, At, Leads, Reaches, Fetched;
    var read := ReadNow(w, id, review.id);
    var fetched := ReviewFetched(read.app, read.settings, read.nonce, read.input, read.version, review);
    steps := ReadingRun(w, k, id, review.id, digest);
    FetchStep(w, k, read, review, digest);
    ThenTo(w, steps, At(w, k, read), Fetches(k, review), At(w, k, fetched), digest);
    steps := steps + [Fetches(k, review)];
    BindingStep(w, k, fetched, digest);
    ThenTo(w, steps, At(w, k, fetched), ReadsBinding(k), At(w, k, ReadBinding(w.db, fetched)), digest);
    steps := steps + [ReadsBinding(k)];
  }

  lemma FetchedRefresh(db: Db, id: Uuid, review: Review, now: int, digest: AppInput -> string)
    requires id in db.apps && db.settings.baseUrl != "" && db.settings.apiKey != "" && review.id != ""
    ensures var done := Conclude(db, Answered(db, id, 0, review), now, digest);
            Refresh(db, id, review.id, Some(review), now, digest) == (Finished(done.0), done.1)
  {
    hide Conclude;
  }

  lemma VersionIsHistory(db: Db, id: Uuid, version: nat, review: Review, now: int, digest: AppInput -> string)
    requires id in db.apps
    ensures Conclude(db, Answered(db, id, version, review), now, digest)
            == Conclude(db, Answered(db, id, 0, review), now, digest)
  {
    hide Verify, StoreCheck;
  }

  lemma ConcludeStep(w: World, k: nat, s: Session, now: int, digest: AppInput -> string)
    requires s.BindingRead?
    ensures Leads(At(w, k, s), Concludes(k, now), AfterConclude(At(w, k, s), k, now, digest), digest)
  {
    hide AfterConclude;
  }

  predicate Stored(done: Conclusion) {
    done.Attempted? && done.reply.Ok?
  }

  /** Concluding takes the request off the list, and leaves the rest but the tables and, if the answer is stored, the
      record of what was compared. */
  lemma ConcludedAt(w: World, k: nat, s: Session, now: int, digest: AppInput -> string)
    requires k !in w.sessions && s.BindingRead?
    ensures var end, done := AfterConclude(At(w, k, s), k, now, digest), Conclude(w.db, s, now, digest);
            && end == w.(db := done.1, log := end.log)
            && end.log == if !Stored(done.0) then w.log else
                 w.log.(provenance := w.log.provenance[s.review.id :=
                          Provenance(s.app, s.nonce, s.input, s.version, LinkOf(s.settings), s.review, now)])
  {
    hide Conclude;
    assert At(w, k, s).sessions - {k} == w.sessions;
  }

  /** The steps of an undisturbed request in a run do what the handler does in one go. */
  lemma {:induction false} UndisturbedRunIsRefresh(w: World, k: nat, id: Uuid, review: Review, now: int,
                                                   digest: AppInput -> string)
    returns (steps: seq<Step>, end: World)
    requires k !in w.sessions && id in w.db.apps && w.db.settings.baseUrl != "" && w.db.settings.apiKey != ""
    requires Fetched(review, review.id)
    ensures Reaches(w, steps, end, digest)
    ensures end == w.(db := Refresh(w.db, id, review.id, Some(review), now, digest).1, log := end.log)
    ensures var answer := Refresh(w.db, id, review.id, Some(review), now, digest).0;
            && answer.Finished?
            && end.log == if !Stored(answer.conclusion) then w.log else
                 w.log.(provenance := w.log.provenance[review.id :=
                          Provenance(id, w.db.apps[id].nonce, BindingInput(w.db.apps[id]), Rewrites(w.log, id),
                                     LinkOf(w.db.settings), review, now)])
  {
    assert review.id != "" by { ReviewIdIsTrimmed(review.id); }
    hide Reaches, Leads, AfterConclude, At, Refresh, Conclude, Next, Stored, Fetched, Rewrites, BoundTo;
    steps := AnsweredRun(w, k, id, review, digest);
    var s := Answered(w.db, id, Rewrites(w.log, id), review);
    end := AfterConclude(At(w, k, s), k, now, digest);
    ConcludedAt(w, k, s, now, digest);
    FetchedRefresh(w.db, id, review, now, digest);
    VersionIsHistory(w.db, id, Rewrites(w.log, id), review, now, digest);
    ConcludeStep(w, k, s, now, digest);
    ThenTo(w, steps, At(w, k, s), Concludes(k, now), end, digest);
    steps := steps + [Concludes(k, now)];
  }

  // ---- Where the promise stops ----

  /** An approved review of this app, carrying just the app's block, with `open` items left. */
  function ApprovalOf(db: Db, id: Uuid, reviewId: string, open: int, digest: AppInput -> string): Review
    requires id in db.apps
  {
    Review(reviewId, reviewId, db.apps[id].name, BindingText(id, db.apps[id].nonce, BindingInput(db.apps[id]), digest),
           StatusApproved, ResultApproved, Some(1), Blockers(Some(open), Some(0), Some(0)))
  }

  /** Neither marker is in a field the block quotes, and the name is one SecCheck can carry. */
  ghost predicate Reviewable(app: App) {
    && !FieldHolds(BindingInput(app), MARK) && !FieldHolds(BindingInput(app), END)
    && Text.Trim(app.name) != ""
  }

  /** The setting of the runs below: a connection, an app that can be reviewed, and an unused review. */
  ghost predicate Ready(db: Db, id: Uuid, reviewId: string) {
    && id in db.apps && Reviewable(db.apps[id]) && ValidReviewId(reviewId) && reviewId !in db.checks
    && db.settings.baseUrl != "" && db.settings.apiKey != ""
  }

  lemma ApprovalVerdict(db: Db, id: Uuid, reviewId: string, open: int, digest: AppInput -> string)
    requires IsDigest(digest) && Ready(db, id, reviewId)
    ensures var review := ApprovalOf(db, id, reviewId, open, digest);
            && Fetched(review, reviewId)
            && Verify(Some(review), BindingText(id, db.apps[id].nonce, BindingInput(db.apps[id]), digest),
                      db.apps[id].name, 0)
               == (if open == 0 then Approves else Refuses(Incomplete))
  {
    var block := BindingText(id, db.apps[id].nonce, BindingInput(db.apps[id]), digest);
    OwnBlockMatchesExactly(id, db.apps[id].nonce, BindingInput(db.apps[id]), digest);
    ReviewIdIsTrimmed(reviewId);
    OwnBlockVerdict(block, db.apps[id].name, reviewId, open);
  }

  lemma OwnBlockVerdict(block: string, name: string, reviewId: string, open: int)
    requires BindingMatches(block, block) && ValidReviewId(reviewId) && Text.Trim(name) != ""
    ensures var review := Review(reviewId, reviewId, name, block, StatusApproved, ResultApproved, Some(1),
                                 Blockers(Some(open), Some(0), Some(0)));
            Verify(Some(review), block, name, 0) == if open == 0 then Approves else Refuses(Incomplete)
  {
    assert name != "";
  }

  /** Every app without a marker in its fields can be cleared: some review does it. */
  lemma ReviewableAppsCanBeCleared(db: Db, id: Uuid, reviewId: string, digest: AppInput -> string)
    requires IsDigest(digest) && Ready(db, id, reviewId)
    ensures ApprovesNow(db, id, ApprovalOf(db, id, reviewId, 0, digest), 0, digest)
  {
    ApprovalVerdict(db, id, reviewId, 0, digest);
  }

  /** A review with items still open is refused to the owner, and yet the app then reads as verified. */
  lemma IncompleteReviewStillVerifies(db: Db, id: Uuid, reviewId: string, open: int, digest: AppInput -> string)
    requires IsDigest(digest) && Ready(db, id, reviewId) && open != 0
    ensures var (answer, after) := Refresh(db, id, reviewId, Some(ApprovalOf(db, id, reviewId, open, digest)), 0,
                                           digest);
            && answer == Finished(Attempted(Refuses(Incomplete), Ok(())))
            && id in after.apps && Verified(after, id)
  {
    ApprovalVerdict(db, id, reviewId, open, digest);
    ReviewIdIsTrimmed(reviewId);
    var s := Answered(db, id, 0, ApprovalOf(db, id, reviewId, open, digest));
    assert Judge(s, 0, digest) == Refuses(Incomplete);
    StoredVerdictVerifiesExactly(db, s, 0, digest);
  }

  /** From any such state, one undisturbed request clears the app and changes nothing else about it. */
  lemma {:induction false} ClearingRun(w: World, k: nat, id: Uuid, reviewId: string, digest: AppInput -> string)
    returns (steps: seq<Step>, end: World)
    requires IsDigest(digest) && k !in w.sessions && Ready(w.db, id, reviewId)
    ensures Reaches(w, steps, end, digest)
    ensures end == w.(db := w.db.(apps := end.db.apps, checks := end.db.checks),
                      log := w.log.(provenance := end.log.provenance))
    ensures id in end.db.apps && Verified(end.db, id)
    ensures end.db.apps == w.db.apps[id := w.db.apps[id].(reviewId := Some(reviewId))]
    ensures HasProvenance(end, id) && ContentMatched(end, id) && ProvenanceOf(end, id).link == LinkOf(w.db.settings)
  {
    var review := ApprovalOf(w.db, id, reviewId, 0, digest);
    ReviewableAppsCanBeCleared(w.db, id, reviewId, digest);
    UndisturbedApprovalClears(w.db, id, review, 0, digest);
    hide ApprovesNow, Refresh, Reaches, Verified, Verify;
    steps, end := UndisturbedRunIsRefresh(w, k, id, review, 0, digest);
  }

  /** A run in which an administrator's rewrite leaves an app verified for content no review described. */
  lemma {:induction false} RewrittenAppKeepsItsLabel(
      w: World, k: nat, id: Uuid, reviewId: string, summary: string, digest: AppInput -> string)
    returns (steps: seq<Step>, end: World)
    requires IsDigest(digest) && k !in w.sessions && Ready(w.db, id, reviewId)
    requires summary != w.db.apps[id].summary && !SlugTaken(w.db, w.db.apps[id].slug, id)
    ensures Reaches(w, steps, end, digest)
    ensures Mislabelled(end, id)
  {
    hide Next, Reaches, Verified, HasProvenance, ContentMatched, SlugTaken, AfterRewrite, Leads;
    var cleared: World;
    steps, cleared := ClearingRun(w, k, id, reviewId, digest);
    SlugStillFree(w.db, cleared.db, id);
    RewritingCleared(cleared, id, summary);
    RewriteStep(cleared, id, summary, digest);
    end := AfterRewrite(cleared, id, summary);
    var rewrite := Rewrite(cleared.db.apps[id], id, summary);
    ThenTo(w, steps, cleared, rewrite, end, digest);
    steps := steps + [rewrite];
  }

  /** The administrator's form with another summary and everything else as stored. */
  function Rewrite(app: App, id: Uuid, summary: string): Step {
    AdminUpdatesApp(id, Some(BindingInput(app).(summary := summary)), Some(app.categoryId), Some(app.status), 0)
  }

  function AfterRewrite(w: World, id: Uuid, summary: string): World
    requires id in w.db.apps
  {
    var app := w.db.apps[id];
    AfterAdminUpdate(w, id, Some(BindingInput(app).(summary := summary)), Some(app.categoryId), Some(app.status), 0)
  }

  /** Verified, for content that is not what its review was compared with. */
  ghost predicate Mislabelled(w: World, id: Uuid) {
    id in w.db.apps && Verified(w.db, id) && HasProvenance(w, id) && !ContentMatched(w, id)
  }

  lemma RewritingCleared(w: World, id: Uuid, summary: string)
    requires id in w.db.apps && Verified(w.db, id) && HasProvenance(w, id) && ContentMatched(w, id)
    requires summary != w.db.apps[id].summary && !SlugTaken(w.db, w.db.apps[id].slug, id)
    ensures Mislabelled(AfterRewrite(w, id, summary), id)
  {
    hide Verified, SlugTaken, HasProvenance, ContentMatched, AfterAdminUpdate, AdminUpdateApp, Next, Rewrite,
         SecurityRelevantChange, BindingInput, FormatUuid;
    var app := w.db.apps[id];
    var input := BindingInput(app).(summary := summary);
    OwnFormIsAccepted(w.db, id, summary);
    AdminUpdateKeepsLabelTruthfulExactly(w, id, input, app.categoryId, app.status, 0);
    SummaryIsRelevant(app, summary);
  }

  lemma RewriteStep(w: World, id: Uuid, summary: string, digest: AppInput -> string)
    requires id in w.db.apps
    ensures Leads(w, Rewrite(w.db.apps[id], id, summary), AfterRewrite(w, id, summary), digest)
  {
    hide AfterAdminUpdate, BindingInput;
  }

  lemma OwnFormIsAccepted(db: Db, id: Uuid, summary: string)
    requires id in db.apps && !SlugTaken(db, db.apps[id].slug, id)
    ensures var app := db.apps[id];
            AdminUpdateApp(db, id, Some(BindingInput(app).(summary := summary)), Some(app.categoryId),
                           Some(app.status), 0).0.Ok?
  {
    hide SlugTaken;
  }

  lemma SummaryIsRelevant(app: App, summary: string)
    requires summary != app.summary
    ensures var input := BindingInput(app).(summary := summary);
            SecurityRelevantChange(app, input.(categoryId := FormatUuid(app.categoryId)))
  {
  }

  lemma SlugStillFree(before: Db, after: Db, id: Uuid)
    requires id in before.apps && id in after.apps && !SlugTaken(before, before.apps[id].slug, id)
    requires after.apps == before.apps[id := after.apps[id]] && after.apps[id].slug == before.apps[id].slug
    ensures !SlugTaken(after, before.apps[id].slug, id)
  {
    forall other | other in after.apps && other != id ensures after.apps[other].slug != before.apps[id].slug {
      assert other in before.apps;
    }
  }

  /** The gate and a one-level workflow that publishes are both on. */
  ghost predicate OneLevelGate(db: Db) {
    db.settings.enabled && db.config.enabled && db.config.levels == 1 && db.config.autoPublish
  }

  lemma SubmittingCleared(db: Db, id: Uuid, submitter: Uuid, review: Uuid)
    requires OneLevelGate(db) && id in db.apps && Verified(db, id) && review !in db.reviews
    ensures var after := SubmitApp(db, id, submitter, review, 0).1;
            && after == db.(apps := db.apps[id := db.apps[id].(status := PendingReview)], reviews := after.reviews)
            && review in after.reviews && after.reviews[review] == NewReview(id, submitter, 1)
  {
  }

  lemma EditingSummary(db: Db, id: Uuid, summary: string, nonce: Uuid)
    requires id in db.apps && summary != db.apps[id].summary && !SlugTaken(db, db.apps[id].slug, id)
    ensures var input := BindingInput(db.apps[id]).(summary := summary);
            ParsedAs(input.categoryId, Some(db.apps[id].categoryId))
    ensures var input := BindingInput(db.apps[id]).(summary := summary);
            var after := UpdateApp(db, id, Some(input), Some(db.apps[id].categoryId), nonce).1;
            && after == db.(apps := after.apps) && id in after.apps && after.apps[id].reviewId.None?
  {
    forall u: Uuid | FormatUuid(u) == FormatUuid(db.apps[id].categoryId) ensures u == db.apps[id].categoryId {
      FormatInjective(u, db.apps[id].categoryId);
    }
  }

  lemma ApprovingLastLevel(db: Db, id: Uuid, submitter: Uuid, reviewer: Uuid, review: Uuid, next: Uuid)
    requires OneLevelGate(db) && id in db.apps && db.apps[id].reviewId.None? && submitter != reviewer
    requires review in db.reviews && db.reviews[review] == NewReview(id, submitter, 1)
    ensures var after := DecideReview(db, review, reviewer, Some(Approve), "", next, 0).1;
            && id in after.apps && after.apps[id].status == Published && after.settings.enabled && !Verified(after, id)
  {
  }

  /** Cleared, then submitted. */
  lemma {:induction false} ClearedAndSubmitted(
      w: World, k: nat, id: Uuid, reviewId: string, submitter: Uuid, review: Uuid, digest: AppInput -> string)
    returns (steps: seq<Step>, end: World)
    requires IsDigest(digest) && k !in w.sessions && Ready(w.db, id, reviewId) && OneLevelGate(w.db)
    requires !SlugTaken(w.db, w.db.apps[id].slug, id) && review !in w.issued && review !in w.db.reviews
    ensures Reaches(w, steps, end, digest) && end.issued == w.issued + {review}
    ensures id in end.db.apps && BindingInput(end.db.apps[id]) == BindingInput(w.db.apps[id]) && OneLevelGate(end.db)
    ensures !SlugTaken(end.db, end.db.apps[id].slug, id)
    ensures review in end.db.reviews && end.db.reviews[review] == NewReview(id, submitter, 1)
  {
    var cleared: World;
    steps, cleared := ClearingRun(w, k, id, reviewId, digest);
    SlugStillFree(w.db, cleared.db, id);
    SubmittingCleared(cleared.db, id, submitter, review);
    Then(w, steps, cleared, Submits(id, submitter, review, 0), digest);
    steps := steps + [Submits(id, submitter, review, 0)];
    end := AfterSubmit(cleared, id, submitter, review, 0);
    SlugStillFree(cleared.db, end.db, id);
  }

  /** Edited, then approved at the only level. */
  lemma {:induction false} EditedAndApproved(
      w: World, id: Uuid, summary: string, submitter: Uuid, reviewer: Uuid, review: Uuid, nonce: Uuid, next: Uuid,
      digest: AppInput -> string)
    returns (steps: seq<Step>, end: World)
    requires id in w.db.apps && OneLevelGate(w.db) && summary != w.db.apps[id].summary && submitter != reviewer
    requires !SlugTaken(w.db, w.db.apps[id].slug, id)
    requires review in w.db.reviews && w.db.reviews[review] == NewReview(id, submitter, 1)
    requires nonce !in w.issued && next !in w.issued && nonce != next
    ensures Reaches(w, steps, end, digest)
    ensures id in end.db.apps && end.db.apps[id].status == Published && end.db.settings.enabled && !Verified(end.db, id)
  {
    var app := w.db.apps[id];
    var edit := UpdatesApp(id, Some(BindingInput(app).(summary := summary)), Some(app.categoryId), nonce);
    EditingSummary(w.db, id, summary, nonce);
    OneStep(w, edit, digest);
    var edited := AfterUpdate(w, id, edit.input, edit.category, nonce);
    var approve := Decides(review, reviewer, Some(Approve), "", next, 0);
    ApprovingLastLevel(edited.db, id, submitter, reviewer, review, next);
    Then(w, [edit], edited, approve, digest);
    steps := [edit] + [approve];
    end := AfterDecide(edited, review, reviewer, Some(Approve), "", next, 0);
  }

  /** A run in which, with the gate on, a reviewer's approval publishes an app that is not verified: it was
      edited between its submission and the decision. */
  lemma {:induction false} ApprovalPublishesEditedApp(
      w: World, k: nat, id: Uuid, reviewId: string, summary: string, submitter: Uuid, reviewer: Uuid,
      review: Uuid, nonce: Uuid, next: Uuid, digest: AppInput -> string)
    returns (steps: seq<Step>, end: World)
    requires IsDigest(digest) && k !in w.sessions && Ready(w.db, id, reviewId) && OneLevelGate(w.db)
    requires summary != w.db.apps[id].summary && !SlugTaken(w.db, w.db.apps[id].slug, id) && submitter != reviewer
    requires review !in w.issued && nonce !in w.issued && next !in w.issued && review !in w.db.reviews
    requires review != nonce && review != next && nonce != next
    ensures Reaches(w, steps, end, digest)
    ensures id in end.db.apps && end.db.apps[id].status == Published && end.db.settings.enabled && !Verified(end.db, id)
  {
    var submitted: World;
    var rest: seq<Step>;
    steps, submitted := ClearedAndSubmitted(w, k, id, reviewId, submitter, review, digest);
    rest, end := EditedAndApproved(submitted, id, summary, submitter, reviewer, review, nonce, next, digest);
    RunsJoin(w, steps, submitted, rest, end, digest);
    steps := steps + rest;
  }
}
