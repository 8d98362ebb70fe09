/** The store as it runs: one object whose transactions update its tables row by row. */
module Repository {
  import opened Wrappers
  import opened Text
  import opened Uuids
  import opened SecurityBinding
  import opened SecCheck
  import opened Catalog
  import opened CatalogEffects

  class Repository {
    var apps: map<Uuid, App>
    var checks: map<string, Check>
    var reviews: map<Uuid, ReviewRow>
    var settings: Settings
    var config: WorkflowConfig

    ghost function Snapshot(): Db
      reads this
    {
      Db(apps, checks, reviews, settings, config)
    }

    /** The foreign key of `reviews`. */
    ghost predicate Valid()
      reads this
    {
      forall r :: r in reviews ==> reviews[r].appId in apps
    }

    /** The tables as the migrations leave them. */
    constructor ()
      ensures Valid() && Snapshot() == Db(map[], map[], map[], Settings(false, "", "", 10, 1),
                                          WorkflowConfig(false, 1, ["reviewer"], ["team_leader"],
                                                         true, true, true, true))
    {
      apps, checks, reviews := map[], map[], map[];
      settings := Settings(false, "", "", 10, 1);
      config := WorkflowConfig(false, 1, ["reviewer"], ["team_leader"], true, true, true, true);
    }

    method SlugConflict(slug: string, id: Uuid) returns (taken: bool)
      ensures taken == SlugTaken(Snapshot(), slug, id)
    {
      taken := exists other :: other in apps && other != id && apps[other].slug == slug;
    }

    /** security_check.go's predicate, joined over the three tables. */
    method IsVerified(id: Uuid) returns (verified: bool)
      requires id in apps
      ensures verified == Verified(Snapshot(), id)
    {
      var app := apps[id];
      if app.reviewId.None? || app.reviewId.value !in checks {
        return false;
      }
      var check := checks[app.reviewId.value];
      verified := check.remoteStatus == StatusApproved && check.finalResult == ResultApproved && check.approvedAt.Some?
                  && check.capturedNonce == app.nonce && check.settingsRevision == settings.revision;
    }

    method CreateApp(id: Uuid, nonce: Uuid, input: Option<AppInput>, category: Option<Uuid>,
                     status: Option<AppStatus>, now: int) returns (reply: Result<()>)
      requires Valid() && id !in apps
      modifies this
      ensures Valid()
      ensures (reply, Snapshot()) == Catalog.CreateApp(old(Snapshot()), id, nonce, input, category, status, now)
      ensures reply.Err? ==> Snapshot() == old(Snapshot())
      ensures reply.Ok? ==>
                && input.Some? && category.Some? && status.Some?
                && Created(old(Snapshot()), Snapshot(), id, nonce, input.value, category.value, status.value, now)
    {
      hide Created;
      CreationExactly(Snapshot(), id, nonce, input, category, status, now);
      if input.None? || category.None? || status.None? {
        return Err(Invalid);
      }
      var i := input.value;
      var taken := SlugConflict(i.slug, id);
      if taken {
        return Err(Conflict);
      }
      apps := apps[id := App(i.name, i.slug, i.summary, i.description, i.icon, i.gradient, i.serviceUrl, category.value,
                             i.tags, i.screenshots, i.language, i.framework, i.supportsMcp, i.supportsApi, i.team,
                             i.version, i.visibility, nonce, None, status.value,
                             if status.value == Published then Some(now) else None)];
      return Ok(());
    }

    method UpdateApp(id: Uuid, input: Option<AppInput>, category: Option<Uuid>, nonce: Uuid) returns (reply: Result<()>)
      requires Valid()
      modifies this
      ensures Valid() && (reply, Snapshot()) == Catalog.UpdateApp(old(Snapshot()), id, input, category, nonce)
      ensures reply.Err? ==> Snapshot() == old(Snapshot())
      ensures reply.Ok? ==>
                && input.Some? && category.Some?
                && Edited(old(Snapshot()), Snapshot(), id, input.value, category.value, nonce)
    {
      hide Edited;
      EditExactly(Snapshot(), id, input, category, nonce);
      if input.None? || category.None? {
        return Err(Invalid);
      }
      if id !in apps {
        return Err(NotFound);
      }
      var before := apps[id];
      var taken := SlugConflict(input.value.slug, id);
      if taken {
        return Err(Conflict);
      }
      apps := apps[id := WithInput(before, input.value, category.value)];
      if SecurityRelevantChange(before, input.value) {
        RotateAppChallenge(id, nonce);
      }
      assert apps == Catalog.UpdateApp(old(Snapshot()), id, input, category, nonce).1.apps;
      return Ok(());
    }

    method RotateAppChallenge(id: Uuid, nonce: Uuid)
      requires Valid() && id in apps
      modifies this`apps
      ensures Valid() && apps == old(apps)[id := old(apps)[id].(nonce := nonce, reviewId := None)]
    {
      apps := apps[id := apps[id].(nonce := nonce, reviewId := None)];
    }

    method AdminUpdateApp(id: Uuid, input: Option<AppInput>, category: Option<Uuid>, status: Option<AppStatus>,
                          now: int)
      returns (reply: Result<()>)
      requires Valid()
      modifies this
      ensures Valid()
      ensures (reply, Snapshot()) == Catalog.AdminUpdateApp(old(Snapshot()), id, input, category, status, now)
      ensures reply.Err? ==> Snapshot() == old(Snapshot())
      ensures reply.Ok? ==>
                && input.Some? && category.Some? && status.Some?
                && AdminEdited(old(Snapshot()), Snapshot(), id, input.value, category.value, status.value, now)
    {
      hide AdminEdited;
      AdminEditExactly(Snapshot(), id, input, category, status, now);
      if input.None? || status.None? || category.None? {
        return Err(Invalid);
      }
      if id !in apps {
        return Err(NotFound);
      }
      var taken := SlugConflict(input.value.slug, id);
      if taken {
        return Err(Conflict);
      }
      var app := WithInput(apps[id], input.value, category.value);
      apps := apps[id := WithStatus(app, status.value, now)];
      return Ok(());
    }

    method DeleteApp(id: Uuid) returns (reply: Result<()>)
      requires Valid()
      modifies this
      ensures Valid() && (reply, Snapshot()) == Catalog.DeleteApp(old(Snapshot()), id)
      ensures reply.Err? ==> Snapshot() == old(Snapshot())
      ensures reply.Ok? ==> Removed(old(Snapshot()), Snapshot(), id)
      ensures id !in apps && forall r :: r in reviews ==> reviews[r].appId != id
    {
      hide Removed;
      DeletionExactly(Snapshot(), id);
      if id !in apps {
        return Err(NotFound);
      }
      apps := apps - {id};
      reviews := map r | r in reviews && reviews[r].appId != id :: reviews[r];
      checks := Orphaned(checks, id);
      return Ok(());
    }

    method SetAppStatus(id: Uuid, status: Option<AppStatus>, now: int) returns (reply: Result<()>)
      requires Valid()
      modifies this
      ensures Valid() && (reply, Snapshot()) == Catalog.SetAppStatus(old(Snapshot()), id, status, now)
      ensures reply.Err? ==> Snapshot() == old(Snapshot())
      ensures reply.Ok? ==>
                && status.Some? && id in old(apps) && OnlyRow(old(Snapshot()), Snapshot(), id)
                && Moved(apps[id], old(apps[id]), status.value, now)
    {
      hide OnlyRow, Moved;
      StatusExactly(Snapshot(), id, status, now);
      if status.None? {
        return Err(Invalid);
      }
      if id !in apps {
        return Err(NotFound);
      }
      var verified := IsVerified(id);
      if OpensToPublic(status.value) && settings.enabled && !verified {
        return Err(SecurityCheckRequired);
      }
      apps := apps[id := WithStatus(apps[id], status.value, now)];
      return Ok(());
    }

    method SubmitApp(id: Uuid, submitter: Uuid, review: Uuid, now: int) returns (reply: Result<Option<Uuid>>)
      requires Valid() && review !in reviews
      modifies this
      ensures Valid() && (reply, Snapshot()) == Catalog.SubmitApp(old(Snapshot()), id, submitter, review, now)
      ensures reply.Err? ==> Snapshot() == old(Snapshot())
      ensures reply.Ok? ==> Submission(old(Snapshot()), Snapshot(), id, submitter, review, now)
    {
      hide Submission, Verified, WithStatus;
      if id !in apps {
        return Err(NotFound);
      }
      if settings.enabled {
        var verified := IsVerified(id);
        if !verified {
          return Err(SecurityCheckRequired);
        }
      }
      reviews := CancelPending(reviews, id, now);
      if config.enabled {
        reviews := reviews[review := NewReview(id, submitter, 1)];
        apps := apps[id := apps[id].(status := PendingReview)];
        reply := Ok(Some(review));
      } else {
        apps := apps[id := WithStatus(apps[id], Published, now)];
        reply := Ok(None);
      }
      assert (reply, Snapshot()) == Catalog.SubmitApp(old(Snapshot()), id, submitter, review, now);
      SubmissionDoes(old(Snapshot()), id, submitter, review, now);
    }

    method DecideReview(review: Uuid, reviewer: Uuid, decision: Option<Decision>, reason: string, next: Uuid, now: int)
      returns (reply: Result<DecisionResult>)
      requires Valid() && next !in reviews
      modifies this
      ensures Valid()
      ensures (reply, Snapshot())
              == Catalog.DecideReview(old(Snapshot()), review, reviewer, decision, reason, next, now)
      ensures reply.Err? ==> Snapshot() == old(Snapshot())
      ensures reply.Ok? ==>
                && decision.Some?
                && Decided(old(Snapshot()), Snapshot(), review, reviewer, decision.value, reason, next, now)
    {
      hide Decided, Trim;
      var note := Trim(reason);
      if decision.None? {
        return Err(Invalid);
      }
      if review !in reviews {
        return Err(NotFound);
      }
      var row := reviews[review];
      if row.status != Pending {
        return Err(Conflict);
      }
      if config.preventSelfApproval && reviewer == row.submitterId {
        return Err(Forbidden);
      }
      if decision.value == Reject && config.rejectReasonRequired && note == "" {
        return Err(Invalid);
      }
      var status := if decision.value == Approve then ReviewApproved else ReviewRejected;
      reviews := reviews[review := row.(reviewerId := Some(reviewer), status := status, reason := note,
                                        decidedAt := Some(now))];

      var appStatus := PendingReview;
      var nextReview: Option<Uuid> := None;
      if decision.value == Reject {
        appStatus := Rejected;
        apps := apps[row.appId := apps[row.appId].(status := Rejected)];
      } else if config.enabled && row.level < config.levels {
        reviews := reviews[next := NewReview(row.appId, row.submitterId, row.level + 1)];
        nextReview := Some(next);
      } else if config.autoPublish || !config.enabled {
        appStatus := Published;
        apps := apps[row.appId := WithStatus(apps[row.appId], Published, now)];
      }
      reply := Ok(DecisionResult(nextReview, appStatus));
      assert (reply, Snapshot())
             == Catalog.DecideReview(old(Snapshot()), review, reviewer, decision, reason, next, now);
      DecisionDoes(old(Snapshot()), review, reviewer, decision, reason, next, now);
    }

    method UpdateWorkflowConfig(changed: WorkflowConfig) returns (reply: Result<()>)
      requires Valid()
      modifies this
      ensures Valid() && (reply, Snapshot()) == Catalog.UpdateWorkflowConfig(old(Snapshot()), changed)
      ensures reply.Err? ==> Snapshot() == old(Snapshot())
      ensures reply.Ok? <==> 1 <= changed.levels <= 10 && exists i :: 0 <= i < |changed.reviewerRoles|
                                                                     && Trim(changed.reviewerRoles[i]) != ""
      ensures reply.Ok? ==> Configured(old(Snapshot()), Snapshot(), changed)
    {
      hide Configured;
      ConfigurationExactly(Snapshot(), changed);
      var reviewers := UniqueStrings(changed.reviewerRoles);
      var leaders := UniqueStrings(changed.teamLeaderRoles);
      if changed.levels < 1 || changed.levels > 10 || |reviewers| == 0 {
        return Err(Invalid);
      }
      config := changed.(reviewerRoles := reviewers, teamLeaderRoles := leaders);
      return Ok(());
    }

    method UpdateSecurityCheckSettings(enabled: bool, baseUrl: string, timeoutSeconds: int, newKey: Option<string>)
      returns (reply: Result<()>)
      requires Valid()
      modifies this
      ensures Valid()
      ensures (reply, Snapshot()) == UpdateSecuritySettings(old(Snapshot()), enabled, baseUrl, timeoutSeconds, newKey)
      ensures reply.Err? ==> Snapshot() == old(Snapshot())
      ensures reply.Ok? ==> Saved(old(settings), settings, enabled, baseUrl, timeoutSeconds, newKey)
    {
      hide Saved;
      SettingsExactly(Snapshot(), enabled, baseUrl, timeoutSeconds, newKey);
      var url := TrimSlashes(Trim(baseUrl));
      if timeoutSeconds < 1 || timeoutSeconds > 60 {
        return Err(Invalid);
      }
      var key := settings.apiKey;
      if newKey.Some? {
        key := newKey.value;
      }
      if enabled && (url == "" || key == "") {
        return Err(Invalid);
      }
      var revision := settings.revision;
      if url != settings.baseUrl || key != settings.apiKey {
        revision := revision + 1;
      }
      settings := Settings(enabled, url, key, timeoutSeconds, revision);
      return Ok(());
    }

    method RecordAppSecurityCheck(id: Uuid, verifiedNonce: Uuid, revision: nat, result: CheckResult, now: int)
      returns (reply: Result<()>)
      requires Valid()
      modifies this
      ensures Valid()
      ensures (reply, Snapshot())
              == Catalog.RecordAppSecurityCheck(old(Snapshot()), id, verifiedNonce, revision, result, now)
      ensures reply.Err? ==> Snapshot() == old(Snapshot())
      ensures reply.Ok? ==> Recorded(old(Snapshot()), Snapshot(), id, result, now)
    {
      hide Recorded;
      RecordingExactly(Snapshot(), id, verifiedNonce, revision, result, now);
      if !ValidStatus(result.remoteStatus) || Trim(result.reviewId) == "" {
        return Err(Invalid);
      }
      if id !in apps {
        return Err(NotFound);
      }
      if apps[id].nonce != verifiedNonce {
        return Err(Conflict);
      }
      if settings.revision != revision {
        return Err(Conflict);
      }
      var boundTo := Some(id);
      if result.reviewId in checks {
        boundTo := checks[result.reviewId].appId;
        if boundTo != Some(id) {
          return Err(Conflict);
        }
      }
      checks := checks[result.reviewId := Check(boundTo, verifiedNonce, revision, result.reviewNumber,
                                                result.remoteStatus, result.finalResult, result.approvedAt, now)];
      apps := apps[id := apps[id].(reviewId := Some(result.reviewId))];
      return Ok(());
    }
  }
}
