# AppStore, modelled and verified

AppStore keeps an application catalog behind a review workflow and an external security review
(SecCheck). This project models the parts of it whose correctness is not visible in one function:
what a "verified" label means while edits, reconnections and verification requests interleave; what a
multi-level approval guarantees when its configuration changes under way; how many API keys a user and how many
guides an app can hold when requests overlap; what the streaming readers and writers agree on; and how the limiter,
the recorder, the migration runner, the guide sync and the silent sign-in relate to simple specifications that forget
nothing.

Every store operation is one function on a database value (`Catalog`, `ApiKeys`, `Guides`,
`Migrations`); a class with mutable tables runs the same transaction row by row and is proved equal to it
(`Repository`, `KeyStore`, `DocumentStore`, `Database`). Runs are sequences of such steps, with the steps
of a verification request separate from each other (`Runs`), and the theorems range over all runs. Four operations
decide on something they read and do not hold: recording a review looks its row up before it inserts it, and saving the
security settings reads the connection before it writes it, and both are two steps of every run in `Runs`; creating a
guide counts before it inserts (`DocumentSlots`), and rotating a key counts before it writes (`KeyOverlaps`). For each
there is the exact condition under which an overlap breaks what the operation is to keep; with nothing in between, the
halves are the whole (`UndisturbedRunIsRefresh`, `HalvesAreSave`, `DocumentStore.Create`, `HalvesAreRotation`). Facts
that one branch settles are lemmas without a row below: `HeldExactly`, `NewAppsWaitAsDrafts`, `SubmissionStartsByRule`,
`DecidableExactly`, `RelevantChangeIsAnyDifference`, `ReconnectingDropsEveryLabel`. What a transaction answers and leaves
behind is also stated apart from the function that computes it, row by row and column by column (`CatalogEffects`,
`KeyEffects`, `DocumentEffects`), and what a stream delivers on measures of events and of chunks (`SseDelivery`).
Loops keep their loops: the stream readers, the limiter's sweep, the recorder's eviction, nonce insertion,
migration loading and the sync are methods proved against recursive specifications, about which the
lemmas then speak.

| files | subject |
|---|---|
| `Text`, `Uuids`, `Splicing`, `Wrappers` | string searches, canonical identifiers, splicing, results |
| `SecurityBinding`, `SecCheck`, `Catalog`, `CatalogEffects`, `Repository` | the binding block, the verdict, the tables, their transactions and what these do to each column |
| `Runs`, `SecurityProof`, `SecurityLabels`, `SettingsOverlap`, `ReviewOwners`, `SecurityHandlers`, `FreshDatabase`, `Submissions` | interleaved runs and what "verified" means in them |
| `WorkflowProof`, `WorkflowRules`, `PublicationDates` | multi-level approval over whole runs, and its pure rules |
| `ApiKeys`, `KeyEffects`, `KeyStore`, `KeyOverlaps`, `RateLimiter` | key lifecycle, fixed-window limiter |
| `Like`, `SseClient`, `SseRoundTrip`, `SseProvider`, `SseProviderProof`, `SseDelivery`, `SseReader`, `Snippets`, `SnippetsProof` | text and stream transformations |
| `Violations`, `Migrations`, `MigrationFiles`, `SilentSso`, `Guides`, `DocumentEffects`, `GuidesProof`, `DocumentSlots` | bounded and resumable state |

## Where the code and its documentation part

Each of these is proved as a lemma about the code as it is, with the exact condition where there is one.

- An administrator's rewrite keeps the verified label although the content changed; the label still tells
  the truth exactly when nothing a reviewer was shown changed (`AdminUpdateKeepsLabelTruthfulExactly`,
  with the run `FreshRunMislabels`).
- A review with open items is "not one AppStore accepts" (internal/seccheck/review.go:16-18), but it is
  recorded, and the app then reads as verified (`StoredVerdictVerifiesExactly`, `IncompleteReviewStillVerifies`).
- The gate is described as passed by every transition into the queue or the catalog
  (internal/store/security_check.go:204-205); an approving decision, an administrator's update and the status given at
  creation pass it by, each under exactly known guards (`UnclearedOpensExactly`, `DecisionOpensExactly`,
  `AdminUpdateOpensExactly`, `CreationOpensExactly`, with the run `FreshRunPublishesEdited`).
- Moving the revision is to retire every approval read over the previous connection
  (internal/store/security_check.go:55-57); a save reads the revision unlocked, so one that overlaps others can give a
  revision to a second connection, and even bring back a label that a reconnection took off
  (`RevisionsStayApartExactly`, `LateWriteDecidesLabelExactly`, with the runs `FreshRunMislinks` and `FreshRunRevives`).
- A review bound to another app is to be refused outright (internal/store/security_check.go:127-129); two requests that
  look the same new review up at once attach it to two apps (`StepBindsExactly`, `ReviewsKeepTheirAppExactly`, with the
  run `FreshRunRebinds`).
- Editing a published app under the gate is meant to hold it as a draft
  (internal/httpapi/security_check_handlers.go:426-428); it stays published with its new content
  (`EditedAppStaysWhereItWas`). Re-reading the review keeps a cached badge from submitting only behind the
  button, not behind an edit (`ButtonSubmitsExactly`, `EditSubmitsExactly`, `CachedBadgeSubmitsThroughEdit`).
- An app whose name, slug, address or version holds a marker can never be cleared (`OwnBlockMatchesExactly`,
  `MarkerInFieldBlocksEveryReview`).
- Rotating an already expired key with no grace period moves its expiry later (`RotationDelaysExpiryExactly`);
  it stays dead all the same (`DeadKeyIsNeverAccepted`). A rotation locks its old key but not the user, so rotations of
  different keys that overlap pass the count together (`LateRotationBreaksTheBoundExactly`, with the run
  `OverfullFromEmpty`).
- An app is refused an eleventh guide (internal/store/app_documents.go:86-88), but the count and the insertion are two
  statements with nothing held in between: overlapping uploads pass ten (`InsertionBreaksTheBoundExactly`,
  `ElevenDocuments`).
- With the workflow off, a stored decision goes ahead where the pure rule refuses
  (`StoredDecisionFollowsRuleExactly`), and a decision can report a status it did not store
  (`ReportedStatusIsStoredExactly`).
- The browser rewrites line ends chunk by chunk, so a chunk border inside a CRLF pair changes the text
  (`ChunksReadLikeTheWholeExactly`) and can lose an event (`CutPairLosesAnEvent`).
- Sign-out is to be lifted "only when a session exists again" (web/src/features/auth/silent-sso.ts:11-14);
  any page that still believes in the old session lifts it: a stale tab (`StaleTabUndoesSignOut`), the very page that
  is signing out while its logout is on its way (`SameTabUndoesSignOut`), and one whose logout failed
  (`FailedLogoutForgetsSignOut`); `SignOutLastsExactly` has the exact condition. A flag that can be read
  but not written does not fail closed (`UnwritableMarkerLoops`).

## Model

| member | source | states |
|---|---|---|
| SecurityProof.VerifiedMeansMatched | internal/httpapi/security_check_handlers.go:332-378 | in every interleaving of the steps of verification requests and of saves of the settings with edits, decisions and deletions, an app that reads as verified has the identifier and challenge its approved review's description was matched against, over a connection the current revision has stood for, which is the one in use where no revision has stood for two, and exactly that content unless an administrator changed it since that request read it |
| SecurityProof.StepKeeps | internal/store/security_check.go:130-181 | every step of a run keeps the invariant behind it: identifiers and challenges fresh and no two apps with the same challenge, every connection in use or read on record under its revision, every stored check a recorded comparison |
| ReviewOwners.StepBindsExactly | internal/store/security_check.go:154-176 | a step leaves every review with the one app it was compared for exactly unless it stores an answer in a row that has come to name another app, or none, since it was looked up |
| ReviewOwners.ReviewsKeepTheirAppExactly | internal/store/security_check.go:154-176 | over every run: each review has its one app at every moment exactly when no step meets that guard |
| ReviewOwners.ReviewIsNeverRebound | internal/store/security_check.go:127-129 | in every run without such a step a review once attached to an app is never attached to another, then or later, even after the app is deleted |
| SecurityProof.OwnerEditDropsLabelExactly | internal/store/apps.go:294-340 | after an accepted owner's edit the label is on exactly when it was on before and the change is not a security-relevant one |
| SecurityProof.AdminUpdateKeepsLabelTruthfulExactly | internal/store/apps.go:411-445 | an administrator's rewrite keeps the label; the matched content is still the app's exactly when nothing a reviewer was shown changed |
| SecurityProof.StoredVerdictVerifiesExactly | internal/httpapi/security_check_handlers.go:358-366 | a recorded answer leaves the app verified exactly after an approval or a refusal only for open items |
| SecurityProof.UnclearedOpensExactly | internal/store/security_check.go:204-221 | in every run with the gate on, a step brings an app that is not verified into the queue or the catalog exactly when it is a publishing approval of its pending review, an administrator's accepted update to another open status, or its creation with an open status, each with its guards spelled out |
| SecurityProof.UngatedOpenExactly | internal/store/workflow.go:285-347 | the three kinds of step that pass the gate by, as an equivalence with guards on the tables before the step |
| SecurityLabels.LabelStepExactly | internal/store/security_check.go:18-29 | after any step an app reads as verified exactly when the step put the label on (an approving re-read, or a save that writes the revision a standing answer came over), or it was on and the step was no relevant owner's edit, deletion, save that moves the revision, non-approving re-read or other app's answer stored over its own |
| SecurityLabels.LabelRunExactly | internal/store/security_check.go:18-29 | over any run the label is what the last step that touched it made of it |
| SecurityLabels.VerifiedWhenDecidedExactly | internal/store/workflow.go:84-95 | from an accepted submission under the gate on, with no approving re-read in between, the app is still verified exactly when nothing that takes the label off came in between |
| SettingsOverlap.WriteSharesRevisionExactly | internal/store/security_check.go:58-98 | an accepted write gives a revision a second connection exactly when it changes the connection it read and another save has since used up the next revision for a different one |
| SettingsOverlap.RevisionsStayApartExactly | internal/store/security_check.go:58-98 | over every run: each revision has stood for one connection exactly when no write met that guard |
| SettingsOverlap.VerifiedOverTheConnectionInUse | internal/store/security_check.go:18-29 | in every run in which no write met that guard, an app that reads as verified was matched over the connection in use |
| SettingsOverlap.SavesInTurnKeepRevisions | internal/store/security_check.go:58-98 | in every run whose saves do not write over one another, each revision has stood for one connection |
| SettingsOverlap.LateWriteDecidesLabelExactly | internal/store/security_check.go:18-29 | after a late write any app, verified before or not, reads as verified exactly when its attached answer approves its challenge and came over the revision written: the one the save read, or the next if the form changes the connection |
| SecurityProof.SubmissionIsOfReviewedContent | internal/store/workflow.go:84-95 | in every run, a submission that passes the gate is matched as above, and of exactly the content the attached review was matched against unless an administrator changed it since that request read it |
| Catalog.EditKeepsContentExactly | internal/httpapi/security_check_handlers.go:222-230 | writing a form keeps the reviewed content exactly when category and every other field are the same |
| Catalog.SameStrings | internal/store/security_check.go:248-258 | the list comparison is equality of the lists |
| CatalogEffects.EditExactly | internal/store/apps.go:294-340 | when each answer to an owner's edit comes, and of an accepted edit every column of every app |
| SecurityHandlers.RefreshAppSecurityCheck | internal/httpapi/security_check_handlers.go:332-378 | the handler run by itself gives the answer and leaves the tables that its separate steps give; an answer about the app as it is, under its name and in a free or own row, that withholds approval on either axis or gives it in time is stored, every column of it, and decides the label: off unless approved; any other answer changes nothing |
| SecurityHandlers.RereadDecidesExactly | internal/httpapi/security_check_handlers.go:355-378 | the same of every undisturbed request over a configured connection, whether it names its review or means the attached one |
| SecurityHandlers.UnansweredExactly | internal/httpapi/security_check_handlers.go:332-354 | which of the four answers a request gets that never judges a review, and that it changes nothing |
| SecurityHandlers.UndisturbedRunIsRefresh | internal/httpapi/security_check_handlers.go:332-378 | the separate steps of one request with nothing in between reach the handler's result |
| SecurityHandlers.UndisturbedApprovalClears | internal/httpapi/security_check_handlers.go:355-378 | an approving review of the app as it is clears it |
| SecurityHandlers.SuccessMeansVerified | internal/httpapi/security_check_handlers.go:375-378 | an answer without an error means the app is verified |
| SecurityHandlers.ReviewableAppsCanBeCleared | internal/httpapi/security_check_handlers.go:203-220 | every app without a marker in its quoted fields has a review that clears it |
| SecurityHandlers.IncompleteReviewStillVerifies | internal/httpapi/security_check_handlers.go:358-366 | a review refused for open items leaves the app verified |
| SecurityHandlers.RewrittenAppKeepsItsLabel | internal/store/apps.go:411-445 | a run in which a rewritten app stays verified for content no review described |
| SecurityHandlers.ApprovalPublishesEditedApp | internal/store/workflow.go:322-347 | a run in which a decision publishes an app edited since its review, past the gate |
| FreshDatabase.PreparedIsReached | internal/store/security_check.go:58-98 | from a fresh database, connecting, configuring and registering a plain app reaches the state the two runs above start from |
| FreshDatabase.FreshRunMislabels | internal/store/apps.go:411-445 | a run from a fresh database that ends with an app verified for content no review was compared with |
| FreshDatabase.FreshRunPublishesEdited | internal/store/workflow.go:322-347 | a run from a fresh database in which, with the gate on, an approval publishes an app that is not verified |
| FreshDatabase.FreshRunMislinks | internal/store/security_check.go:69-86 | a run from a fresh database with two overlapping saves after which an app verified over one connection reads as verified over the other |
| FreshDatabase.FreshRunRevives | internal/store/security_check.go:69-86 | a run from a fresh database in which a late save moves the revision back and an app that had lost its label is verified again over a third connection |
| FreshDatabase.FreshRunRebinds | internal/store/security_check.go:154-176 | a run from a fresh database in which two requests look one review up at once and attach it to two apps: its row names the first, the second is verified |
| Submissions.RunSubmitOrHold | internal/httpapi/security_check_handlers.go:429-439 | submitting or holding gives the result and the tables of its specification, about which the next lemmas speak |
| Submissions.RunEditApp | internal/httpapi/app_handlers.go:39-79 | the edit handler's transactions, run back to back, give the result and the tables of its specification |
| Submissions.EditAnswersExactly | internal/httpapi/app_handlers.go:39-79 | the edit handler's answer is the edit's, and what it leaves is that edit with at most one whole submission on top |
| Submissions.EditedAppStaysWhereItWas | internal/httpapi/app_handlers.go:63-76 | under the gate a relevant edit takes the label off and leaves the status, published included |
| Submissions.RunPressSubmit | internal/httpapi/security_check_handlers.go:383-424 | the submit button's transactions, run back to back, give the answer, each refusal told apart, and the tables of its specification |
| Submissions.ButtonSubmitsExactly | internal/httpapi/security_check_handlers.go:380-424 | with the gate on the button submits exactly when the attached review, its row naming the app, read again approves the app as it is |
| Submissions.EditSubmitsExactly | internal/httpapi/app_handlers.go:39-79 | an edit submits exactly when form and category are accepted, the slug is free, the workflow is on, the app was rejected or is published under a workflow that asks again, and, with the gate on, the stored label is on and nothing a reviewer was shown changes |
| Submissions.CachedBadgeSubmitsThroughEdit | internal/httpapi/app_handlers.go:68-76 | the states in which the button refuses and an edit submits all the same: exactly where the review no longer approves and the edit meets its conditions, the stored label among them |
| SecCheck.VerdictsExactly | internal/seccheck/review.go:99-128 | the exact condition of each of the six verdicts on a well-formed answer, field by field: an unbound one is a mismatch whatever it says, a bound, named and counted one is not approved as soon as either axis says so |
| SecurityBinding.MatchMeansOneWholeBlock | internal/seccheck/review.go:130-151 | the counting test decides exactly that each marker occurs once on both sides and the block stands as whole lines |
| SecurityBinding.DescriptionFitsOneBlock | internal/seccheck/review.go:133-151 | one description fits at most one expected block, up to line ends |
| SecurityBinding.BlockIsWellFormed | internal/httpapi/security_check_handlers.go:209-220 | no field can put a line break, carriage return or NUL into the block |
| SecurityBinding.QuotingReadsBack | internal/httpapi/security_check_handlers.go:213-216 | what a field is quoted to, a reader of JSON (section 7 of RFC 8259) takes for the field again |
| SecurityBinding.DescriptionFitsOneApp | internal/httpapi/security_check_handlers.go:209-220 | one description fits at most one app, challenge, content hash, name, slug, address and version |
| SecurityBinding.OwnBlockMatchesExactly | internal/seccheck/review.go:133-151 | an app's own block is recognised exactly when no quoted field holds a marker |
| SecurityBinding.MarkerInFieldBlocksEveryReview | internal/seccheck/review.go:141-145 | with a marker in a quoted field no description matches |
| Uuids.FormatReadsBack | internal/httpapi/security_check_handlers.go:217-219 | the digits of an identifier's text, read as one number, are the identifier, so different identifiers have different texts |
| Repository.Repository.CreateApp | internal/store/apps.go:261-292 | creates exactly the specified row, every column from the form and the status with its time, or reports why not, changing nothing |
| Repository.Repository.UpdateApp | internal/store/apps.go:294-340 | writes all 17 columns of the form to the one row, leaves status and publication time, and rotates challenge and review in the same transaction exactly when something a reviewer would see differs |
| Repository.Repository.AdminUpdateApp | internal/store/apps.go:411-445 | rewrites the form's columns and the status with neither rotation nor gate, keeping a first publication time |
| Repository.Repository.SetAppStatus | internal/store/apps.go:458-488 | changes the status and, at the first publication, its time behind the gate, and nothing else |
| Repository.Repository.SubmitApp | internal/store/workflow.go:69-120 | gates; cancels, with the time, exactly the pending reviews of this app and leaves every other review as it was; adds one waiting review at the first level exactly when the workflow is on, and queues or publishes, all or nothing |
| CatalogEffects.SubmissionExactly | internal/store/workflow.go:69-120 | when each answer comes, and of an accepted submission the whole row of every review and app, without the function that supersedes |
| Repository.Repository.DecideReview | internal/store/workflow.go:285-347 | decides a pending review, column by column, adds at most the next level's review and moves at most the review's app, all or nothing |
| CatalogEffects.DecisionExactly | internal/store/workflow.go:285-347 | when each answer comes, and of a decision that goes through the whole row of every review and app |
| Repository.Repository.UpdateWorkflowConfig | internal/store/workflow.go:45-62 | accepted exactly with levels in 1 to 10 and some reviewer role that is not blank; every column but the role lists is stored as given, and both lists as their trimmed, non-blank texts, each once, in the order in which they first come up |
| Repository.Repository.UpdateSecurityCheckSettings | internal/store/security_check.go:58-98 | stores switch, time-out, trimmed address and given or kept key, and moves the revision exactly when address or key change |
| Repository.Repository.RecordAppSecurityCheck | internal/store/security_check.go:130-181 | records every column of the answer under unchanged challenge and revision and an unbound or own review, else refuses |
| Repository.Repository.IsVerified | internal/store/security_check.go:18-29 | answers the one definition of "cleared" |
| WorkflowProof.PublicationIsFullyApproved | internal/store/workflow.go:285-347 | in every run, a decision that publishes with the workflow on completes a submission approved at every level from 1 to at least the configured count, for one app and submitter, and at no guarded level by that submitter, however the level count moved meanwhile |
| WorkflowProof.ReviewsStayInOrder | internal/store/workflow.go:69-120 | in every run levels lie in 1 to 10, an app has at most one pending review, and while nobody set its status by hand a pending review means it is waiting for one |
| WorkflowProof.StepKeepsFlow | internal/store/workflow.go:69-347 | every step keeps the coupling of reviews, levels, submissions and apps |
| WorkflowProof.HandSetStatusKeepsWaitingExactly | internal/store/apps.go:458-488 | a status set by hand keeps that coupling exactly when there is no pending review or the status is the waiting one |
| PublicationDates.FirstPublicationIsKept | internal/store/apps.go:474-477 | in every run an app in the catalog has a publication time, and once an app has one no later step changes it |
| WorkflowRules.StoredDecisionFollowsRuleExactly | internal/workflow/workflow.go:32-63 | the stored decision succeeds and does what the pure rule says exactly when the workflow is on or both refuse |
| WorkflowRules.ReportedStatusIsStoredExactly | internal/store/workflow.go:322-347 | a decision that goes through reports the status it stores exactly when it rejects, publishes, or finds the app still waiting |
| ApiKeys.KeysStayBounded | internal/store/keys.go:200-311 | in every run with one rotation at a time a user holds at most one active key above the highest limit so far, and no more unrotated active keys than that limit |
| KeyOverlaps.OverlapBoundsKeys | internal/store/keys.go:243-311 | in every run with at most some number of a user's rotations between count and write, the user's active keys exceed the highest limit so far by at most that number |
| KeyOverlaps.LateRotationBreaksTheBoundExactly | internal/store/keys.go:266-296 | a late rotation that leaves its old key alive takes the user more than one key above the limit exactly when the count it passed would no longer pass |
| KeyOverlaps.OverlappingRotations | internal/store/keys.go:252-296 | a run in which two rotations of one user end two keys above the limit |
| KeyOverlaps.OverfullFromEmpty | internal/store/keys.go:200-311 | that run, led from an empty keyring by two creations |
| KeyOverlaps.DeadKeyIsNeverAccepted | internal/store/keys.go:85-119 | however rotations overlap, a secret whose key was once revoked or expired is never accepted again |
| ApiKeys.RotationFillsTheBound | internal/store/keys.go:243-311 | rotating with a full ring and a grace period reaches the bound |
| ApiKeys.RotationDelaysExpiryExactly | internal/store/keys.go:277-296 | rotation moves the old key's expiry later exactly with no grace period and an expiry already past |
| ApiKeys.DeadKeyIsNeverAccepted | internal/store/keys.go:85-119 | a secret whose key was once revoked or expired is never accepted again |
| ApiKeys.HashesNeverCollide | internal/store/keys.go:178-198 | in every run from an empty keyring no two keys have the same hash |
| KeyStore.KeyStore.CreateAPIKey | internal/store/keys.go:200-241 | inserts the requested user's key with the requested hash and expiry, or the default number of days ahead, unused and unrevoked, and leaves every other key, or refuses with nothing changed |
| KeyStore.KeyStore.RotateAPIKey | internal/store/keys.go:243-311 | inserts such a key that names the old one; ends the old one at once without grace, and with grace when it would have ended or the grace does, whichever is first; or changes nothing |
| KeyEffects.CreationExactly | internal/store/keys.go:178-241 | when each answer comes, and every column of every key after an accepted creation |
| KeyEffects.RotationExactly | internal/store/keys.go:243-311 | when each answer comes, and every column of every key after an accepted rotation |
| KeyEffects.AcceptedExactly | internal/store/keys.go:85-119 | a secret is let in exactly while some key with its hash is neither revoked nor expired, was used or made within the unused period and made within the rotation period where these are on, and its owner is active |
| KeyEffects.NewKeyIsAccepted | internal/store/keys.go:85-241 | a key just made under a sound policy is accepted at once exactly unless it was asked to have expired |
| KeyStore.KeyStore.RevokeAPIKey | internal/store/keys.go:313-324 | revokes once, keeping the first moment |
| KeyStore.KeyStore.TouchAPIKey | internal/store/keys.go:326-337 | marks use only of a key active at that moment |
| RateLimiter.FixedWindowLimiter.Allow | internal/httpapi/ratelimit.go:29-59 | answers like a counter over the whole history: the first call of a minute is admitted whatever the limit, a later one exactly below it; only buckets of the current minute remain |
| RateLimiter.FixedWindowLimiter.Sweep | internal/httpapi/ratelimit.go:41-48 | drops exactly the buckets of earlier minutes |
| RateLimiter.FixedWindowLimiter.AdmissionsAreBounded | internal/httpapi/ratelimit.go:29-59 | of the limiter's own calls, whatever came before: under a fixed limit a clock minute admits at most the limit and any sixty seconds at most twice the limit |
| Like.PatternFindsExactlyTheTerm | internal/store/repository.go:109-119 | the escaped pattern matches a text exactly when the term occurs in it, for every fold of letters |
| Like.EscapingIsNeededExactlyForMeta | internal/store/repository.go:114-116 | without escaping, the search is right exactly for terms without the three metacharacters |
| Text.UniqueStrings | internal/store/repository.go:121-136 | returns the specified list |
| Text.UniqueIsClean | internal/store/repository.go:121-136 | that list holds exactly the trimmed non-blank texts, each once |
| Text.UniqueKeepsOrder | internal/store/repository.go:121-136 | and in the order in which they first come up |
| Text.UniqueIdempotent | internal/store/repository.go:121-136 | cleaning twice is cleaning once |
| SseClient.EmitSseBlock | web/src/lib/api.ts:552-577 | a block gives the event its last event line, joined data lines and decoding say |
| SseClient.PayloadGivesExactly | web/src/lib/api.ts:563-577 | which payloads give nothing, the end, a decoded value or their text |
| SseClient.StreamAiChat | web/src/lib/api.ts:530-550 | the buffer loop delivers the events of the whole text it has seen |
| SseClient.BlocksExactly | web/src/lib/api.ts:537-543 | the cutting is the one way to split a text into blocks closed by their first blank line |
| SseClient.BlocksGrow | web/src/lib/api.ts:536-543 | cutting what is buffered first, then the rest with what comes, loses nothing |
| SseClient.ChunksReadLikeTheWholeExactly | web/src/lib/api.ts:536 | each chunk border inside a CRLF pair leaves one character more, so chunks read like the whole text exactly when there is none |
| SseClient.ChunkingDoesNotMatter | web/src/lib/api.ts:530-550 | any two cuts of a text without such a border deliver the same events |
| SseRoundTrip.RoundTrip | internal/httpapi/ai_handler.go:161-168 | what the server writes, cut anywhere into chunks, is delivered name by name and value by value |
| SseRoundTrip.CutStreamDeliversWholeMessages | web/src/lib/api.ts:545-549 | a stream that stops anywhere delivers exactly the messages whose JSON arrived whole |
| SseRoundTrip.CutPairLosesAnEvent | web/src/lib/api.ts:536-549 | a border inside the CRLF pair that ends a block of plain text loses its event |
| SseRoundTrip.LinesJoinBack | web/src/lib/api.ts:559-563 | splitting at line breaks is undone by joining |
| SseReader.ConsumeOpenAIStream | internal/ai/stream.go:221-306 | the line loop gives the outcome and events of its event-by-event meaning, with cancellation, read failure and refused events; with a nil result every usage, content and finish reason of the chunks before the marker was delivered, in order |
| SseDelivery.DoneDelivers | internal/ai/stream.go:221-306 | after a nil result the token texts are the chunks' non-empty contents, the finish reasons their non-empty reasons and, where there is a marker and no reason, its "stop", the usage events their usages number by number, and all of it stands in the order of the chunks: usage, then choice by choice text before reason |
| SseDelivery.OneTelling | internal/ai/stream.go:246-262 | there is only one list of events that says all that some chunks hold in that order |
| SseDelivery.EmittedIsABeginning | internal/ai/stream.go:221-306 | whatever stops a stream, and wherever, what was emitted is a beginning of what all of it tells |
| SseProvider.Dispatch | internal/ai/stream.go:228-265 | one payload does what the meaning says of it, stopping at the first refused event |
| SseProvider.BufferIsPayload | internal/ai/stream.go:289-292 | dropping separators while the buffer is empty does not change the trimmed payload |
| SseProviderProof.DoneMeansFinished | internal/ai/stream.go:297-306 | a nil result means a finish event was emitted |
| SseProviderProof.DoneStreamTellsExactly | internal/ai/stream.go:221-306 | whatever the consumer, the cancellation and the connection: a nil result means every payload before the end marker decoded, and exactly what they told was emitted, with a finish added exactly when there is a marker and none was told |
| SseProviderProof.UndisturbedDoneExactly | internal/ai/stream.go:221-306 | left to run to its last line, the loop returns nil exactly when the payloads before the marker decode, something finishes the stream, and the consumer takes every event of it |
| SseProviderProof.LinesReadAlikeExactly | internal/ai/stream.go:273-286 | a line is read as section 9.2.6 of the WHATWG HTML Living Standard reads it exactly when it has no white space on an empty line or around the field name and is not a bare field name |
| SseProviderProof.ValueIsRead | internal/ai/stream.go:273-291 | a data line gives its value without the one space that may stand before it |
| SseProviderProof.AgreesWithTheStandard | internal/ai/stream.go:267-291 | on such lines the gathered data and the dispatched payloads are the standard's, but for blank ones and outer white space |
| SseProviderProof.PlainStreamMeansItsMessages | internal/ai/stream.go:221-306 | a stream of such lines with its last event ended means the standard's messages, trimmed |
| Snippets.WithNonce | internal/analytics/analytics.go:236-259 | the builder loop ends and gives the specified text |
| Snippets.TaggedExactlyWhereLacking | internal/analytics/analytics.go:242-258 | the attribute goes in right after every script opening that carries no nonce and nowhere else |
| SnippetsProof.ErasingGivesTheSnippetBack | internal/analytics/analytics.go:236-259 | at every place tagging put the attribute it stands in the result, and cutting it out at those places gives the snippet back |
| SnippetsProof.EveryScriptCarriesANonce | internal/analytics/analytics.go:234-259 | afterwards every script tag carries a nonce before its next closing bracket; a snippet is left alone exactly when that held; twice is once |
| SnippetsProof.NonceReadsBack | internal/analytics/analytics.go:255-256 | the attribute's value ends at its closing quotation mark and a browser reads it as the nonce |
| Violations.Recorder.Record | internal/analytics/violations.go:45-77 | a repeat evicts nothing, a new entry evicts a least recently seen one only at a hundred, and counts held plus counts lost are the reports accepted since the last reset |
| Violations.Recorder.EvictOldest | internal/analytics/violations.go:79-88 | removes one entry with the least last-seen time |
| Violations.Recorder.Forget | internal/analytics/violations.go:120-124 | empties the recorder and restarts the account |
| Violations.KeysAreDistinctExactly | internal/analytics/violations.go:50-65 | two reports share an entry exactly when their directive and origin agree |
| Violations.DirectiveExactly | internal/analytics/violations.go:50-58 | the name a report is kept under: the first word, lowered and at most forty characters of it, or the default |
| Violations.CountsAreTrueExactly | internal/analytics/violations.go:12-15 | every count is true, and nothing is lost, exactly when at most a hundred pairs were reported |
| Violations.ShownAreTheLatest | internal/analytics/violations.go:69-88 | a missing pair was last reported no later than any shown one |
| Migrations.Database.Migrate | internal/database/migrate.go:37-102 | the loop gives the specified stop and tables under any failures |
| Migrations.EffectsMatchRows | internal/database/migrate.go:83-100 | after any runs of any files an effect is there, once, exactly when its row is |
| Migrations.ResumedLikeUninterrupted | internal/database/migrate.go:34-102 | failed or interrupted runs followed by a successful one leave what one undisturbed run leaves |
| Migrations.NewDatabaseGetsEveryFileOnce | internal/database/migrate.go:34-102 | on a new database every file ends up applied exactly once in order |
| Migrations.SuccessExactly | internal/database/migrate.go:67-101 | a run succeeds exactly when no applied file was edited and nothing fails where it still matters |
| Migrations.StopsExactly | internal/database/migrate.go:67-101 | a run stops at the first file it does not get past, for a changed checksum exactly if that file was applied before and could be read |
| MigrationFiles.LoadMigrations | internal/database/migrate.go:104-145 | the loading loop gives the specified files or the first reason to refuse |
| MigrationFiles.LoadedExactly | internal/database/migrate.go:104-145 | loading succeeds exactly for well-named, non-empty, distinct files; the result is those files in strictly rising order |
| MigrationFiles.NameIsReadExactly | internal/database/migrate.go:116-138 | a file is read under a version and a title exactly when its name is made of them as the pattern says, with its own text and checksum |
| MigrationFiles.PrecedesExactly | internal/database/migrate.go:141 | the order of versions is that of the first character where they differ |
| SilentSso.React | web/src/app/providers.tsx:188-217 | a page clears the markers, starts an attempt and marks it, or does nothing |
| SilentSso.MarkSignedOut | web/src/features/auth/silent-sso.ts:63-66 | sets both markers where storage takes writes |
| SilentSso.AttemptsExactly | web/src/features/auth/silent-sso.ts:78-105 | a page attempts exactly when it may, believes there is no session, and reads both markers as unset |
| SilentSso.AttemptsAreBounded | web/src/features/auth/silent-sso.ts:78-105 | in every run whose attempts are remembered, a tab attempts at most once plus once per session it saw |
| SilentSso.StepKeepsWithinExactly | web/src/features/auth/silent-sso.ts:38-55 | a step breaks that bound exactly when it is a last allowed attempt whose marker can be read but not written |
| SilentSso.NoAttemptWhileSignedOut | web/src/features/auth/silent-sso.ts:57-72 | once signed out, no tab attempts until some page believes there is a session |
| SilentSso.MarkIsLiftedExactly | web/src/app/providers.tsx:199-206 | a step lifts the mark exactly when a page that believes there is a session reacts with a storage that takes writes, and without a session exactly when that belief is out of date |
| SilentSso.SignOutLastsExactly | web/src/app/providers.tsx:129-138 | over any run, from the writing of the mark through a pending, answered or failed logout and beyond, the sign-out is remembered exactly when the mark was there or could be written, and no page lifted it meanwhile |
| SilentSso.SameTabUndoesSignOut | web/src/app/providers.tsx:129-138 | a run in which the page signing out lifts its own mark while its logout is pending, and attempts afterwards |
| SilentSso.FailedLogoutForgetsSignOut | web/src/app/providers.tsx:129-138 | a run in which a failed logout leaves no mark, and a new tab attempts once the session ends |
| SilentSso.StaleTabUndoesSignOut | web/src/app/providers.tsx:199-214 | a run in which a stale tab undoes a sign-out |
| SilentSso.UnwritableMarkerLoops | web/src/features/auth/silent-sso.ts:48-55 | with a readable, unwritable marker nothing bounds the attempts |
| Guides.Sync | internal/guides/sync.go:57-82 | the loop over the bundle gives the specified documents and summary |
| Guides.DocumentStore.Count | internal/store/app_documents.go:89-101 | the first statement of a creation refuses an unstorable document or a full app and changes nothing |
| Guides.DocumentStore.Insert | internal/store/app_documents.go:102-117 | the second statement stores the row under a free name, or refuses with nothing changed |
| Guides.DocumentStore.Create | internal/store/app_documents.go:89-117 | the two statements with nothing in between store a document in a free slot under a free name, or refuse with nothing changed |
| Guides.DocumentStore.Delete | internal/store/app_documents.go:119-129 | removes one document, or refuses with nothing changed |
| Guides.DocumentStore.Replace | internal/store/app_documents.go:135-158 | swaps a document in place, or refuses with nothing changed |
| DocumentEffects.CreationExactly | internal/store/app_documents.go:89-117 | when each answer comes, and every column of every row after an accepted creation |
| DocumentEffects.ReplacementExactly | internal/store/app_documents.go:135-158 | when each answer comes; the row keeps its identifier, moves with its name and holds what was sent, and every other row stays |
| DocumentEffects.FileExactly | internal/guides/sync.go:105-133 | when a file is left alone, added, replaced or failed, and that an added or replaced one's row holds its bytes under their checksum |
| GuidesProof.SyncTwiceIsSyncOnce | internal/guides/sync.go:52-133 | a second pass attaches and replaces nothing, and documents of other names and apps are untouched |
| GuidesProof.SettledMeansCarriedExactly | internal/guides/sync.go:105-133 | after a pass a plain-named file is in its slot with its checksum, or the app has no room for it |
| GuidesProof.EverythingIsCounted | internal/guides/sync.go:34-44 | the four counts sum to the files of matched directories, the other two to the directories |
| GuidesProof.SyncKeepsTenSlots | internal/store/app_documents.go:94-101 | a pass with no other creation in progress leaves no app with more than ten documents |
| DocumentSlots.InsertionBreaksTheBoundExactly | internal/store/app_documents.go:89-117 | in every run of interleaved creations an insertion under a free name takes its app above ten documents exactly when, since its count, the insertions that landed for the app use up the room it counted, net of deletions; after counting nine, when more landed than went |
| DocumentSlots.OverlapBoundsDocuments | internal/store/app_documents.go:89-117 | with at most some number of an app's creations at once it carries at most nine documents and that number: ten where creations do not overlap |
| DocumentSlots.OverlapFillsTheBound | internal/store/app_documents.go:89-117 | with nine documents, creations that all count before any inserts all land |
| DocumentSlots.ElevenDocuments | internal/store/app_documents.go:89-117 | a run from the empty store to eleven documents |

## Left out

- PostgreSQL's isolation and row locks: between the steps named above everything a transaction does is one step.
  `RotateAPIKey` is one step in `ApiKeys` and two in `KeyOverlaps`; `CreateAppDocument` is no transaction and is two
  steps in `DocumentSlots`. The locks held from the look-up of a review to the end of its transaction are not in `Runs`:
  its runs include every run with them. Foreign keys to users and categories, and connection failures are not modelled.
- ReviewOwners.ReviewIsNeverRebound: fails in the runs `ReviewsKeepTheirAppExactly` singles out.
- ApiKeys.KeysStayBounded: rotations that overlap can pass this bound; `OverlapBoundsKeys` has the bound for them.
- KeyOverlaps.OverlapBoundsKeys: a creation is one step, since it locks the user, and a rotation's write is one step.
- Submissions.RunEditApp: the edit, the reading of the configuration and the submission are separate transactions in the
  handler; here nothing comes between them.
- Submissions.RunPressSubmit: the handler reads the settings twice and its re-read and submission are separate
  transactions; here nothing comes between them.
- Cryptography: content hashes are any function to 64 hexadecimal digits, checksums any function; nonces and
  identifiers are fresh values.
- Field validation, `uuid.Parse`, JSON decoding and `url.Parse`: their results are parameters, with only the
  facts used stated (canonical identifiers parse to themselves).
- HTTP routing, permissions of the caller, audit records and the SecCheck network client: an answer the client
  accepts is a parameter.
- Owners, featured flags and ranks, and `updated_at` are columns no modelled rule reads; `AdminCreateApp` is a
  creation with a chosen status.
- ApiKeys.RotateAPIKey: key names, prefixes and permission lists are reduced to "every permission asked for is active".
- KeyStore.KeyStore.RotateAPIKey: the application clock and `now()` of the database are one clock.
- RateLimiter.FixedWindowLimiter.Allow: a clock that goes back is not modelled; the mutex makes each call atomic.
- Text.Trim: covers white space as Go defines it; case folding outside ASCII is not modelled anywhere.
- SseClient.StreamAiChat: starts from decoded text; a byte order mark at the very start and the HTTP exchange are
  not modelled. Strings are sequences of characters, not UTF-16 units.
- SseReader.ConsumeOpenAIStream: starts from the scanner's lines; its line-length limit appears as a read failure.
- Snippets.WithNonce: texts are ASCII, where lowering a text keeps its positions.
- Violations.Recorder.Record: the origin of an address is a parameter, lengths count characters, and `List` with
  its wildcard test is not modelled.
- Migrations.Database.Migrate: statements are not executed; a migration's effect is the file in a list of applied
  files. The advisory lock makes runs follow one another.
- SilentSso.React: the configuration, path and refusal-marker tests are one condition; navigation is the page's
  next load.
- Guides.Sync: store failures other than rejections end the original's pass early and are not modelled; a pass runs by
  itself, other creations beside it are in `DocumentSlots`. Names are ASCII and the app a directory finds is a parameter.
- `ValidateProvider`, `sanitizeProviderError`, `overlayAIModelLimit`, `AllowedHostList`, `PolicySources`,
  `SnippetOrigins`, list ordering and paging: each is settled by reading one body.
- React pages, styling, settings forms and the end-to-end mock.
