# APTrust registry core, modelled in Dafny

The APTrust registry is the web application and REST API in front of
APTrust's preservation repository. It stores institutions, users,
intellectual objects, generic files, work items and deletion requests.
This project models its core:

- **Authentication middleware.** Which paths need a login. How the user
  is read from the session cookie. How a pending password reset forces
  its completion.
- **Resource authorization middleware.** It finds the handler's
  permission, the resource and its institution, then checks the
  permission.
- **Models and their rules.** Validation, insert/update hooks, soft
  delete, the pending-work query, requeueing, building restoration and
  deletion work items, deletion requests and their review, object
  deletion preconditions, deposit statistics.
- **Shared helpers.** Password hashing and the random token, the
  configuration loader, validation error text, and the API
  error-to-status mapping.
- **Web handlers.** Password change and reset, sign-in and API-key
  issue. On generic files: restore, review of a deletion and its
  cancellation.

## Form of the model

Entities whose fields the Go code updates in place are Dafny classes:

- `Records.User`, `WorkItems.WorkItem` and `Institutions.Institution`;
- `IntellectualObjects.IntellectualObject` and
  `DeletionRequests.DeletionRequest`;
- `ResourceAuthorizations.ResourceAuthorization`;
- the request context `Requests.Context`.

Their methods carry `modifies` clauses. The database is a `Records.Store`
value: a map of users and sequences of rows. A save returns the new table
(`WorkItems.Persist`).

The in-place monthly-totals loop `DepositStatistics.CalculateMonthlyTotals`
works on an `array`. It is proved against the function
`DepositStatistics.MonthlyTotals`.

Validation follows one shared shape in `Errors`. A sequence of checks is
run into an error map. `Errors.Reports` says the map holds exactly the
failed checks' messages.

A Go nil-pointer dereference is modelled as the `NilDereference` case of
`Wrappers.Completion`. Times are integers; 0 stands for Go's zero time.

## Model

| member | source | states |
|---|---|---|
| ApiErrors.StatusCodeForError | web/api/errors.go:39-63 | each error class maps to its HTTP status (401, 403, 404, 400, 405, 409), both directions, and everything else is 500 |
| ApiErrors.AbortIfError | web/api/errors.go:21-34 | aborts exactly when there is an error, with that error and its status code |
| Requests.Context.AbortIfError | web/api/errors.go:21-34 | returns true exactly on an error; then one JSON error response with StatusCodeForError is appended and the request aborted, otherwise nothing changes |
| Requests.Context.Param | middleware/resource_authorization.go:110-117 | a present path parameter reads as its value, a missing one as "" |
| Requests.Context.Query | middleware/resource_authorization.go:110-117 | a present query parameter reads as its value, a missing one as "" |
| Requests.Context.PostForm | middleware/resource_authorization.go:110-117 | a present form field reads as its value, a missing one as "" |
| Requests.Context.CurrentUser | middleware/resource_authorization.go:122-127 | nil when no user was set, otherwise the user stored under CurrentUser |
| Requests.Context.SetCurrentUser | middleware/authenticate.go:31 | the context now holds that user as CurrentUser |
| Records.Store.UserByID | middleware/authenticate.go:59 | a user is found exactly when the id is in the table, and it is that row |
| Authentication.ExemptFromAuth | middleware/authenticate.go:104-113 | the paths needing no login; its partner lemmas ExemptSubPaths, NotExemptPaths, ChangePasswordNeedsLogin and LegacyAuth.NewerRuleExemptsMore state which prefixes extend to sub-paths and which matches are exact |
| Authentication.ForceCompletionOfPasswordChange | middleware/authenticate.go:94-102 | a user holding a reset token is held to the change-password and error pages; ChangePasswordPagesReachable and ResetTokenForcesChange state both sides |
| Authentication.ExemptSubPaths | middleware/authenticate.go:104-113 | every path starting with /error or with the reset link's prefix is exempt |
| Authentication.NotExemptPaths | middleware/authenticate.go:104-113 | the exact-match rules do not extend: every sub-path of the sign-in page, and the reset link without an id, needs a login (helper NoPrefixAt: a string differing from a prefix at one position does not start with it) |
| Authentication.ChangePasswordNeedsLogin | middleware/authenticate.go:104-113 | every change-password page needs a login |
| Authentication.ChangePasswordPagesReachable | middleware/authenticate.go:94-102 | a user is never forced away from the change-password or error pages |
| Authentication.ResetTokenForcesChange | middleware/authenticate.go:94-102 | a user holding a reset token is stopped on every other page |
| Authentication.GetUserFromSession | middleware/authenticate.go:47-62 | no cookie, an undecodable cookie and a non-integer value each give their own error, both directions; an error means a nil user; a user returned is in the table |
| Authentication.SessionRoundTrip | middleware/authenticate.go:47-62 | a cookie holding a user id written with %d signs in that user without error |
| Authentication.UnknownUserIsNoError | middleware/authenticate.go:55-61 | a well-formed cookie naming no user gives a nil user and no error (the shadowed `err`) |
| Authentication.IntendedSessionHasUser | middleware/authenticate.go:55-61 | with the lookup error returned, no error means a stored user; the corrected and written versions differ exactly on a well-formed session naming nobody |
| Authentication.GetUserFromSessionIntended | middleware/authenticate.go:47-62 | the session lookup with the user lookup's error returned; IntendedSessionHasUser states that no error then means a stored user, and where it differs from the written version |
| Authentication.Authenticate | middleware/authenticate.go:15-44 | exempt paths are untouched; a session error answers 401 "Please log in" and aborts; otherwise the session user becomes CurrentUser, and a forced password change answers 401 and aborts |
| LegacyAuth.ExemptFromAuth | middleware/auth.go:47-50 | the older middleware's exempt paths; NewerRuleExemptsMore and OlderRuleIsStricter state that they are a strict subset of the newer ones |
| LegacyAuth.NewerRuleExemptsMore | middleware/auth.go:47-50 | every path the older middleware exempts, the newer one exempts too |
| LegacyAuth.OlderRuleIsStricter | middleware/auth.go:47-50 | sign-out and every path starting with /error need a login only under the older rule |
| LegacyAuth.Auth | middleware/auth.go:15-27 | exempt paths are untouched; a session error answers a bare 401 and aborts; otherwise the session user becomes CurrentUser |
| ResourceAuthorizations.LastSegment | middleware/resource_authorization.go:67-69 | the result is a dot-free suffix of the handler name, preceded by a dot when shorter than it |
| ResourceAuthorizations.LastSegmentOfQualified | middleware/resource_authorization.go:67-69 | the last segment of "pkg.Name" is Name |
| ResourceAuthorizations.PermissionType | middleware/resource_authorization.go:66-77 | a dotted handler name sets the handler to its last segment, then takes permission and resource type from the auth map or sets ErrResourcePermission; an undotted name changes nothing |
| ResourceAuthorizations.IdFromRequest | middleware/resource_authorization.go:110-120 | the id is always a 64-bit integer |
| ResourceAuthorizations.IdFromRequestOrder | middleware/resource_authorization.go:110-120 | the path parameter wins over the query, which wins over the form; an unparsable value is 0 |
| ResourceAuthorizations.RequestIds | middleware/resource_authorization.go:85-108 | dereferences nil exactly when no resource id, no institution id and no user are present; sets the resource id and changes only the id fields and the error |
| ResourceAuthorizations.PermissionChecked | middleware/resource_authorization.go:79-83 | marks the check done and approves exactly when a user holds the permission for the resource's institution; nothing else changes |
| ResourceAuthorizations.ExemptIsApproved | middleware/resource_authorization.go:41-48 | an exempt path is checked and approved with no error |
| ResourceAuthorizations.ApprovedOnlyWithPermission | middleware/resource_authorization.go:41-54 | a request is checked exactly when no error was found, and approved only when also permitted |
| ResourceAuthorizations.NilUserPanics | middleware/resource_authorization.go:103-106 | authorization dereferences nil exactly on a non-exempt path with no user and no resource or institution id |
| ResourceAuthorizations.ConfinedToOwnInstitution | middleware/resource_authorization.go:99-106 | with no ids in the request, a non-admin is confined to their own institution |
| ResourceAuthorizations.ResourceDecidesInstitution | middleware/resource_authorization.go:95-96 | with a resource id, the institution and error come from the resource lookup |
| ResourceAuthorizations.HandlerPermissionFromAuthMap | middleware/resource_authorization.go:66-77 | a known handler's permission and resource type come from the auth map |
| ResourceAuthorizations.UnknownHandlerErrorReplaced | middleware/resource_authorization.go:74-96 | an unknown handler's ErrResourcePermission is overwritten by a successful resource lookup |
| ResourceAuthorizations.Authorize | middleware/resource_authorization.go:41-106 | init as a whole, the nil dereference or the resulting struct; ExemptIsApproved, ApprovedOnlyWithPermission, NilUserPanics, ConfinedToOwnInstitution and ResourceDecidesInstitution state what it decides |
| ResourceAuthorizations.RequestIdsIntended | middleware/resource_authorization.go:85-108 | readRequestIds keeping an earlier error and never dereferencing a nil user; IntendedRefusesUnknownHandlerAndNilUser states the consequences |
| ResourceAuthorizations.AuthorizeIntended | middleware/resource_authorization.go:41-106 | init as meant, always a result; IntendedRefusesUnknownHandlerAndNilUser states that an unknown handler and a missing user are refused, and that it agrees with Authorize elsewhere |
| ResourceAuthorizations.IntendedRefusesUnknownHandlerAndNilUser | middleware/resource_authorization.go:41-106 | as meant, an unknown handler keeps ErrResourcePermission and is neither checked nor approved, and a request without a user is never approved; where the written init neither panics nor loses that error, the two agree |
| ResourceAuthorizations.ResourceAuthorization.State | middleware/resource_authorization.go:17-27 | the snapshot holds every field of the authorization |
| ResourceAuthorizations.ResourceAuthorization.CurrentUser | middleware/resource_authorization.go:122-127 | the request context's current user |
| ResourceAuthorizations.ResourceAuthorization.GetPermissionType | middleware/resource_authorization.go:66-77 | the new state is PermissionType of the old one |
| ResourceAuthorizations.ResourceAuthorization.ReadRequestIds | middleware/resource_authorization.go:85-108 | panics exactly when RequestIds dereferences nil, otherwise the new state is its result |
| ResourceAuthorizations.ResourceAuthorization.CheckPermission | middleware/resource_authorization.go:79-83 | the new state is PermissionChecked of the old one |
| ResourceAuthorizations.ResourceAuthorization.Init | middleware/resource_authorization.go:41-54 | panics exactly when Authorize dereferences nil, otherwise the state is Authorize's result |
| Strconv.FormatInt | web/users_controller.go:343 | %d of an integer: non-empty digits, with a leading minus exactly for negatives |
| Strconv.ParseInt | middleware/authenticate.go:55-58 | a parsed value is within 64 bits and is the decimal value of the text |
| Strconv.ParseIntValue | middleware/resource_authorization.go:118 | the value with the error dropped: the parsed value, or 0 |
| Strconv.ParseDigits | middleware/authenticate.go:55-58 | a digit string within range parses to its value |
| Strconv.ParseNegative | middleware/authenticate.go:55-58 | a minus sign then digits within range parses to the negated value |
| Strconv.ParseFormat | middleware/authenticate.go:55-58 | parsing what %d printed gives back the same 64-bit integer |
| Strconv.ParseRejectsNonNumbers | middleware/authenticate.go:55-58 | text with a non-digit after the sign position does not parse |
| Password.EncryptPassword | common/password.go:24-30 | fails exactly when no salt can be drawn, with an empty digest; otherwise the digest looks encrypted |
| Password.LooksEncrypted | common/password.go:49-51 | the test for the registry's own bcrypt prefix; EncryptPassword's ensures states that every digest the registry makes passes it |
| Password.ComparePasswords | common/password.go:34-36 | whether a hash matches a plaintext; CompareEncrypted states that a password matches its own encryption |
| Password.CompareEncrypted | common/password.go:24-36 | an encrypted password compares equal to its plaintext |
| Password.HexFormat | common/password.go:43 | %x doubles the length and yields only hex digits |
| Password.RandomToken | common/password.go:40-44 | a token is 32 hex digits |
| Password.HexRoundTrip | common/password.go:43 | hex encoding can be decoded back to the bytes |
| Password.RandomTokenInjective | common/password.go:40-44 | different random bytes give different tokens |
| Config.Config.BucketQualifier | common/config.go:255-262 | "" for the production domain, ".staging" for staging, ".test" for every other domain |
| Config.Config.IsTestOrDevEnv | common/config.go:273-279 | membership in the test and dev environment list; HTTPScheme's ensures and TestOrDevEnvsAllowed state what depends on it |
| Config.Config.HTTPScheme | common/config.go:273-288 | "http" exactly in test and dev environments, "https" otherwise |
| Config.TestOrDevEnvsAllowed | common/config.go:19-29 | every test or dev environment name is an allowed config |
| Config.ConfigFile | common/config.go:106-120 | fails exactly for a name outside the allowed list, with the bad-environment error; otherwise names ".env.<name>" |
| Config.PlainEnvFileUnreachable | common/config.go:106-120 | no environment name selects the bare ".env" file |
| Config.LoadConfig | common/config.go:122-205 | fails exactly for an unknown environment, a cookie key under 32 bytes or an NSQ URL that is not a URL, with the first of these as its error; otherwise the config holds the settings, with the SES user and password falling back to the AWS key pair |
| Constants.Registry.TopicFor | pgmodels/work_item.go:161-165 | fails exactly for an action/stage pair with no topic, with ErrInvalidRequeue |
| IntellectualObjects.IsGlacierOnlyOption | pgmodels/intellectual_object.go:188-190 | the storage option is one of the Glacier-only options; WorkItems.RestorationAction states the restore choice it drives |
| Errors.LinesOf | common/errors.go:94-99 | one "key: message" line per key, in the given order |
| Errors.ValidationErrorText | common/errors.go:90-101 | empty for nil errors; otherwise the lines of all entries, in some order, joined by newlines |
| Errors.NewValidationError | common/errors.go:84-88 | a validation error with an empty map |
| Errors.RunReports | pgmodels/work_item.go:177-218 | running checks with distinct keys reports exactly the failed ones with their messages |
| Errors.ReportEmptyIffAllPass | pgmodels/work_item.go:215-218 | the report is empty exactly when every check passes |
| Errors.JoinNewlines | common/errors.go:94-100 | n single-line entries give n-1 newlines |
| Errors.EveryEntryHasALine | common/errors.go:94-100 | every entry of the map appears as a line, one line per entry |
| Errors.DistinctCovering | common/errors.go:94-99 | an enumeration of the keys has one element per key |
| Errors.EmptyErrorText | common/errors.go:84-101 | a new validation error prints as "" |
| WorkItems.ItemChecksDistinct | pgmodels/work_item.go:177-214 | the twelve checks report under distinct keys |
| WorkItems.ItemErrorsReport | pgmodels/work_item.go:177-219 | the errors map reports each failed check, and is empty exactly for a valid item |
| WorkItems.EmptyReportIffValid | pgmodels/work_item.go:215-218 | any faithful report is empty exactly for a valid item |
| WorkItems.ZeroItemFailsEveryCheck | pgmodels/work_item.go:177-214 | an all-zero item fails all twelve checks |
| WorkItems.NoteAndOutcomeIgnored | pgmodels/work_item.go:200-214 | validity and the report do not depend on Note or Outcome (both checks test Name) |
| WorkItems.EmptyNoteAccepted | pgmodels/work_item.go:200-214 | an item with a valid name passes the Note and Outcome checks even when both are empty |
| WorkItems.ItemChecksIntended | pgmodels/work_item.go:177-214 | the twelve checks with Note and Outcome testing their own columns; IntendedNoteAndOutcomeChecked states what the report then holds |
| WorkItems.IntendedNoteAndOutcomeChecked | pgmodels/work_item.go:200-214 | with the checks testing their own columns, Note or Outcome is reported exactly when that column is empty or too long |
| WorkItems.ValidateChanges | pgmodels/work_item.go:225-248 | no error exactly when id, institution, object, file, name, etag and action are unchanged; each change gives its own error, first one first |
| WorkItems.HasCompleted | pgmodels/work_item.go:130-132 | the status is a completed one; PendingIffNotCompleted ties it to the pending filter |
| WorkItems.IsPending | pgmodels/work_item.go:110-127 | `status NOT IN (completed)` with NULL semantics; PendingIffNotCompleted states it is exactly not completed for a valid item |
| WorkItems.Matches | pgmodels/work_item.go:110-127 | the institution and name, or the file id, of a pending query, where NULL matches nothing; SelectPending and WorkItemsPending state the rows it selects |
| WorkItems.PendingIffNotCompleted | pgmodels/work_item.go:119-132 | for a valid item, pending means exactly not completed |
| WorkItems.SelectPending | pgmodels/work_item.go:110-127 | keeps exactly the matching pending rows, each as often as in the table |
| WorkItems.InsertNewestFirst | pgmodels/work_item.go:115 | inserting into a newest-first list keeps it newest-first, one longer, headed by the new row or the old head |
| WorkItems.InsertNewestFirstAdds | pgmodels/work_item.go:115 | the insertion adds exactly that row to the multiset of rows |
| WorkItems.SortNewestFirst | pgmodels/work_item.go:115 | the result is newest-first and a permutation of the input |
| WorkItems.WorkItemsPending | pgmodels/work_item.go:110-127 | the pending items for an object or a file, newest first, each matching row as often as stored |
| WorkItems.NextID | pgmodels/work_item.go:143-144 | an insert's id is positive and larger than every stored id |
| WorkItems.Replace | pgmodels/work_item.go:145-146 | an update replaces exactly the rows with the same id |
| WorkItems.Stamped | pgmodels/work_item.go:137 | SetTimestamps: updatedAt becomes now, createdAt becomes now only when it was zero, and nothing else changes |
| WorkItems.StampKeepsChecks | pgmodels/work_item.go:137-141 | stamping changes no validation result and no identity field, and stamping twice at the same time is stamping once |
| WorkItems.SaveStampsRow | pgmodels/work_item.go:136-152 | after a save the row carries the save time as updatedAt and keeps a set createdAt; a successful save stores it under a nonzero id |
| WorkItems.Persist | pgmodels/work_item.go:136-152 | id 0 inserts with a fresh positive id at the end; otherwise the row replaces its stored version |
| WorkItems.PersistedRowIsStored | pgmodels/work_item.go:136-152 | after a save of a new or existing row, the table contains the row |
| WorkItems.PersistTwice | pgmodels/work_item.go:136-152 | saving a saved row again changes nothing |
| WorkItems.RequeueKeepsIdentity | pgmodels/work_item.go:161-175 | requeueing passes ValidateChanges and is idempotent |
| WorkItems.RequeuedIsPending | pgmodels/work_item.go:161-175 | a requeued item is pending and still matches its object's pending query |
| WorkItems.LastSuccessfulIngest | pgmodels/work_item.go:344-357 | none exactly when the object has no successful ingest; otherwise the latest one processed |
| WorkItems.FromIngest | pgmodels/work_item.go:369-399 | the copy of an ingest with the reset fields; FromIngestKeepsBag and FromIngestInserts state what it keeps and that it is saved as a new row |
| WorkItems.FromIngestKeepsBag | pgmodels/work_item.go:369-399 | the copy is a new pending item with the ingest's bag, bucket, ids, action and sizes |
| WorkItems.FromIngestInserts | pgmodels/work_item.go:369-399 | saving the copy appends it with an id no stored row has |
| WorkItems.RestorationAction | pgmodels/work_item.go:424-434 | Glacier restore exactly for Glacier-only storage, otherwise file or object restore by whether a file is given |
| WorkItems.RestorationRowFields | pgmodels/work_item.go:412-444 | a restoration is pending at the requested stage, for the given user and file |
| WorkItems.DeletionItemError | pgmodels/work_item.go:470-480 | no error exactly when requester and approver share the object's institution and the approver is an institutional admin; the requester's institution, the approver's institution and the approver's role each give their message, in that order |
| WorkItems.DeletionRowFields | pgmodels/work_item.go:453-487 | a deletion carries the requester, the approver and the file's id and size |
| WorkItems.WorkItem.Validate | pgmodels/work_item.go:177-219 | nil exactly for a valid item, otherwise a report of each failed check |
| WorkItems.WorkItem.Save | pgmodels/work_item.go:136-152 | the row is stamped first, then validated; an invalid item keeps its stamp, reports each failed check and leaves the table alone; otherwise the stamped row is persisted and the item holds the stored row |
| WorkItems.WorkItem.SetForRequeue | pgmodels/work_item.go:161-175 | an unknown topic returns ErrInvalidRequeue and changes nothing; otherwise the requeued row is saved as Save saves it, stamped first |
| WorkItems.NewItemFromLastSuccessfulIngest | pgmodels/work_item.go:369-399 | with no successful ingest it returns the copy-from error; otherwise a new item copied from the latest ingest |
| WorkItems.NewRestorationItem | pgmodels/work_item.go:412-444 | a nil object is ErrInvalidParam and no ingest is the copy-from error; otherwise the restoration row is saved |
| WorkItems.NewDeletionItem | pgmodels/work_item.go:453-487 | a missing object or user is ErrInvalidParam, a bad requester or approver gives DeletionItemError, otherwise the deletion row is saved |
| WorkItemViews.WorkItemView.Validate | pgmodels/work_item_view.go:121-123 | a view always validates |
| WorkItemViews.WorkItemView.GetObjIdentifier | pgmodels/work_item_view.go:136-142 | the object identifier when set, otherwise "<institution>/<bag name without .tar>" |
| WorkItemViews.WorkItemView.HasCompleted | pgmodels/work_item_view.go:126-128 | the view's status is a completed one; CompletedAsInTable states it agrees with the work item |
| WorkItemViews.WorkItemView.IngestObjectLinkIsMissing | pgmodels/work_item_view.go:162-164 | a successful ingest with no object id; MissingLinkHasCompleted states such a view has completed |
| WorkItemViews.TrimTar | pgmodels/work_item_view.go:13-140 | removes one trailing ".tar", and only that |
| WorkItemViews.TrimTarOfTarFile | pgmodels/work_item_view.go:140 | trimming "<bag>.tar" gives the bag |
| WorkItemViews.TrimTarOnce | pgmodels/work_item_view.go:140 | for every bag name, only one ".tar" is removed and a ".tar.gz" name is kept |
| WorkItemViews.PendingIngestIdentifier | pgmodels/work_item_view.go:136-142 | a pending ingest of "<bag>.tar" is identified as "<institution>/<bag>" |
| WorkItemViews.CompletedAsInTable | pgmodels/work_item_view.go:126-128 | the view has completed exactly when the work item with its status has |
| WorkItemViews.MissingLinkHasCompleted | pgmodels/work_item_view.go:162-164 | a view flagged as missing its object link has completed |
| IntellectualObjects.LatestEvent | pgmodels/intellectual_object.go:177-186 | none exactly when the object has no event of that type; otherwise the newest such event |
| IntellectualObjects.LatestActiveDeletion | pgmodels/intellectual_object.go:239-253 | none exactly when there is no active deletion item; otherwise the latest updated one |
| IntellectualObjects.FindDeletionRequest | pgmodels/intellectual_object.go:255-265 | none exactly when no request view names the work item; otherwise one that does |
| IntellectualObjects.IntellectualObject.ChecksReport | pgmodels/intellectual_object.go:192-219 | the report holds each failed check, and is empty exactly for a valid object |
| IntellectualObjects.IntellectualObject.Validate | pgmodels/intellectual_object.go:192-219 | nil exactly for a valid object, otherwise a report of each failed check |
| IntellectualObjects.IntellectualObject.ValidateChanges | pgmodels/intellectual_object.go:221-237 | a changed id, institution, identifier or storage option each gives its error, first one first; otherwise none |
| IntellectualObjects.IntellectualObject.AssertNoActiveFiles | pgmodels/intellectual_object.go:283-291 | an error exactly when the object has active files |
| IntellectualObjects.IntellectualObject.AssertNotAlreadyDeleted | pgmodels/intellectual_object.go:293-320 | equals the function AlreadyDeletedError; passes exactly when the object is not deleted and has an ingest event; the shadowed `err` at :311 loses both the deletion-event lookup error and "already deleted since last ingest" |
| IntellectualObjects.IntellectualObject.AlreadyDeletedErrorIntended | pgmodels/intellectual_object.go:293-320 | as meant: passes exactly when the object is not deleted, has an ingest event and no deletion event after it; agrees with the written check wherever that one fails |
| IntellectualObjects.IntellectualObject.ShadowedErrPassesRedeletion | pgmodels/intellectual_object.go:310-318 | an object deleted after its last ingest passes the written check and is refused by the intended one |
| IntellectualObjects.IntellectualObject.AssertDeletionApproved | pgmodels/intellectual_object.go:322-348 | passes exactly when an active deletion item has an approver and its request has a requester and a confirmer; a missing item, request, requester or approver gives its message, naming the work item's or the request's id |
| IntellectualObjects.ApprovalMessagesNameTheirIds | pgmodels/intellectual_object.go:335-345 | the three messages are different for different 64-bit ids |
| IntellectualObjects.IntellectualObject.AssertDeletionPreconditions | pgmodels/intellectual_object.go:267-281 | equals the function PreconditionError: active files first, then already deleted, then approval; passes exactly when all hold |
| IntellectualObjects.IntellectualObject.NewDeletionEvent | pgmodels/intellectual_object.go:350-369 | fails exactly when deletion is not approved; otherwise a successful deletion event naming the requester and approver |
| IntellectualObjects.IntellectualObject.Delete | pgmodels/intellectual_object.go:112-155 | a failed precondition changes nothing; otherwise the object is marked deleted and stamped, then validated, and on success the deletion event is produced with its creation time stamped |
| IntellectualObjects.DeletionEventFollowsIngest | pgmodels/intellectual_object.go:310-318 | once Delete's event is stored after the last ingest, the object counts as deleted since that ingest |
| IntellectualObjects.LatestEventAppend | pgmodels/intellectual_object.go:177-186 | appending an event of another kind or object leaves the latest event of a kind unchanged |
| Institutions.BucketsDistinguishInstitutions | pgmodels/institution.go:144-147 | equal bucket names mean equal identifiers |
| Institutions.Bucket | pgmodels/institution.go:144-147 | "aptrust.<name><qualifier>.<identifier>"; BucketsDistinguishInstitutions and ReceivingIsNotRestore state that buckets are distinct per institution and per purpose |
| Institutions.ReceivingIsNotRestore | pgmodels/institution.go:144-147 | an institution's receiving and restore buckets differ |
| Institutions.InstChecksReport | pgmodels/institution.go:151-180 | the errors map reports exactly the failed checks |
| Institutions.InstEmptyIffValid | pgmodels/institution.go:176-179 | the report is empty exactly for a valid institution |
| Institutions.ValidateRow | pgmodels/institution.go:151-180 | nil exactly for a valid institution, otherwise a report of each failed check |
| Institutions.InsertPassesDerivedChecks | pgmodels/institution.go:111-130 | after the insert hook, bucket and state checks never fail |
| Institutions.LongNameAccepted | pgmodels/institution.go:153-155 | a name of 101 to 200 characters passes, although the message says 5-100 |
| Institutions.IntendedNameBound | pgmodels/institution.go:153-155 | with the bound the message states, the name is reported exactly outside 5-100; the two checks disagree exactly on names of 101 to 200 characters |
| Institutions.InstChecksIntended | pgmodels/institution.go:151-180 | the institution checks with the name bound the message states; IntendedNameBound states what the report then holds |
| Institutions.Deleted | pgmodels/institution.go:88-92 | a deleted row is in a consistent soft-deleted state |
| Institutions.Undeleted | pgmodels/institution.go:96-100 | an undeleted row is in a consistent active state |
| Institutions.DeleteRoundTrips | pgmodels/institution.go:86-100 | undelete undoes delete on an active row, and delete undoes undelete on a deleted row |
| Institutions.Institution.Validate | pgmodels/institution.go:151-180 | nil exactly for a valid institution, otherwise a report of each failed check |
| Institutions.Institution.BeforeInsert | pgmodels/institution.go:111-130 | the row gets its timestamps, active state and derived buckets, then is validated |
| Institutions.Institution.BeforeUpdate | pgmodels/institution.go:133-140 | only updatedAt changes, then the row is validated |
| Institutions.Institution.Delete | pgmodels/institution.go:88-92 | the row is soft-deleted and stamped, then validated |
| Institutions.Institution.Undelete | pgmodels/institution.go:96-100 | the row is reactivated and stamped, then validated |
| DeletionRequests.InsertPairs | pgmodels/deletion_request.go:212-221 | the join table holds its old pairs and exactly the request's new pairs |
| DeletionRequests.InsertPairsIdempotent | pgmodels/deletion_request.go:212-221 | saving the same links twice equals saving them once |
| DeletionRequests.InsertPairsAsSet | pgmodels/deletion_request.go:212-232 | only the set of ids matters, not order or repeats |
| DeletionRequests.ReviewerRules | pgmodels/deletion_request.go:145-174 | a reviewer passes exactly as an institutional admin of the same institution; otherwise the wrong-role or wrong-institution message |
| DeletionRequests.ReviewerCheck | pgmodels/deletion_request.go:145-174 | dereferences nil exactly when a reviewer id names no user and none was preloaded; messages only for looked-up reviewers |
| DeletionRequests.DeletionRequest.Requester | pgmodels/deletion_request.go:131-137 | the preloaded requester, else the looked-up one; nil exactly when neither exists |
| DeletionRequests.DeletionRequest.RequesterRules | pgmodels/deletion_request.go:131-142 | the requester check passes, fails on institution, or fails on id exactly as the code's branches decide |
| DeletionRequests.DeletionRequest.ChecksDistinct | pgmodels/deletion_request.go:124-188 | the five checks report under distinct keys |
| DeletionRequests.DeletionRequest.Validation | pgmodels/deletion_request.go:124-188 | dereferences nil exactly when a reviewer lookup does; otherwise nil exactly when all checks pass, else a report of each failed one |
| DeletionRequests.DeletionRequest.Validate | pgmodels/deletion_request.go:124-188 | stores the loaded requester and returns Validation for it |
| DeletionRequests.DeletionRequest.InstitutionIDRule | pgmodels/deletion_request.go:127-129 | an institution id below 1 fails, and is reported exactly then |
| DeletionRequests.DeletionRequest.TokenRule | pgmodels/deletion_request.go:177-179 | a token that does not look encrypted is reported |
| DeletionRequests.DeletionRequest.ConfirmerWrongRole | pgmodels/deletion_request.go:145-158 | a looked-up confirmer who is not an institutional admin is reported |
| DeletionRequests.DeletionRequest.PreloadedConfirmerUnchecked | pgmodels/deletion_request.go:145-146 | a preloaded confirmer is never checked |
| DeletionRequests.DeletionRequest.AddFile | pgmodels/deletion_request.go:190-195 | the file is appended, starting from an empty list when nil |
| DeletionRequests.DeletionRequest.AddObject | pgmodels/deletion_request.go:197-202 | the object is appended, starting from an empty list when nil |
| DeletionRequests.DeletionRequest.SaveFiles | pgmodels/deletion_request.go:212-221 | the join table gains a link for each file |
| DeletionRequests.DeletionRequest.SaveObjects | pgmodels/deletion_request.go:223-232 | the join table gains a link for each object |
| DeletionRequests.NewDeletionRequest | pgmodels/deletion_request.go:60-72 | fails exactly when encryption fails; otherwise a fresh request with the token, its encryption and empty lists |
| DeletionRequests.NewTokenIsReviewable | pgmodels/deletion_request.go:60-72 | a new request's encrypted token looks encrypted and matches its plain token |
| DepositStatistics.Totals | pgmodels/deposit_stats.go:259-268 | the rows keep their number |
| DepositStatistics.MonthlyTotals | pgmodels/deposit_stats.go:259-268 | the rows keep their number |
| DepositStatistics.TotalsFrom | pgmodels/deposit_stats.go:259-268 | from any position on, each row has its expected value given the carried cost |
| DepositStatistics.MonthlyTotalsSpec | pgmodels/deposit_stats.go:259-268 | a total row gets the cost since the previous total row; other rows are unchanged |
| DepositStatistics.TrailingRowsIgnored | pgmodels/deposit_stats.go:259-268 | rows after the last total row are untouched and do not affect the earlier ones |
| DepositStatistics.NoTotalsUnchanged | pgmodels/deposit_stats.go:259-268 | without total rows nothing changes |
| DepositStatistics.CalculateMonthlyTotals | pgmodels/deposit_stats.go:259-268 | the array afterwards is MonthlyTotals of its old contents |
| DepositStatistics.StartOfDay | pgmodels/deposit_stats.go:247-248 | the start of the day containing now |
| DepositStatistics.TableNameAndDateClause | pgmodels/deposit_stats.go:240-257 | the current table exactly for today or later, otherwise the historical table with its date clause |
| DepositStatistics.TodayIsCurrent | pgmodels/deposit_stats.go:240-257 | any end date from midnight today on reads current stats; any end date a day or more before now reads historical ones |
| DepositStatistics.TimelineOperator | pgmodels/deposit_stats.go:143-146 | a placeholder is used exactly when an institution is given |
| DepositStatistics.TimelineArgs | pgmodels/deposit_stats.go:106-148 | one argument per placeholder, then the start and end dates |
| DepositStatistics.SubAccountRollup | pgmodels/deposit_stats.go:176-216 | no institution gives nothing; rows only for an institution with sub-accounts; errors come from the lookups or the query |
| DepositStatistics.DepositStatsSelect | pgmodels/deposit_stats.go:68-104 | an empty result becomes one total row; rollup rows are appended; monthly totals are applied; a query error is returned with the rows |
| DepositStatistics.EmptyReportIsOneTotal | pgmodels/deposit_stats.go:83-90 | the placeholder row for an empty result is its own monthly total |
| UsersController.UserForPasswordEdit | web/users_controller.go:229-258 | a user exists and may be edited exactly as the code allows; missing is ErrNoRows, forbidden is ErrPermissionDenied |
| UsersController.PasswordEditRule | web/users_controller.go:239-255 | self, sysadmins and institution user editors may edit; nobody else may |
| UsersController.ChangePasswordError | web/users_controller.go:188-206 | the edit error first, then mismatched passwords, then password requirements, then encryption; none exactly when all pass |
| UsersController.ChangedPasswordWorks | web/users_controller.go:207-210 | after a change the new password compares equal and no password change is forced |
| UsersController.SetPasswordChanged | web/users_controller.go:207-210 | the user's columns become PasswordChanged of the old ones |
| UsersController.UserChangePassword | web/users_controller.go:187-227 | an error is answered and nothing is saved; otherwise the password is changed and the user redirected to their page or the dashboard |
| UsersController.SetResetRequested | web/users_controller.go:280-281 | the user's columns become ResetRequested of the old ones |
| UsersController.ResetForcesPasswordChange | web/users_controller.go:280-281 | after a reset the user is forced to change their password |
| UsersController.UserInitPasswordReset | web/users_controller.go:268-293 | an edit or encryption error is answered and nothing changes; otherwise the reset is recorded and the page shown |
| UsersController.CreateNewUserAlert | web/users_controller.go:530-544 | an encryption error changes nothing; otherwise the new user gets a reset token |
| UsersController.ResetUser | web/users_controller.go:300-322 | a bad id, an empty token, a missing user (ErrNoRows), a deactivated user or a wrong token each give their error; Ok, with the stored user, exactly for an active user whose token matches |
| UsersController.ResetLinkPasses | web/users_controller.go:300-322 | the reset link's id and token find the user |
| UsersController.SignedIn | web/users_controller.go:324-332 | one more sign-in, now from this address and time, the previous address kept |
| UsersController.RecordSignIn | web/users_controller.go:324-332 | the user's columns become SignedIn of the old ones |
| UsersController.LastSignInAtNotRecorded | web/users_controller.go:328-330 | the last sign-in time is never set to the previous current sign-in time |
| UsersController.IntendedSignInRecordsPrevious | web/users_controller.go:324-332 | with the condition as meant, after two sign-ins the last time and address are the first one's; as written the first time is lost |
| UsersController.SignedInIntended | web/users_controller.go:324-332 | the sign-in bookkeeping with the condition as meant; IntendedSignInRecordsPrevious states that the previous sign-in time is kept |
| UsersController.UserCompletePasswordReset | web/users_controller.go:300-345 | a ResetUser error is answered and no user changes; otherwise the sign-in is recorded; then a session cookie error is answered and stops the handler, and without one the user is signed in and sent to change their password |
| UsersController.SignInUser | web/users_controller.go:384-415 | a failed sign-in is 400 with no change; a session or CSRF cookie error is 500; otherwise the user becomes CurrentUser and gets 302 to the dashboard or the second-factor page |
| UsersController.UserSignIn | web/users_controller.go:125-135 | a failed sign-in shows the sign-in page with 400 and leaves the current user alone; a session or CSRF cookie error shows it with 500; otherwise the redirect of SignInUser |
| UsersController.UserGetAPIKey | web/users_controller.go:351-371 | a request for another user's key answers permission denied and aborts, but the handler goes on: a new key is still stored for the current user and shown; an encryption error changes nothing |
| UsersController.UserGetAPIKeyIntended | web/users_controller.go:351-371 | as meant: a request for another user's key answers permission denied and changes nothing; one's own key is replaced and shown |
| GenericFilesController.FileByID | web/generic_files_controller.go:71-74 | finds a file with that id, or none exactly when no such file exists |
| GenericFilesController.RestoreTarget | web/generic_files_controller.go:71-90 | Ok exactly when the file exists, has no pending work and its object exists; pending work is ErrPendingWorkItems exactly then |
| GenericFilesController.QueueRestoration | web/generic_files_controller.go:96-111 | a topic or queue error is answered and nothing changes; otherwise the item is saved with its queued time |
| GenericFilesController.CreateAndQueueRestoration | web/generic_files_controller.go:91-111 | an invalid restoration item is reported without an item; otherwise it is created, saved and queued |
| GenericFilesController.GenericFileInitRestore | web/generic_files_controller.go:69-118 | a target error creates nothing; success redirects to the object page |
| GenericFilesController.PendingWorkBlocksRestore | web/generic_files_controller.go:76-84 | a pending item for the file blocks its restoration |
| GenericFilesController.ReviewTemplate | web/generic_files_controller.go:166-171 | the approved, cancelled or review page exactly by which reviewer is set |
| GenericFilesController.GenericFileReviewDelete | web/generic_files_controller.go:144-173 | a missing request or bad token gives its error; otherwise the review page |
| GenericFilesController.SetCancelled | web/generic_files_controller.go:223-224 | the request records who cancelled it and when |
| GenericFilesController.GenericFileCancelDelete | web/generic_files_controller.go:203-277 | a missing request or bad token gives its error; otherwise the request is cancelled, panicking exactly when it has no files |
| GenericFilesController.GenericFileCancelDeleteIntended | web/generic_files_controller.go:203-277 | as meant: the same errors, and a valid token always cancels the request and shows the cancelled page |
| GenericFilesController.CancelledRequestReviewsAsCancelled | web/generic_files_controller.go:166-171 | a cancelled, unconfirmed request reviews as cancelled |
| GenericFilesController.NewRequestTokenPasses | web/generic_files_controller.go:154-158 | a new request's own token passes the token check |

## Findings

The main flow of the model follows the code as written. For each
difference below, an as-written member exhibits it. Beside it, a
corrected member is proved to have the property the authors evidently
meant. In the "evidently intended" cell, the lemma named in brackets
proves that property.

| source | as written | input that shows it | evidently intended | confidence | as-written member | corrected member |
|---|---|---|---|---|---|---|
| pgmodels/intellectual_object.go:311-316 | `:=` declares a new `err` in the block, so neither the deletion-event lookup error nor "Object has already been deleted since last ingest" is returned | an active object whose latest deletion event is newer than its latest ingest event | such an object is refused (`IntellectualObjects.IntellectualObject.ShadowedErrPassesRedeletion`) | not executed | IntellectualObjects.IntellectualObject.AssertNotAlreadyDeleted | IntellectualObjects.IntellectualObject.AlreadyDeletedErrorIntended |
| middleware/authenticate.go:55-61 | the shadowed `err` drops the user lookup's error | a session cookie holding a well-formed id that is not in the users table | no error means a stored user (`Authentication.IntendedSessionHasUser`) | not executed | Authentication.UnknownUserIsNoError | Authentication.GetUserFromSessionIntended |
| pgmodels/work_item.go:200, :212 | the "Note" and "Outcome" checks test `Name` | a valid item with an empty Note and Outcome | Note and Outcome are reported exactly when empty or too long (`WorkItems.IntendedNoteAndOutcomeChecked`) | not executed | WorkItems.EmptyNoteAccepted | WorkItems.ItemChecksIntended |
| middleware/resource_authorization.go:104 | `currentUser.IsAdmin()` is called on a nil user | a non-exempt path with no current user and no resource or institution id | the request is refused, never approved (`ResourceAuthorizations.IntendedRefusesUnknownHandlerAndNilUser`) | not executed | ResourceAuthorizations.NilUserPanics | ResourceAuthorizations.AuthorizeIntended |
| middleware/resource_authorization.go:74, :96 | the resource lookup overwrites ErrResourcePermission | a handler missing from AuthMap, with a resource id whose lookup succeeds | an unknown handler is never approved (`ResourceAuthorizations.IntendedRefusesUnknownHandlerAndNilUser`) | not executed | ResourceAuthorizations.UnknownHandlerErrorReplaced | ResourceAuthorizations.AuthorizeIntended |
| pgmodels/institution.go:16, :153 | the name check allows 5-200 bytes while its message says 5-100 | an institution named with 150 characters | names are reported exactly outside 5-100 (`Institutions.IntendedNameBound`) | not executed | Institutions.LongNameAccepted | Institutions.InstChecksIntended |
| web/users_controller.go:328-330 | the condition is inverted: the last sign-in time is set only when the current one is zero | a user who signed in before signs in again | the last sign-in time is the previous current one (`UsersController.IntendedSignInRecordsPrevious`) | not executed | UsersController.LastSignInAtNotRecorded | UsersController.SignedInIntended |
| web/users_controller.go:353-356 | permission denied is answered but the handler does not return | a user asking for another user's API key | nothing changes after the refusal | not executed | UsersController.UserGetAPIKey | UsersController.UserGetAPIKeyIntended |
| web/generic_files_controller.go:246 | `GenericFiles[0]` is read to find the institution | cancelling an object deletion request, which has no files | any request with a valid token is cancelled | not executed | GenericFilesController.GenericFileCancelDelete | GenericFilesController.GenericFileCancelDeleteIntended |

## Left out

- **Database.** The go-pg queries, transactions and database errors are
  left out. Tables are Dafny values, and a save only fails validation.
  Because of that, `DeletionRequest.Save` and the alert and email
  records are not modelled.
- **Sessions, cookies and flash messages.** The secure-cookie codec is a
  parameter (`decode`). Setting the session and CSRF cookies is modelled
  only as the error they may return. Flash cookies, `LoadCookies` and
  `DeleteSessionCookie` are left out.
- Password.ComparePasswords: accepts only digests with the registry's
  own prefix and cost (`$2a$10$`), as `EncryptPassword` makes them.
  `bcrypt.CompareHashAndPassword` also accepts other bcrypt versions and
  costs (`$2b$`, `$2a$11$`), and such hashes fail `LooksEncrypted`. So
  the model does not claim that every matching hash looks encrypted.
- **bcrypt and randomness.** bcrypt is modelled by a salted digest with a
  recognisable prefix; the salt is `Option<Salt>`, and None stands for a
  failure to draw one. The random token's bytes are a parameter.
- **User model.** `pgmodels/user.go` is not part of this model. Its
  `UserByID` is a map lookup and `UserSignIn` a parameter. For a missing
  id the model takes `UserByID` to return nil, like `WorkItemGet`. If it
  returned a zero user instead, like `InstitutionGet` and
  `DeletionRequestGet`, then at `pgmodels/deletion_request.go:151` and
  `:167` the zero user would fail the role check, and
  `DeletionRequests.ReviewerCheck` would report the wrong-role message
  where the model dereferences nil. `User.Save` is taken to succeed.
- **PREMIS events.** `pgmodels/premis_event.go` is not part of this
  model. Its `PremisEventGet` is taken to return nil when no row
  matches. If it returned a zero event with the no-rows error, as
  `InstitutionGet` does, then `assertNotAlreadyDeleted` would fail with
  "Error checking for last ingest event: ..." instead of "Can't find
  last ingest event". It would fail or pass in the same cases.
- **User predicates.** `HasPermission`, `IsTwoFactorUser`,
  `PasswordMeetsRequirements`, `IsEmail`, `IsURL` and `IsDNSName` are
  parameters or registry predicates.
- **Constants and topics.** The constants package is modelled by
  `Constants.Registry`. Its lists, and the topic table behind `TopicFor`,
  are fields rather than the literal lists.
- **Error handling in handlers.** The web package's own `AbortIfError` is
  taken to behave like `web/api/errors.go`.
- **Current user.** Handlers take a non-nil current user, since the
  middleware has already run.
- **Side effects.** NSQ queuing is an `enqueue` parameter. Alerts, email,
  logging and template rendering are not modelled; a page is its
  template name and status.
- **Timestamps.** `TimestampModel` is not part of this model.
  `SetTimestamps` is taken to set createdAt when it is zero and
  updatedAt to the current time (`WorkItems.Stamped`).
- IntellectualObjects.IntellectualObject.Delete: the deletion event is stamped but not validated, because
  `pgmodels/premis_event.go` is not part of this model; its validation
  and the transaction that inserts the event are left out.
- **Byte lengths.** `IsByteLength` counts bytes. The model counts
  characters, which is the same for ASCII input.
- **Floating point.** Deposit statistics use `real`, so float rounding is
  not modelled.
- **Concurrency.** Each handler is modelled as running alone. So the
  race between the pending-work check and the enqueue in
  `GenericFileInitRestore` is not modelled.
- **Handlers not modelled.** The file handlers `GenericFileRequestDelete`,
  `GenericFileShow`, `GenericFileInitDelete` and
  `GenericFileApproveDelete` are left out. So are the admin query in the
  cancellation alert and its debug print.
- **Configuration files.** Reading the settings file and the environment
  is left out: `Config.LoadConfig` receives the values viper would
  return. Exiting the program becomes an error value whose `Message` is
  the printed text. Settings that only feed other subsystems (logging,
  database, Redis, two-factor) are not modelled.
- **Deposit statistics.** `DepositStatsSelect` receives the query result
  rows as input. The SQL text is modelled only as the table name, the
  date clause, the operator and the arguments.
