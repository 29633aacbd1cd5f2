/** The generic file handlers that guard and record a restoration or a
    deletion review (web/generic_files_controller.go): GenericFileInitRestore
    creates and queues a restoration work item, GenericFileReviewDelete
    chooses the review page for a deletion request, GenericFileCancelDelete
    records who cancelled it. */
module GenericFilesController {
  import opened Wrappers
  import opened Errors
  import opened Constants
  import opened Records
  import opened Strconv
  import opened Requests
  import opened IntellectualObjects
  import opened WorkItems
  import opened DeletionRequests
  import opened Password
  import ApiErrors

  const REVIEW_TEMPLATE := "files/review_deletion.html"
  const ALREADY_APPROVED_TEMPLATE := "files/deletion_already_approved.html"
  const ALREADY_CANCELLED_TEMPLATE := "files/deletion_already_cancelled.html"
  const CANCELLED_TEMPLATE := "files/deletion_cancelled.html"
  const OBJECT_PAGE := "/objects/show/"

  /** The JSON error answer AbortIfError writes for `err`. */
  function ErrorResponse(err: Error): Response {
    ErrorJson(ApiErrors.StatusCodeForError(err), err)
  }

  /** GenericFileByID: the file with that id, or pg.ErrNoRows. */
  function FileByID(files: seq<GenericFile>, id: int): (r: Option<GenericFile>)
    ensures r.Some? ==> r.value in files && r.value.id == id
    ensures r.None? ==> forall f :: f in files ==> f.id != id
  {
    if files == [] then None
    else if files[0].id == id then Some(files[0])
    else FileByID(files[1..], id)
  }

  /** The page the restoration redirects to. */
  function ObjectPage(objID: int): string {
    OBJECT_PAGE + FormatInt(objID)
  }

  // ---------------------------------------------------------------------
  // GenericFileInitRestore

  /** The new item's topic is looked up from its action and stage, the
      item is enqueued under that topic, and only then is QueuedAt set and
      the item saved. A failed lookup or enqueue leaves the item and the
      table as they were. `enqueue` stands for the NSQ client. */
  method QueueRestoration(c: Context, item: WorkItem, reg: Registry,
                          enqueue: (string, int) -> Option<Error>,
                          items: seq<WorkItemRow>, now: int)
    returns (err: Option<Error>, items': seq<WorkItemRow>)
    modifies c`responses, c`aborted, item
    ensures var topic := reg.TopicFor(old(item.row).action, old(item.row).stage);
      && (topic.Err? ==> err == Some(topic.error) && item.row == old(item.row) && items' == items)
      && (topic.Ok? && enqueue(topic.value, old(item.row).id).Some? ==>
            err == enqueue(topic.value, old(item.row).id) && item.row == old(item.row) && items' == items)
      && (topic.Ok? && enqueue(topic.value, old(item.row).id).None? ==>
            SavedAs(err, item.row, items', items, old(item.row).(queuedAt := now), reg, now))
    ensures err.Some? ==> c.responses == old(c.responses) + [ErrorResponse(err.value)] && c.aborted
    ensures err.None? ==> c.responses == old(c.responses) && c.aborted == old(c.aborted)
  {
    var topic := reg.TopicFor(item.row.action, item.row.stage);
    if topic.Err? {
      err, items' := Some(topic.error), items;
    } else {
      err := enqueue(topic.value, item.row.id);
      items' := items;
      if err.None? {
        item.row := item.row.(queuedAt := now);
        err, items' := item.Save(items, reg, now);
      }
    }
    var _ := c.AbortIfError(err);
  }

  /** The checks GenericFileInitRestore makes before it creates anything:
      the file must exist (else ErrNoRows), have no pending work item
      (else ErrPendingWorkItems) and belong to an object in the table
      (else ErrNoRows). On success, the file. */
  function RestoreTarget(db: Store, fileID: int, objectIDs: set<int>, reg: Registry)
    : (r: Result<GenericFile, Error>)
    ensures r.Ok? <==>
      && FileByID(db.genericFiles, fileID).Some?
      && WorkItemsPending(db.workItems, ForFile(fileID), reg) == []
      && FileByID(db.genericFiles, fileID).value.intellectualObjectID in objectIDs
    ensures r.Ok? ==> r.value in db.genericFiles && r.value.id == fileID
    ensures r == Err(PendingWorkItems) <==>
      FileByID(db.genericFiles, fileID).Some? && WorkItemsPending(db.workItems, ForFile(fileID), reg) != []
    ensures r.Err? ==> r.error == PendingWorkItems || r.error == NoRows
  {
    match FileByID(db.genericFiles, fileID)
    case None => Err(NoRows)
    case Some(gf) =>
      if |WorkItemsPending(db.workItems, ForFile(gf.id), reg)| > 0 then Err(PendingWorkItems)
      else if gf.intellectualObjectID !in objectIDs then Err(NoRows)
      else Ok(gf)
  }

  /** NewRestorationItem followed by QueueRestoration: a failed creation
      is reported with no item; a created item, saved as `created` in
      `createdItems`, is queued. */
  method CreateAndQueueRestoration(c: Context, obj: IntellectualObject, gf: GenericFile, current: User,
                                   items: seq<WorkItemRow>, reg: Registry,
                                   enqueue: (string, int) -> Option<Error>, now: int)
    returns (err: Option<Error>, item: WorkItem?, ghost created: WorkItemRow,
             ghost createdItems: seq<WorkItemRow>, items': seq<WorkItemRow>)
    modifies c`responses, c`aborted
    ensures err.Some? ==> c.responses == old(c.responses) + [ErrorResponse(err.value)] && c.aborted
    ensures err.None? ==> item != null && c.responses == old(c.responses) && c.aborted == old(c.aborted)
    ensures LastSuccessfulIngest(items, obj.id).None? ==>
      err == Some(ERR_INVALID_COPY_FROM) && item == null && items' == items
    ensures LastSuccessfulIngest(items, obj.id).Some? ==>
      var row := RestorationRow(LastSuccessfulIngest(items, obj.id).value, now,
                                obj.IsGlacierOnly(reg), Some(gf), current.email);
      && (!ItemValid(row, reg) ==> ReportsInvalidItem(err, row, reg) && item == null && items' == items)
      && (ItemValid(row, reg) ==> item != null && SavedAs(None, created, createdItems, items, row, reg, now))
    ensures item != null ==>
      && fresh(item)
      && var topic := reg.TopicFor(created.action, created.stage);
      && (topic.Err? ==> err == Some(topic.error) && item.row == created && items' == createdItems)
      && (topic.Ok? && enqueue(topic.value, created.id).Some? ==>
            err == enqueue(topic.value, created.id) && item.row == created && items' == createdItems)
      && (topic.Ok? && enqueue(topic.value, created.id).None? ==>
            SavedAs(err, item.row, items', createdItems, created.(queuedAt := now), reg, now))
  {
    created, createdItems := ZERO_WORK_ITEM, items;
    var newItem, createErr, afterCreate := NewRestorationItem(obj, Some(gf), current, items, reg, now);
    if createErr.Some? {
      err, item, items' := createErr, null, items;
      var _ := c.AbortIfError(err);
      return;
    }
    item := newItem;
    created, createdItems := item.row, afterCreate;
    err, items' := QueueRestoration(c, item, reg, enqueue, afterCreate, now);
  }

  /** GenericFileInitRestore, for the file the resource authorization
      found (`fileID`) and the signed-in user `current`: RestoreTarget's
      checks come first, so nothing is created for a missing file, a file
      with pending work or a missing object; then the item is created and
      queued as CreateAndQueueRestoration says, and success redirects to
      the object's page. `objects` is the object table by id. */
  method GenericFileInitRestore(c: Context, current: User, fileID: int, db: Store,
                                objects: map<int, IntellectualObject>, reg: Registry,
                                enqueue: (string, int) -> Option<Error>, now: int)
    returns (err: Option<Error>, item: WorkItem?, items': seq<WorkItemRow>)
    modifies c`responses, c`aborted
    ensures err.Some? ==> c.responses == old(c.responses) + [ErrorResponse(err.value)] && c.aborted
    ensures RestoreTarget(db, fileID, objects.Keys, reg).Err? ==>
      err == Some(RestoreTarget(db, fileID, objects.Keys, reg).error) && item == null && items' == db.workItems
    ensures item != null ==> fresh(item) && RestoreTarget(db, fileID, objects.Keys, reg).Ok?
    ensures err.None? ==>
      && item != null
      && RestoreTarget(db, fileID, objects.Keys, reg).Ok?
      && c.responses == old(c.responses) +
           [Redirect(STATUS_FOUND, ObjectPage(objects[RestoreTarget(db, fileID, objects.Keys, reg).value.intellectualObjectID].id))]
      && c.aborted == old(c.aborted)
  {
    var target := RestoreTarget(db, fileID, objects.Keys, reg);
    if target.Err? {
      err, item, items' := Some(target.error), null, db.workItems;
      var _ := c.AbortIfError(err);
      return;
    }
    var gf := target.value;
    var obj := objects[gf.intellectualObjectID];
    ghost var created, createdItems;
    err, item, created, createdItems, items' :=
      CreateAndQueueRestoration(c, obj, gf, current, db.workItems, reg, enqueue, now);
    if err.None? {
      c.Respond(Redirect(STATUS_FOUND, ObjectPage(obj.id)), false);
    }
  }

  /** A restoration is never queued for a file with pending work: the
      table is left as it was and nothing is enqueued. */
  lemma PendingWorkBlocksRestore(db: Store, fileID: int, objectIDs: set<int>, reg: Registry, x: WorkItemRow)
    requires FileByID(db.genericFiles, fileID).Some?
    requires x in db.workItems && Matches(x, ForFile(fileID)) && IsPending(x, reg)
    ensures RestoreTarget(db, fileID, objectIDs, reg) == Err(PendingWorkItems)
  {
    assert x in WorkItemsPending(db.workItems, ForFile(fileID), reg);
  }

  // ---------------------------------------------------------------------
  // GenericFileReviewDelete and GenericFileCancelDelete

  /** The review page: an approved request shows "already approved", else
      a cancelled one "already cancelled", else the review form. */
  function ReviewTemplate(confirmedByID: int, cancelledByID: int): (t: string)
    ensures t == ALREADY_APPROVED_TEMPLATE <==> confirmedByID > 0
    ensures t == ALREADY_CANCELLED_TEMPLATE <==> confirmedByID <= 0 && cancelledByID > 0
    ensures t == REVIEW_TEMPLATE <==> confirmedByID <= 0 && cancelledByID <= 0
  {
    if confirmedByID > 0 then ALREADY_APPROVED_TEMPLATE
    else if cancelledByID > 0 then ALREADY_CANCELLED_TEMPLATE
    else REVIEW_TEMPLATE
  }

  /** GenericFileReviewDelete: a missing request is ErrNoRows; a "token"
      query value that does not match the stored encrypted token is
      ErrInvalidToken; otherwise the page ReviewTemplate chooses. Nothing
      changes. `requests` is the deletion request table by id. */
  method GenericFileReviewDelete(c: Context, requestID: int, requests: map<int, DeletionRequest>)
    returns (err: Option<Error>)
    modifies c`responses, c`aborted
    ensures requestID !in requests ==> err == Some(NoRows)
    ensures requestID in requests ==>
      var r := requests[requestID];
      && (!ComparePasswords(r.encryptedConfirmationToken, c.Query("token")) ==> err == Some(InvalidToken))
      && (ComparePasswords(r.encryptedConfirmationToken, c.Query("token")) ==>
            && err.None?
            && c.responses == old(c.responses) + [Page(STATUS_OK, ReviewTemplate(r.confirmedByID, r.cancelledByID))]
            && c.aborted == old(c.aborted))
    ensures err.Some? ==> c.responses == old(c.responses) + [ErrorResponse(err.value)] && c.aborted
  {
    if requestID !in requests {
      err := Some(NoRows);
      var _ := c.AbortIfError(err);
      return;
    }
    var request := requests[requestID];
    var token := c.Query("token");
    if !ComparePasswords(request.encryptedConfirmationToken, token) {
      err := Some(InvalidToken);
      var _ := c.AbortIfError(err);
      return;
    }
    err := None;
    c.Respond(Page(STATUS_OK, ReviewTemplate(request.confirmedByID, request.cancelledByID)), false);
  }

  /** Records the cancellation on the request. */
  method SetCancelled(request: DeletionRequest, user: User, now: int)
    modifies request`cancelledByID, request`cancelledAt
    ensures request.cancelledByID == user.id && request.cancelledAt == now
  {
    request.cancelledByID := user.id;
    request.cancelledAt := now;
  }

  /** GenericFileCancelDelete: a missing request is ErrNoRows; a posted
      "token" that does not match is ErrInvalidToken, and the request is
      left alone. Otherwise CancelledByID becomes the current user's id,
      CancelledAt the time and CancelledBy the user. Reading the first
      file of the request then panics (`panicked`) when its file list is
      nil or empty; otherwise the answer is the "cancelled" page. */
  method GenericFileCancelDelete(c: Context, current: User, requestID: int,
                                 requests: map<int, DeletionRequest>, now: int)
    returns (err: Option<Error>, panicked: bool)
    modifies c`responses, c`aborted
    modifies if requestID in requests then {requests[requestID]} else {}
    ensures requestID !in requests ==> err == Some(NoRows) && !panicked
    ensures requestID in requests ==>
      var r := requests[requestID];
      && (!ComparePasswords(r.encryptedConfirmationToken, c.PostForm("token")) ==>
            err == Some(InvalidToken) && !panicked
            && r.cancelledByID == old(r.cancelledByID) && r.cancelledAt == old(r.cancelledAt)
            && r.cancelledBy == old(r.cancelledBy))
      && (ComparePasswords(r.encryptedConfirmationToken, c.PostForm("token")) ==>
            && err.None?
            && r.cancelledByID == current.id && r.cancelledAt == now && r.cancelledBy == current
            && (panicked <==> r.genericFiles.None? || r.genericFiles.value == [])
            && (!panicked ==> c.responses == old(c.responses) + [Page(STATUS_OK, CANCELLED_TEMPLATE)])
            && (panicked ==> c.responses == old(c.responses))
            && c.aborted == old(c.aborted))
      && r.genericFiles == old(r.genericFiles) && r.requestedBy == old(r.requestedBy)
      && r.intellectualObjects == old(r.intellectualObjects)
    ensures err.Some? ==> c.responses == old(c.responses) + [ErrorResponse(err.value)] && c.aborted
  {
    panicked := false;
    if requestID !in requests {
      err := Some(NoRows);
      var _ := c.AbortIfError(err);
      return;
    }
    var request := requests[requestID];
    var token := c.PostForm("token");
    if !ComparePasswords(request.encryptedConfirmationToken, token) {
      err := Some(InvalidToken);
      var _ := c.AbortIfError(err);
      return;
    }
    err := None;
    SetCancelled(request, current, now);
    request.cancelledBy := current;
    if request.genericFiles.None? || request.genericFiles.value == [] {
      panicked := true;
      return;
    }
    c.Respond(Page(STATUS_OK, CANCELLED_TEMPLATE), false);
  }

  /** GenericFileCancelDelete as meant: the alert's institution is the
      request's own, so no file is read and a request without files is
      cancelled like any other. */
  method GenericFileCancelDeleteIntended(c: Context, current: User, requestID: int,
                                         requests: map<int, DeletionRequest>, now: int)
    returns (err: Option<Error>)
    modifies c`responses, c`aborted
    modifies if requestID in requests then {requests[requestID]} else {}
    ensures requestID !in requests ==> err == Some(NoRows)
    ensures requestID in requests ==>
      var r := requests[requestID];
      && (!ComparePasswords(r.encryptedConfirmationToken, c.PostForm("token")) ==>
            err == Some(InvalidToken)
            && r.cancelledByID == old(r.cancelledByID) && r.cancelledAt == old(r.cancelledAt)
            && r.cancelledBy == old(r.cancelledBy))
      && (ComparePasswords(r.encryptedConfirmationToken, c.PostForm("token")) ==>
            && err.None?
            && r.cancelledByID == current.id && r.cancelledAt == now && r.cancelledBy == current
            && c.responses == old(c.responses) + [Page(STATUS_OK, CANCELLED_TEMPLATE)]
            && c.aborted == old(c.aborted))
      && r.genericFiles == old(r.genericFiles) && r.requestedBy == old(r.requestedBy)
      && r.intellectualObjects == old(r.intellectualObjects)
    ensures err.Some? ==> c.responses == old(c.responses) + [ErrorResponse(err.value)] && c.aborted
  {
    if requestID !in requests {
      err := Some(NoRows);
      var _ := c.AbortIfError(err);
      return;
    }
    var request := requests[requestID];
    if !ComparePasswords(request.encryptedConfirmationToken, c.PostForm("token")) {
      err := Some(InvalidToken);
      var _ := c.AbortIfError(err);
      return;
    }
    err := None;
    SetCancelled(request, current, now);
    request.cancelledBy := current;
    c.Respond(Page(STATUS_OK, CANCELLED_TEMPLATE), false);
  }

  /** Once a user with a positive id has cancelled an unapproved request,
      its review shows "already cancelled"; an approval still wins. */
  lemma CancelledRequestReviewsAsCancelled(confirmedByID: int, user: User)
    requires user.id > 0
    ensures confirmedByID <= 0 ==> ReviewTemplate(confirmedByID, user.id) == ALREADY_CANCELLED_TEMPLATE
    ensures confirmedByID > 0 ==> ReviewTemplate(confirmedByID, user.id) == ALREADY_APPROVED_TEMPLATE
  {
  }

  /** The token a new deletion request mails out passes the review and the
      cancel check of that request. */
  lemma NewRequestTokenPasses(randomBytes: seq<Byte>, salt: Salt, request: DeletionRequest)
    requires |randomBytes| == 16
    requires request.encryptedConfirmationToken == EncryptPassword(RandomToken(randomBytes), Some(salt)).digest
    ensures ComparePasswords(request.encryptedConfirmationToken, RandomToken(randomBytes))
  {
    NewTokenIsReviewable(randomBytes, salt);
  }
}
