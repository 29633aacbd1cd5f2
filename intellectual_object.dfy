/** Intellectual objects (pgmodels/intellectual_object.go): validation,
    the changes an update may not make, and the deletion approval chain
    that guards a soft delete. */
module IntellectualObjects {
  import opened Wrappers
  import opened Errors
  import opened Constants
  import opened Records
  import opened Strconv

  const AGENT_PRESERVATION_SERVICES := "APTrust preservation services"
  const DELETION_DETAIL := "Object deleted from preservation storage"
  const DELETION_OBJECT := "Minio S3 library"

  /** isGlacierOnly: the storage option keeps the object in Glacier only. */
  predicate IsGlacierOnlyOption(c: Registry, storageOption: string) {
    storageOption in c.glacierOnlyOptions
  }

  /** `e` is an object-level event of type `eventType` for object `objID`
      (generic_file_id is NULL). A zero intellectualObjectID is a NULL
      column, which equals no id. */
  predicate IsObjectEvent(e: PremisEvent, objID: int, eventType: string) {
    e.intellectualObjectID != 0 && e.intellectualObjectID == objID
    && e.eventType == eventType && e.genericFileID == 0
  }

  /** lastEvent: the most recently created matching event, or nil. */
  function LatestEvent(events: seq<PremisEvent>, objID: int, eventType: string): (r: Option<PremisEvent>)
    ensures r.None? <==> forall e :: e in events ==> !IsObjectEvent(e, objID, eventType)
    ensures r.Some? ==> r.value in events && IsObjectEvent(r.value, objID, eventType)
    ensures r.Some? ==> forall e :: e in events && IsObjectEvent(e, objID, eventType) ==>
                          e.createdAt <= r.value.createdAt
  {
    if events == [] then None
    else
      var rest := LatestEvent(events[1..], objID, eventType);
      if !IsObjectEvent(events[0], objID, eventType) then rest
      else if rest.Some? && rest.value.createdAt >= events[0].createdAt then rest
      else Some(events[0])
  }

  /** The work items ActiveDeletionWorkItem looks for: object-level
      Delete items in status Started (a zero intellectualObjectID is NULL
      and matches no object). */
  predicate IsActiveDeletion(w: WorkItemRow, objID: int) {
    w.intellectualObjectID != 0 && w.intellectualObjectID == objID && w.genericFileID == 0
    && w.action == ACTION_DELETE && w.status == STATUS_STARTED
  }

  /** ActiveDeletionWorkItem: the most recently updated active deletion
      item, or nil when there is none. A zero UpdatedAt (NULL) would sort
      last here and first under Postgres DESC; Save stamps UpdatedAt
      before every write, so no stored row has one. */
  function LatestActiveDeletion(items: seq<WorkItemRow>, objID: int): (r: Option<WorkItemRow>)
    ensures r.None? <==> forall w :: w in items ==> !IsActiveDeletion(w, objID)
    ensures r.Some? ==> r.value in items && IsActiveDeletion(r.value, objID)
    ensures r.Some? ==> forall w :: w in items && IsActiveDeletion(w, objID) ==>
                          w.updatedAt <= r.value.updatedAt
  {
    if items == [] then None
    else
      var rest := LatestActiveDeletion(items[1..], objID);
      if !IsActiveDeletion(items[0], objID) then rest
      else if rest.Some? && rest.value.updatedAt >= items[0].updatedAt then rest
      else Some(items[0])
  }

  /** The deletion requests linked to a work item that cover objects and
      no files. */
  predicate IsObjectDeletionRequest(v: DeletionRequestView, workItemID: int) {
    v.workItemID == workItemID && v.objectCount > 0 && v.fileCount == 0
  }

  /** DeletionRequest(workItemID): the first such request, or nil. */
  function FindDeletionRequest(views: seq<DeletionRequestView>, workItemID: int): (r: Option<DeletionRequestView>)
    ensures r.None? <==> forall v :: v in views ==> !IsObjectDeletionRequest(v, workItemID)
    ensures r.Some? ==> r.value in views && IsObjectDeletionRequest(r.value, workItemID)
  {
    if views == [] then None
    else if IsObjectDeletionRequest(views[0], workItemID) then Some(views[0])
    else FindDeletionRequest(views[1..], workItemID)
  }

  /** What assertDeletionApproved returns: the work item and request it
      found, and the error. */
  datatype Approval = Approval(
    item: Option<WorkItemRow>,
    request: Option<DeletionRequestView>,
    err: Option<Error>)

  class IntellectualObject {
    const id: int
    const title: string
    const identifier: string
    const access: string
    const bagName: string
    const institutionID: int
    const storageOption: string
    const bagItProfileIdentifier: string
    const etag: string
    var state: string
    var updatedAt: int

    constructor (id: int, title: string, identifier: string, access: string, bagName: string,
                 institutionID: int, storageOption: string, bagItProfileIdentifier: string,
                 etag: string, state: string, updatedAt: int)
      ensures this.id == id && this.title == title && this.identifier == identifier
      ensures this.access == access && this.bagName == bagName
      ensures this.institutionID == institutionID && this.storageOption == storageOption
      ensures this.bagItProfileIdentifier == bagItProfileIdentifier && this.etag == etag
      ensures this.state == state && this.updatedAt == updatedAt
    {
      this.id := id;
      this.title := title;
      this.identifier := identifier;
      this.access := access;
      this.bagName := bagName;
      this.institutionID := institutionID;
      this.storageOption := storageOption;
      this.bagItProfileIdentifier := bagItProfileIdentifier;
      this.etag := etag;
      this.state := state;
      this.updatedAt := updatedAt;
    }

    predicate IsGlacierOnly(c: Registry) {
      IsGlacierOnlyOption(c, storageOption)
    }

    /** The checks Validate makes, in its order. */
    function Checks(c: Registry): (cs: seq<Check>)
      reads this
      ensures |cs| == 7
    {
      [ Check("Title", IsEmptyString(title), "Title is required"),
        Check("Identifier", IsEmptyString(identifier), "Identifier is required"),
        Check("State", state !in c.states, ERR_INST_STATE),
        Check("Access", access !in c.accessSettings, "Invalid access value"),
        Check("InstitutionID", institutionID < 1, "Invalid institution id"),
        Check("StorageOption", storageOption !in c.storageOptions, "Invalid storage option"),
        Check("BagItProfileIdentifier", IsEmptyString(bagItProfileIdentifier),
              "BagItProfileIdentifier is required") ]
    }

    /** Every check Validate makes passes. */
    predicate Valid(c: Registry)
      reads this
    {
      && !IsEmptyString(title) && !IsEmptyString(identifier)
      && state in c.states && access in c.accessSettings
      && institutionID >= 1 && storageOption in c.storageOptions
      && !IsEmptyString(bagItProfileIdentifier)
    }

    /** Each check reports under a key of its own. */
    lemma ChecksDistinct(c: Registry)
      ensures DistinctKeys(Checks(c))
    {
      var cs := Checks(c);
      assert forall i :: 0 <= i < 7 ==> |cs[i].key| >= 5;
      assert cs[0].key[0] == 'T' && cs[1].key[0] == 'I' && cs[2].key[0] == 'S' && cs[3].key[0] == 'A';
      assert cs[4].key[1] == 'n' && cs[5].key[1] == 't' && cs[6].key[0] == 'B';
      assert cs[1].key[1] == 'd' && cs[2].key[1] == 't';
    }

    /** The map Validate builds reports its seven checks, and it is empty
        exactly when the object is valid. */
    lemma ChecksReport(c: Registry)
      ensures Reports(Run(Checks(c)), Checks(c))
      ensures Run(Checks(c)) == map[] <==> Valid(c)
    {
      var cs := Checks(c);
      ChecksDistinct(c);
      RunReports(cs);
      ReportEmptyIffAllPass(Run(cs), cs);
      if forall i :: 0 <= i < 7 ==> !cs[i].failed {
        assert !cs[0].failed && !cs[1].failed && !cs[2].failed && !cs[3].failed;
        assert !cs[4].failed && !cs[5].failed && !cs[6].failed;
      }
    }

    /** Validate: runs the seven checks in order on an empty errors map;
        nil when the map stays empty. */
    function Validate(c: Registry): (v: Option<ValidationError>)
      reads this
      ensures v.None? <==> Valid(c)
      ensures v.Some? ==> v.value.errors.Some? && Reports(v.value.errors.value, Checks(c))
    {
      var errors := Run(Checks(c));
      ChecksReport(c);
      if errors != map[] then  // len(errors) > 0
        Some(ValidationError(Some(errors)))
      else
        None
    }

    /** ValidateChanges: the id, institution and identifier never change,
        checked in that order, and the storage option may not change while
        the existing object is active. */
    function ValidateChanges(updated: IntellectualObject): (err: Option<Error>)
      reads this
      ensures err == Some(IDMismatch) <==> id != updated.id
      ensures err == Some(InstIDChange) <==> id == updated.id && institutionID != updated.institutionID
      ensures err == Some(IdentifierChange) <==>
        id == updated.id && institutionID == updated.institutionID && identifier != updated.identifier
      ensures err == Some(StorageOptionChange) <==>
        id == updated.id && institutionID == updated.institutionID && identifier == updated.identifier
        && state == STATE_ACTIVE && storageOption != updated.storageOption
      ensures err.None? <==>
        id == updated.id && institutionID == updated.institutionID && identifier == updated.identifier
        && (state == STATE_ACTIVE ==> storageOption == updated.storageOption)
    {
      if id != updated.id then Some(IDMismatch)
      else if institutionID != updated.institutionID then Some(InstIDChange)
      else if identifier != updated.identifier then Some(IdentifierChange)
      else if state == STATE_ACTIVE && storageOption != updated.storageOption then Some(StorageOptionChange)
      else None
    }

    /** HasActiveFiles: an active file of this object (a zero
        intellectualObjectID is NULL and belongs to no object). */
    predicate HasActiveFiles(db: Store) {
      exists f :: f in db.genericFiles && f.intellectualObjectID != 0 && f.intellectualObjectID == id
                  && f.state == STATE_ACTIVE
    }

    /** assertNoActiveFiles */
    function AssertNoActiveFiles(db: Store): (err: Option<Error>)
      ensures err.None? <==> !HasActiveFiles(db)
      ensures err.Some? ==> err.value == ActiveFiles
    {
      if HasActiveFiles(db) then Some(ActiveFiles) else None
    }

    /** What assertNotAlreadyDeleted decides: an object already in state
        D, or one without an ingest event, fails. */
    function AlreadyDeletedError(db: Store): Option<Error>
      reads this
    {
      if state == STATE_DELETED then Some(Message("Object is already in deleted state"))
      else if LatestEvent(db.premisEvents, id, EVENT_INGESTION).None? then
        Some(Message("Can't find last ingest event"))
      else None
    }

    /** assertNotAlreadyDeleted, as written: the deletion-event check
        declares its own `err`, so what it finds is never returned. */
    method AssertNotAlreadyDeleted(db: Store) returns (err: Option<Error>)
      ensures err == AlreadyDeletedError(db)
      ensures err.None? <==>
        state != STATE_DELETED && LatestEvent(db.premisEvents, id, EVENT_INGESTION).Some?
    {
      err := None;
      var lastIngestEvent: Option<PremisEvent> := None;
      if state == STATE_DELETED {
        err := Some(Message("Object is already in deleted state"));
      }
      if err.None? {
        lastIngestEvent := LatestEvent(db.premisEvents, id, EVENT_INGESTION);
        if lastIngestEvent.None? {
          err := Some(Message("Can't find last ingest event"));
        }
      }
      if err.None? {
        var lastDeletionEvent := LatestEvent(db.premisEvents, id, EVENT_DELETION);
        var err: Option<Error> := None;
        if lastDeletionEvent.Some? && lastDeletionEvent.value.createdAt > lastIngestEvent.value.createdAt {
          err := Some(Message("Object has already been deleted since last ingest"));
        }
      }
    }

    /** A deletion event of this object was created after its last
        ingest event. */
    predicate DeletedSinceIngest(db: Store)
      reads this
    {
      var ingest := LatestEvent(db.premisEvents, id, EVENT_INGESTION);
      var deletion := LatestEvent(db.premisEvents, id, EVENT_DELETION);
      ingest.Some? && deletion.Some? && deletion.value.createdAt > ingest.value.createdAt
    }

    /** assertNotAlreadyDeleted as its authors meant it: the check of the
        last deletion event reports through the function's own `err`. */
    function AlreadyDeletedErrorIntended(db: Store): (err: Option<Error>)
      reads this
      ensures err.None? <==>
        state != STATE_DELETED && LatestEvent(db.premisEvents, id, EVENT_INGESTION).Some?
        && !DeletedSinceIngest(db)
      ensures AlreadyDeletedError(db).Some? ==> err == AlreadyDeletedError(db)
    {
      if AlreadyDeletedError(db).Some? then AlreadyDeletedError(db)
      else if DeletedSinceIngest(db) then Some(Message("Object has already been deleted since last ingest"))
      else None
    }

    /** The shadowed `err` lets an object that was deleted after its last
        ingest pass the written check, which the intended one refuses. */
    lemma ShadowedErrPassesRedeletion(db: Store)
      requires state != STATE_DELETED && DeletedSinceIngest(db)
      ensures AlreadyDeletedError(db).None?
      ensures AlreadyDeletedErrorIntended(db) == Some(Message("Object has already been deleted since last ingest"))
    {
    }

    /** assertDeletionApproved: a started Delete work item with an
        institutional approver, a deletion request for it that covers
        objects only, and that request's requester and confirmer. The
        messages name the work item or the request by id. */
    function AssertDeletionApproved(db: Store): (a: Approval)
      ensures a.err.None? <==>
        && LatestActiveDeletion(db.workItems, id).Some?
        && !IsEmptyString(LatestActiveDeletion(db.workItems, id).value.instApprover)
        && FindDeletionRequest(db.deletionRequestViews, LatestActiveDeletion(db.workItems, id).value.id).Some?
        && FindDeletionRequest(db.deletionRequestViews, LatestActiveDeletion(db.workItems, id).value.id).value.requestedByID != 0
        && FindDeletionRequest(db.deletionRequestViews, LatestActiveDeletion(db.workItems, id).value.id).value.confirmedByID != 0
      ensures a.err.None? ==> a.item.Some? && a.request.Some?
      ensures a.item.Some? ==> a.item == LatestActiveDeletion(db.workItems, id)
      ensures a.request.Some? ==> a.item.Some? && a.request == FindDeletionRequest(db.deletionRequestViews, a.item.value.id)
      ensures LatestActiveDeletion(db.workItems, id).None? ==>
        a.err == Some(Message("Missing deletion request work item"))
      ensures a.item.Some? && IsEmptyString(a.item.value.instApprover) ==>
        a.err == Some(Message("Deletion work item is missing institutional approver"))
      ensures a.item.Some? && a.request.None? && a.err.Some? && !IsEmptyString(a.item.value.instApprover) ==>
        a.err == Some(Message(NoRequestMessage(a.item.value.id)))
      ensures a.request.Some? && a.request.value.requestedByID == 0 ==>
        a.err == Some(Message(NoRequestorMessage(a.request.value.id)))
      ensures a.request.Some? && a.request.value.requestedByID != 0 && a.request.value.confirmedByID == 0 ==>
        a.err == Some(Message(NoApproverMessage(a.request.value.id)))
    {
      var workItem := LatestActiveDeletion(db.workItems, id);
      if workItem.None? then
        Approval(None, None, Some(Message("Missing deletion request work item")))
      else if IsEmptyString(workItem.value.instApprover) then
        Approval(workItem, None, Some(Message("Deletion work item is missing institutional approver")))
      else
        var request := FindDeletionRequest(db.deletionRequestViews, workItem.value.id);
        if request.None? then
          Approval(workItem, None, Some(Message(NoRequestMessage(workItem.value.id))))
        else if request.value.requestedByID == 0 then
          Approval(workItem, request, Some(Message(NoRequestorMessage(request.value.id))))
        else if request.value.confirmedByID == 0 then
          Approval(workItem, request, Some(Message(NoApproverMessage(request.value.id))))
        else
          Approval(workItem, request, None)
    }

    /** The three deletion preconditions in order, the first failure winning. */
    function PreconditionError(db: Store): Option<Error>
      reads this
    {
      if AssertNoActiveFiles(db).Some? then AssertNoActiveFiles(db)
      else if AlreadyDeletedError(db).Some? then AlreadyDeletedError(db)
      else AssertDeletionApproved(db).err
    }

    /** AssertDeletionPreconditions: no active files, then not already
        deleted, then approved; each check runs only if the earlier ones
        passed. */
    method AssertDeletionPreconditions(db: Store) returns (err: Option<Error>)
      ensures err == PreconditionError(db)
      ensures HasActiveFiles(db) ==> err == Some(ActiveFiles)
      ensures !HasActiveFiles(db) && state == STATE_DELETED ==>
                err == Some(Message("Object is already in deleted state"))
      ensures err.None? <==>
        && !HasActiveFiles(db)
        && state != STATE_DELETED
        && LatestEvent(db.premisEvents, id, EVENT_INGESTION).Some?
        && AssertDeletionApproved(db).err.None?
    {
      err := AssertNoActiveFiles(db);
      if err.None? {
        err := AssertNotAlreadyDeleted(db);
      }
      if err.None? {
        err := AssertDeletionApproved(db).err;
      }
    }

    /** NewDeletionEvent: fails as approval fails; otherwise a successful
        deletion event for this object whose detail is the requester's
        email and whose information names requester and confirmer. */
    function NewDeletionEvent(db: Store, now: int, uuid: string): (r: Result<PremisEvent, Error>)
      ensures r.Err? <==> AssertDeletionApproved(db).err.Some?
      ensures r.Err? ==> r.error == AssertDeletionApproved(db).err.value
      ensures r.Ok? ==>
        var req := AssertDeletionApproved(db).request.value;
        && r.value.eventType == EVENT_DELETION
        && r.value.outcome == OUTCOME_SUCCESS
        && r.value.outcomeDetail == req.requestedByEmail
        && r.value.outcomeInformation == DeletionInformation(req.requestedByEmail, req.confirmedByEmail)
        && r.value.institutionID == institutionID
        && r.value.intellectualObjectID == id
        && r.value.genericFileID == 0
        && r.value.dateTime == now
        && r.value.identifier == uuid
    {
      var approval := AssertDeletionApproved(db);
      if approval.err.Some? then Err(approval.err.value)
      else
        var req := approval.request.value;
        Ok(PremisEvent(
          AGENT_PRESERVATION_SERVICES, now, DELETION_DETAIL, EVENT_DELETION, uuid,
          institutionID, id, 0, DELETION_OBJECT, OUTCOME_SUCCESS,
          req.requestedByEmail,
          DeletionInformation(req.requestedByEmail, req.confirmedByEmail),
          0))
    }

    /** Delete, in memory: a failed precondition returns its error and
        changes nothing; otherwise State becomes D and UpdatedAt `now`
        before validation and event creation, so a later failure leaves
        them set. The deletion event gets its timestamps (SetTimestamps on
        a new event sets createdAt to now), and on success it is returned
        for the transaction that writes both. */
    method Delete(db: Store, c: Registry, now: int, uuid: string)
      returns (err: Option<Error>, event: Option<PremisEvent>)
      modifies this
      ensures old(PreconditionError(db)).Some? ==>
        err == old(PreconditionError(db)) && state == old(state) && updatedAt == old(updatedAt) && event.None?
      ensures old(PreconditionError(db)).None? ==> state == STATE_DELETED && updatedAt == now
      ensures old(PreconditionError(db)).None? && Validate(c).Some? ==>
        err == Some(Validation(Validate(c).value)) && event.None?
      ensures old(PreconditionError(db)).None? && Validate(c).None? ==>
        err.None? && event == Some(NewDeletionEvent(db, now, uuid).value.(createdAt := now))
      ensures event.Some? ==> event.value.createdAt == now && event.value.dateTime == now
    {
      event := None;
      err := AssertDeletionPreconditions(db);
      if err.Some? {
        return;
      }
      state := STATE_DELETED;
      updatedAt := now;
      var valErr := Validate(c);
      if valErr.Some? {
        err := Some(Validation(valErr.value));
        return;
      }
      // The approval check already passed on the same tables, so the
      // event is always built here.
      var deletionEvent := NewDeletionEvent(db, now, uuid).value;
      deletionEvent := deletionEvent.(createdAt := now);  // SetTimestamps
      event := Some(deletionEvent);
    }
  }

  /** Once Delete's event is stored, the object counts as deleted since
      its last ingest whenever that ingest was recorded before `now`. */
  lemma DeletionEventFollowsIngest(events: seq<PremisEvent>, e: PremisEvent, objID: int, now: int)
    requires IsObjectEvent(e, objID, EVENT_DELETION) && e.createdAt == now
    requires LatestEvent(events, objID, EVENT_INGESTION).Some?
    requires LatestEvent(events, objID, EVENT_INGESTION).value.createdAt < now
    ensures var all := events + [e];
      && LatestEvent(all, objID, EVENT_INGESTION) == LatestEvent(events, objID, EVENT_INGESTION)
      && LatestEvent(all, objID, EVENT_DELETION).Some?
      && LatestEvent(all, objID, EVENT_DELETION).value.createdAt > LatestEvent(all, objID, EVENT_INGESTION).value.createdAt
  {
    LatestEventAppend(events, e, objID, EVENT_INGESTION);
    assert e in events + [e];
  }

  /** Appending an event of another kind leaves the latest event of a
      kind as it was. */
  lemma {:induction false} LatestEventAppend(events: seq<PremisEvent>, e: PremisEvent, objID: int, eventType: string)
    requires !IsObjectEvent(e, objID, eventType)
    ensures LatestEvent(events + [e], objID, eventType) == LatestEvent(events, objID, eventType)
  {
    if events == [] {
      assert [e][1..] == [];
    } else {
      assert (events + [e])[1..] == events[1..] + [e];
      LatestEventAppend(events[1..], e, objID, eventType);
    }
  }

  /** "No deletion request for work item %d". */
  function NoRequestMessage(workItemID: int): string {
    "No deletion request for work item " + FormatInt(workItemID)
  }

  /** "Deletion request %d has no requestor". */
  function NoRequestorMessage(requestID: int): string {
    "Deletion request " + FormatInt(requestID) + " has no requestor"
  }

  /** "Deletion request %d has no approver". */
  function NoApproverMessage(requestID: int): string {
    "Deletion request " + FormatInt(requestID) + " has no approver"
  }

  /** The messages name the work item or request they are about: two
      different ids never give the same message. */
  lemma ApprovalMessagesNameTheirIds(i: int, j: int)
    requires MIN_INT64 <= i <= MAX_INT64 && MIN_INT64 <= j <= MAX_INT64
    requires i != j
    ensures NoRequestMessage(i) != NoRequestMessage(j)
    ensures NoRequestorMessage(i) != NoRequestorMessage(j)
    ensures NoApproverMessage(i) != NoApproverMessage(j)
  {
    ParseFormat(i);
    ParseFormat(j);
    var p := "No deletion request for work item ";
    assert FormatInt(i) != FormatInt(j);
    assert NoRequestMessage(i)[|p|..] == FormatInt(i);
    assert NoRequestMessage(j)[|p|..] == FormatInt(j);
    var q := "Deletion request ";
    NameOfIdMessage(q, FormatInt(i), FormatInt(j), " has no requestor");
    NameOfIdMessage(q, FormatInt(i), FormatInt(j), " has no approver");
  }

  /** Two messages built from a fixed head and tail around different
      printed ids differ. */
  lemma NameOfIdMessage(head: string, a: string, b: string, tail: string)
    requires a != b
    ensures head + a + tail != head + b + tail
  {
    if |a| == |b| {
      var k :| 0 <= k < |a| && a[k] != b[k];
      assert (head + a + tail)[|head| + k] == a[k];
      assert (head + b + tail)[|head| + k] == b[k];
    } else {
      assert |head + a + tail| != |head + b + tail|;
    }
  }

  /** The OutcomeInformation of a deletion event. */
  function DeletionInformation(requester: string, confirmer: string): string {
    "Object deleted at the request of " + requester + ". Institutional approver: " + confirmer + "."
  }
}
