/** The work item ledger (pgmodels/work_item.go): validation, the rule
    that identity fields never change, the requeue transition, new items
    cloned from the last successful ingest, and the pending filters. The
    work_items table is a sequence of rows; Save inserts or updates a row
    of it. */
module WorkItems {
  import opened Wrappers
  import opened Errors
  import opened Constants
  import opened Records
  import opened IntellectualObjects
  import opened Strconv

  // ---------------------------------------------------------------------
  // Validation

  const ERR_ITEM_NAME := "Name is required."
  const ERR_ITEM_ETAG := "ETag is required (32-40 bytes)."
  const ERR_ITEM_BAG_DATE := "BagDate is required."
  const ERR_ITEM_BUCKET := "Bucket is required."
  const ERR_ITEM_USER := "User must be a valid email address."
  const ERR_ITEM_INST_ID := "InstitutionID is required."
  const ERR_ITEM_DATE_PROCESSED := "DateProcessed is required."
  const ERR_ITEM_NOTE := "Note cannot be empty."
  const ERR_ITEM_ACTION := "Action is missing or invalid."
  const ERR_ITEM_STAGE := "Stage is missing or invalid."
  const ERR_ITEM_STATUS := "Status is missing or invalid."
  const ERR_ITEM_OUTCOME := "Outcome cannot be empty."

  /** The checks Validate makes, in its order. As the code is written,
      the Note and Outcome checks test the length of Name. */
  function ItemChecks(r: WorkItemRow, c: Registry): (cs: seq<Check>)
    ensures |cs| == 12
  {
    [ Check("Name", !IsByteLength(r.name, 1, 1000), ERR_ITEM_NAME),
      Check("ETag", !IsByteLength(r.etag, 32, 40), ERR_ITEM_ETAG),
      Check("BagDate", r.bagDate == 0, ERR_ITEM_BAG_DATE),
      Check("Bucket", !IsByteLength(r.bucket, 1, 1000), ERR_ITEM_BUCKET),
      Check("User", !c.isEmail(r.user), ERR_ITEM_USER),
      Check("InstitutionID", r.institutionID < 1, ERR_ITEM_INST_ID),
      Check("DateProcessed", r.dateProcessed == 0, ERR_ITEM_DATE_PROCESSED),
      Check("Note", !IsByteLength(r.name, 1, 10000), ERR_ITEM_NOTE),
      Check("Action", r.action !in c.workItemActions, ERR_ITEM_ACTION),
      Check("Stage", r.stage !in c.stages, ERR_ITEM_STAGE),
      Check("Status", r.status !in c.statuses, ERR_ITEM_STATUS),
      Check("Outcome", !IsByteLength(r.name, 1, 1000), ERR_ITEM_OUTCOME) ]
  }

  /** Each check reports under a key of its own. */
  lemma ItemChecksDistinct(r: WorkItemRow, c: Registry)
    ensures DistinctKeys(ItemChecks(r, c))
  {
    var cs := ItemChecks(r, c);
    assert forall i :: 0 <= i < 12 ==> |cs[i].key| >= 4;
    assert cs[0].key[0] == 'N' && cs[0].key[1] == 'a';
    assert cs[7].key[0] == 'N' && cs[7].key[1] == 'o';
    assert cs[2].key[1] == 'a' && cs[3].key[1] == 'u';
    assert cs[9].key[3] == 'g' && cs[10].key[3] == 't';
  }

  /** The map Validate builds is the report of its twelve checks, and it
      is empty exactly when the row is valid. */
  lemma ItemErrorsReport(r: WorkItemRow, c: Registry)
    ensures ReportsItemErrors(Run(ItemChecks(r, c)), r, c)
    ensures Run(ItemChecks(r, c)) == map[] <==> ItemValid(r, c)
  {
    ItemChecksDistinct(r, c);
    RunReports(ItemChecks(r, c));
    EmptyReportIffValid(Run(ItemChecks(r, c)), r, c);
  }

  /** A row is valid when it passes all twelve checks. */
  predicate ItemValid(r: WorkItemRow, c: Registry) {
    && IsByteLength(r.name, 1, 1000)
    && IsByteLength(r.etag, 32, 40)
    && r.bagDate != 0
    && IsByteLength(r.bucket, 1, 1000)
    && c.isEmail(r.user)
    && r.institutionID >= 1
    && r.dateProcessed != 0
    && IsByteLength(r.name, 1, 10000)
    && r.action in c.workItemActions
    && r.stage in c.stages
    && r.status in c.statuses
  }

  /** `m` is the errors map Validate reports for `r`. */
  predicate ReportsItemErrors(m: map<string, string>, r: WorkItemRow, c: Registry) {
    Reports(m, ItemChecks(r, c))
  }

  /** The error Save and Validate return for an invalid row. */
  predicate ReportsInvalidItem(err: Option<Error>, r: WorkItemRow, c: Registry) {
    && err.Some? && err.value.Validation? && err.value.v.errors.Some?
    && ReportsItemErrors(err.value.v.errors.value, r, c)
  }

  /** The report is empty exactly when the row is valid. */
  lemma EmptyReportIffValid(m: map<string, string>, r: WorkItemRow, c: Registry)
    requires ReportsItemErrors(m, r, c)
    ensures m == map[] <==> ItemValid(r, c)
  {
    var cs := ItemChecks(r, c);
    ReportEmptyIffAllPass(m, cs);
    if forall i :: 0 <= i < |cs| ==> !cs[i].failed {
      assert !cs[0].failed && !cs[1].failed && !cs[2].failed && !cs[3].failed;
      assert !cs[4].failed && !cs[5].failed && !cs[6].failed && !cs[7].failed;
      assert !cs[8].failed && !cs[9].failed && !cs[10].failed;
    }
  }

  /** A zero WorkItem fails every one of the twelve checks. */
  lemma ZeroItemFailsEveryCheck(m: map<string, string>, c: Registry)
    requires c.RejectsZeroValues()
    requires ReportsItemErrors(m, ZERO_WORK_ITEM, c)
    ensures "Name" in m && "ETag" in m && "BagDate" in m && "Bucket" in m
    ensures "User" in m && "InstitutionID" in m && "DateProcessed" in m && "Note" in m
    ensures "Action" in m && "Stage" in m && "Status" in m && "Outcome" in m
  {
    var cs := ItemChecks(ZERO_WORK_ITEM, c);
    assert cs[0].key in m && cs[1].key in m && cs[2].key in m && cs[3].key in m;
    assert cs[4].key in m && cs[5].key in m && cs[6].key in m && cs[7].key in m;
    assert cs[8].key in m && cs[9].key in m && cs[10].key in m && cs[11].key in m;
  }

  /** Note and Outcome are never looked at: changing them changes neither
      validity nor the report. */
  lemma NoteAndOutcomeIgnored(m: map<string, string>, r: WorkItemRow, note: string, outcome: string,
                              c: Registry)
    ensures ItemValid(r.(note := note, outcome := outcome), c) <==> ItemValid(r, c)
    ensures ReportsItemErrors(m, r.(note := note, outcome := outcome), c) <==> ReportsItemErrors(m, r, c)
  {
    assert ItemChecks(r.(note := note, outcome := outcome), c) == ItemChecks(r, c);
  }

  /** An item with an acceptable Name and empty Note and Outcome has no
      Note or Outcome error. */
  lemma EmptyNoteAccepted(m: map<string, string>, r: WorkItemRow, c: Registry)
    requires ReportsItemErrors(m, r, c)
    requires 1 <= |r.name| <= 1000 && r.note == "" && r.outcome == ""
    ensures "Note" !in m && "Outcome" !in m
  {
    var cs := ItemChecks(r, c);
    assert cs[7].key == "Note" && cs[11].key == "Outcome";
  }

  /** The checks as their messages describe them: Note and Outcome test
      the Note and Outcome columns. */
  function ItemChecksIntended(r: WorkItemRow, c: Registry): (cs: seq<Check>)
    ensures |cs| == 12
  {
    ItemChecks(r, c)[7 := Check("Note", !IsByteLength(r.note, 1, 10000), ERR_ITEM_NOTE)]
                    [11 := Check("Outcome", !IsByteLength(r.outcome, 1, 1000), ERR_ITEM_OUTCOME)]
  }

  /** With the intended checks, the report has a Note or Outcome entry
      exactly when that column is empty or too long, so an empty Note is
      refused where the written checks accept it. */
  lemma IntendedNoteAndOutcomeChecked(r: WorkItemRow, c: Registry)
    ensures Reports(Run(ItemChecksIntended(r, c)), ItemChecksIntended(r, c))
    ensures "Note" in Run(ItemChecksIntended(r, c)) <==> !IsByteLength(r.note, 1, 10000)
    ensures "Outcome" in Run(ItemChecksIntended(r, c)) <==> !IsByteLength(r.outcome, 1, 1000)
  {
    var cs := ItemChecksIntended(r, c);
    ItemChecksDistinct(r, c);
    assert forall i :: 0 <= i < 12 ==> cs[i].key == ItemChecks(r, c)[i].key;
    assert DistinctKeys(cs);
    RunReports(cs);
    assert cs[7].key == "Note" && cs[11].key == "Outcome";
  }

  // ---------------------------------------------------------------------
  // Identity fields

  /** ValidateChanges: the id, institution, object, file, name, etag and
      action of a work item never change; the first difference, in that
      order, is the error. */
  function ValidateChanges(item: WorkItemRow, updated: WorkItemRow): (err: Option<Error>)
    ensures err.None? <==>
      && item.id == updated.id && item.institutionID == updated.institutionID
      && item.intellectualObjectID == updated.intellectualObjectID
      && item.genericFileID == updated.genericFileID && item.name == updated.name
      && item.etag == updated.etag && item.action == updated.action
    ensures err == Some(IDMismatch) <==> item.id != updated.id
    ensures err == Some(InstIDChange) <==>
      item.id == updated.id && item.institutionID != updated.institutionID
    ensures err == Some(Message("intellectual object id cannot change")) <==>
      item.id == updated.id && item.institutionID == updated.institutionID
      && item.intellectualObjectID != updated.intellectualObjectID
    ensures err == Some(Message("generic file id cannot change")) <==>
      item.id == updated.id && item.institutionID == updated.institutionID
      && item.intellectualObjectID == updated.intellectualObjectID
      && item.genericFileID != updated.genericFileID
    ensures err == Some(Message("name cannot change")) <==>
      item.id == updated.id && item.institutionID == updated.institutionID
      && item.intellectualObjectID == updated.intellectualObjectID
      && item.genericFileID == updated.genericFileID && item.name != updated.name
    ensures err == Some(Message("etag cannot change")) <==>
      item.id == updated.id && item.institutionID == updated.institutionID
      && item.intellectualObjectID == updated.intellectualObjectID
      && item.genericFileID == updated.genericFileID && item.name == updated.name
      && item.etag != updated.etag
    ensures err == Some(Message("action cannot change")) <==>
      item.id == updated.id && item.institutionID == updated.institutionID
      && item.intellectualObjectID == updated.intellectualObjectID
      && item.genericFileID == updated.genericFileID && item.name == updated.name
      && item.etag == updated.etag && item.action != updated.action
  {
    if item.id != updated.id then Some(IDMismatch)
    else if item.institutionID != updated.institutionID then Some(InstIDChange)
    else if item.intellectualObjectID != updated.intellectualObjectID then
      Some(Message("intellectual object id cannot change"))
    else if item.genericFileID != updated.genericFileID then Some(Message("generic file id cannot change"))
    else if item.name != updated.name then Some(Message("name cannot change"))
    else if item.etag != updated.etag then Some(Message("etag cannot change"))
    else if item.action != updated.action then Some(Message("action cannot change"))
    else None
  }

  // ---------------------------------------------------------------------
  // Completion and the pending filters

  /** HasCompleted: the status is one of the completed statuses. */
  predicate HasCompleted(r: WorkItemRow, c: Registry) {
    r.status in c.completedStatusValues
  }

  /** `status NOT IN (completed...)`. An empty status is stored as NULL,
      which no NOT IN matches. */
  predicate IsPending(r: WorkItemRow, c: Registry) {
    r.status != "" && !HasCompleted(r, c)
  }

  /** A status the ledger accepts is pending exactly when it has not
      completed. */
  lemma PendingIffNotCompleted(r: WorkItemRow, c: Registry)
    requires c.RejectsZeroValues() && ItemValid(r, c)
    ensures IsPending(r, c) <==> !HasCompleted(r, c)
  {
  }

  /** The key of a pending query. Zero ids and empty names are stored as
      NULL, which no equality matches. */
  datatype PendingKey =
    | ForObject(instID: int, bagName: string)
    | ForFile(fileID: int)

  predicate Matches(r: WorkItemRow, key: PendingKey) {
    match key
    case ForObject(instID, bagName) =>
      r.institutionID != 0 && r.institutionID == instID && r.name != "" && r.name == bagName
    case ForFile(fileID) =>
      r.genericFileID != 0 && r.genericFileID == fileID
  }

  predicate Selected(r: WorkItemRow, key: PendingKey, c: Registry) {
    Matches(r, key) && IsPending(r, c)
  }

  /** The rows of the table a pending query selects, in table order. */
  function SelectPending(items: seq<WorkItemRow>, key: PendingKey, c: Registry): (r: seq<WorkItemRow>)
    ensures forall x :: x in r <==> x in items && Selected(x, key, c)
    ensures forall x :: multiset(r)[x] == if Selected(x, key, c) then multiset(items)[x] else 0
  {
    if items == [] then []
    else
      assert items == [items[0]] + items[1..];
      var rest := SelectPending(items[1..], key, c);
      if Selected(items[0], key, c) then [items[0]] + rest else rest
  }

  /** Ordered by date_processed, newest first. A zero time, which stands
      for NULL, sorts last here where Postgres puts NULLs first under
      DESC; Validate refuses a zero DateProcessed, so no stored row has
      one. */
  predicate NewestFirst(s: seq<WorkItemRow>) {
    forall i, j :: 0 <= i < j < |s| ==> s[i].dateProcessed >= s[j].dateProcessed
  }

  function InsertNewestFirst(x: WorkItemRow, s: seq<WorkItemRow>): (r: seq<WorkItemRow>)
    requires NewestFirst(s)
    ensures NewestFirst(r)
    ensures |r| == |s| + 1 && (r[0] == x || (|s| > 0 && r[0] == s[0]))
  {
    if s == [] then [x]
    else if x.dateProcessed >= s[0].dateProcessed then ConsNewestFirst(x, s); [x] + s
    else
      var rest := InsertNewestFirst(x, s[1..]);
      assert s[0].dateProcessed >= rest[0].dateProcessed;
      ConsNewestFirst(s[0], rest);
      [s[0]] + rest
  }

  /** Inserting adds exactly that row. */
  lemma {:induction false} InsertNewestFirstAdds(x: WorkItemRow, s: seq<WorkItemRow>)
    requires NewestFirst(s)
    ensures multiset(InsertNewestFirst(x, s)) == multiset(s) + multiset{x}
  {
    if s != [] && x.dateProcessed < s[0].dateProcessed {
      NewestFirstTail(s);
      InsertNewestFirstAdds(x, s[1..]);
      assert s == [s[0]] + s[1..];
    }
  }

  lemma NewestFirstTail(s: seq<WorkItemRow>)
    requires NewestFirst(s) && |s| > 0
    ensures NewestFirst(s[1..])
  {
  }

  /** A row no older than the head of a newest-first list can go in front. */
  lemma ConsNewestFirst(h: WorkItemRow, s: seq<WorkItemRow>)
    requires NewestFirst(s)
    requires |s| > 0 ==> h.dateProcessed >= s[0].dateProcessed
    ensures NewestFirst([h] + s)
  {
    var r := [h] + s;
    forall i, j | 0 <= i < j < |r|
      ensures r[i].dateProcessed >= r[j].dateProcessed
    {
      assert r[j] == s[j - 1];
      if i == 0 {
        assert s[0].dateProcessed >= s[j - 1].dateProcessed;
      } else {
        assert r[i] == s[i - 1];
      }
    }
  }

  function SortNewestFirst(s: seq<WorkItemRow>): (r: seq<WorkItemRow>)
    ensures NewestFirst(r)
    ensures multiset(r) == multiset(s)
  {
    if s == [] then []
    else
      assert s == [s[0]] + s[1..];
      InsertNewestFirstAdds(s[0], SortNewestFirst(s[1..]));
      InsertNewestFirst(s[0], SortNewestFirst(s[1..]))
  }

  /** WorkItemsPendingForObject and WorkItemsPendingForFile: exactly the
      rows matching the key that have not completed, each as often as in
      the table, newest first. */
  function WorkItemsPending(items: seq<WorkItemRow>, key: PendingKey, c: Registry): (r: seq<WorkItemRow>)
    ensures NewestFirst(r)
    ensures forall x :: x in r <==> x in items && Matches(x, key) && IsPending(x, c)
    ensures forall x :: multiset(r)[x] == if Selected(x, key, c) then multiset(items)[x] else 0
  {
    var r := SortNewestFirst(SelectPending(items, key, c));
    assert forall x :: x in r <==> x in multiset(r);
    r
  }

  // ---------------------------------------------------------------------
  // Saving

  /** The id the database gives an inserted row: one more than any id in
      the table. */
  function NextID(items: seq<WorkItemRow>): (id: int)
    ensures id >= 1
    ensures forall r :: r in items ==> r.id < id
  {
    if items == [] then 1
    else
      var rest := NextID(items[1..]);
      assert forall r :: r in items ==> r == items[0] || r in items[1..];
      if items[0].id + 1 > rest then items[0].id + 1 else rest
  }

  /** An update: the row with the same id is replaced. */
  function Replace(items: seq<WorkItemRow>, row: WorkItemRow): (r: seq<WorkItemRow>)
    ensures |r| == |items|
    ensures forall i :: 0 <= i < |items| ==> r[i] == if items[i].id == row.id then row else items[i]
  {
    seq(|items|, i requires 0 <= i < |items| => if items[i].id == row.id then row else items[i])
  }

  /** The row a write leaves and the table after it. */
  datatype Stored = Stored(row: WorkItemRow, items: seq<WorkItemRow>)

  /** The write Save makes for a valid row: a row with id 0 is inserted
      with a new id, any other row replaces the row with its id. */
  function Persist(items: seq<WorkItemRow>, row: WorkItemRow): (s: Stored)
    ensures row.id == 0 ==>
      && s.row == row.(id := s.row.id) && s.row.id >= 1
      && (forall r :: r in items ==> r.id != s.row.id)
      && s.items == items + [s.row]
    ensures row.id != 0 ==> s.row == row && s.items == Replace(items, row)
  {
    if row.id == 0 then
      var inserted := row.(id := NextID(items));
      Stored(inserted, items + [inserted])
    else Stored(row, Replace(items, row))
  }

  /** SetTimestamps, which Save calls before anything else: updatedAt
      becomes now, and createdAt becomes now when it is still zero. */
  function Stamped(r: WorkItemRow, now: int): (s: WorkItemRow)
    ensures s.updatedAt == now
    ensures s.createdAt == if r.createdAt == 0 then now else r.createdAt
    ensures s.(createdAt := r.createdAt, updatedAt := r.updatedAt) == r
  {
    r.(createdAt := if r.createdAt == 0 then now else r.createdAt, updatedAt := now)
  }

  /** Stamping touches no identity field and no checked column, and
      stamping twice at the same time is stamping once. */
  lemma StampKeepsChecks(r: WorkItemRow, now: int, c: Registry)
    ensures ItemChecks(Stamped(r, now), c) == ItemChecks(r, c)
    ensures ValidateChanges(r, Stamped(r, now)).None?
    ensures Stamped(Stamped(r, now), now) == Stamped(r, now)
  {
  }

  /** What Save does for `row` at time `now`: the row is stamped first;
      a stamped row that fails validation is reported and kept in memory
      but not written; a valid one is written. */
  predicate SavedAs(err: Option<Error>, row': WorkItemRow, items': seq<WorkItemRow>,
                    items: seq<WorkItemRow>, row: WorkItemRow, c: Registry, now: int)
  {
    var stamped := Stamped(row, now);
    && (!ItemValid(row, c) ==> ReportsInvalidItem(err, row, c) && row' == stamped && items' == items)
    && (ItemValid(row, c) ==> err.None? && row' == Persist(items, stamped).row && items' == Persist(items, stamped).items)
  }

  /** Whatever the outcome, the item Save leaves carries the save's time
      as updatedAt and keeps a createdAt that was already set; after a
      write, every stored row with its id is that item. */
  lemma SaveStampsRow(err: Option<Error>, row': WorkItemRow, items': seq<WorkItemRow>,
                      items: seq<WorkItemRow>, row: WorkItemRow, c: Registry, now: int)
    requires SavedAs(err, row', items', items, row, c, now)
    ensures row'.updatedAt == now
    ensures row.createdAt != 0 ==> row'.createdAt == row.createdAt
    ensures err.None? ==> row'.id != 0 && forall r :: r in items' && r.id == row'.id ==> r == row'
  {
    if err.None? {
      assert ItemValid(row, c);
      if row.id != 0 {
        forall r | r in items' && r.id == row'.id ensures r == row' {
          var i :| 0 <= i < |items'| && items'[i] == r;
        }
      }
    }
  }

  /** After a write the row is in the table, whether it was inserted or
      replaced an existing row. */
  lemma PersistedRowIsStored(items: seq<WorkItemRow>, row: WorkItemRow)
    requires row.id != 0 ==> exists i :: 0 <= i < |items| && items[i].id == row.id
    ensures Persist(items, row).row in Persist(items, row).items
  {
    var s := Persist(items, row);
    if row.id != 0 {
      var i :| 0 <= i < |items| && items[i].id == row.id;
      assert s.items[i] == row;
    }
  }

  /** Writing the written row again changes nothing. */
  lemma PersistTwice(items: seq<WorkItemRow>, row: WorkItemRow)
    ensures var s := Persist(items, row);
      Persist(s.items, s.row) == s
  {
    var s := Persist(items, row);
    var t := Persist(s.items, s.row);
    assert s.row.id != 0;
    forall i | 0 <= i < |s.items| ensures t.items[i] == s.items[i] {
      if row.id != 0 {
        assert s.items[i] == if items[i].id == row.id then row else items[i];
      }
    }
  }

  // ---------------------------------------------------------------------
  // The requeue transition

  /** The fields SetForRequeue assigns. */
  function Requeued(r: WorkItemRow, stage: string): WorkItemRow {
    r.(stage := stage, status := STATUS_PENDING, retry := true, needsAdminReview := false,
       node := "", outcome := "", pid := 0, note := "Requeued for " + stage)
  }

  /** A requeue never touches an identity field, and requeuing twice for
      the same stage is requeuing once. */
  lemma RequeueKeepsIdentity(r: WorkItemRow, stage: string)
    ensures ValidateChanges(r, Requeued(r, stage)).None?
    ensures Requeued(Requeued(r, stage), stage) == Requeued(r, stage)
  {
  }

  /** A requeued item is pending again, for its object and its file. */
  lemma RequeuedIsPending(r: WorkItemRow, stage: string, c: Registry)
    requires STATUS_PENDING !in c.completedStatusValues
    ensures IsPending(Requeued(r, stage), c)
    ensures Matches(r, ForObject(r.institutionID, r.name)) ==>
      Matches(Requeued(r, stage), ForObject(r.institutionID, r.name))
  {
  }

  // ---------------------------------------------------------------------
  // Items cloned from the last ingest

  /** A successful ingest row for an object: Success in the Record or
      Cleanup stage. */
  predicate IsSuccessfulIngest(r: WorkItemRow, objID: int) {
    && r.intellectualObjectID != 0 && r.intellectualObjectID == objID
    && r.status == STATUS_SUCCESS
    && (r.stage == STAGE_RECORD || r.stage == STAGE_CLEANUP)
  }

  /** LastSuccessfulIngest: the successful ingest row with the latest
      date_processed. */
  function LastSuccessfulIngest(items: seq<WorkItemRow>, objID: int): (r: Option<WorkItemRow>)
    ensures r.None? <==> forall w :: w in items ==> !IsSuccessfulIngest(w, objID)
    ensures r.Some? ==> r.value in items && IsSuccessfulIngest(r.value, objID)
    ensures r.Some? ==> forall w :: w in items && IsSuccessfulIngest(w, objID) ==>
      w.dateProcessed <= r.value.dateProcessed
  {
    if items == [] then None
    else
      var rest := LastSuccessfulIngest(items[1..], objID);
      assert forall w :: w in items ==> w == items[0] || w in items[1..];
      if !IsSuccessfulIngest(items[0], objID) then rest
      else if rest.Some? && rest.value.dateProcessed > items[0].dateProcessed then rest
      else Some(items[0])
  }

  /** The copy of an ingest row with the fields NewItemFromLastSuccessfulIngest resets. */
  function FromIngest(ingest: WorkItemRow, now: int): WorkItemRow {
    ingest.(id := 0, createdAt := now, dateProcessed := now, needsAdminReview := false, node := "",
            note := "Not started", outcome := "Not started", pid := 0, queuedAt := 0, retry := true,
            stage := STAGE_REQUESTED, stageStartedAt := 0, status := STATUS_PENDING, updatedAt := now)
  }

  /** The clone keeps everything that identifies the bag and its owner,
      so it is pending for the same object, and it is a new row. */
  lemma FromIngestKeepsBag(ingest: WorkItemRow, now: int, c: Registry)
    requires STATUS_PENDING !in c.completedStatusValues
    ensures var r := FromIngest(ingest, now);
      && r.id == 0
      && r.name == ingest.name && r.etag == ingest.etag && r.bucket == ingest.bucket
      && r.institutionID == ingest.institutionID
      && r.intellectualObjectID == ingest.intellectualObjectID
      && r.genericFileID == ingest.genericFileID && r.action == ingest.action
      && r.size == ingest.size && r.bagDate == ingest.bagDate && r.user == ingest.user
      && IsPending(r, c)
      && (Matches(ingest, ForObject(ingest.institutionID, ingest.name)) ==>
            Matches(r, ForObject(ingest.institutionID, ingest.name)))
  {
  }

  /** The clone of an ingest is always written as a new row at the end of
      the table. */
  lemma FromIngestInserts(items: seq<WorkItemRow>, ingest: WorkItemRow, now: int)
    ensures var s := Persist(items, FromIngest(ingest, now));
      |s.items| == |items| + 1 && s.items[..|items|] == items && s.items[|items|] == s.row
      && s.row.id !in set r | r in items :: r.id
  {
    var s := Persist(items, FromIngest(ingest, now));
    assert s.items == items + [s.row];
  }

  /** The error copier.Copy returns when there is nothing to copy from. */
  const ERR_INVALID_COPY_FROM := Message("copy from value is invalid")

  // ---------------------------------------------------------------------
  // Restoration and deletion items

  /** The action of a restoration item. */
  function RestorationAction(glacierOnly: bool, hasFile: bool): (action: string)
    ensures action == ACTION_GLACIER_RESTORE <==> glacierOnly
    ensures action == ACTION_RESTORE_FILE <==> !glacierOnly && hasFile
    ensures action == ACTION_RESTORE_OBJECT <==> !glacierOnly && !hasFile
  {
    if glacierOnly then ACTION_GLACIER_RESTORE
    else if hasFile then ACTION_RESTORE_FILE
    else ACTION_RESTORE_OBJECT
  }

  /** The row of a restoration item before it is saved. */
  function RestorationRow(ingest: WorkItemRow, now: int, glacierOnly: bool, gf: Option<GenericFile>,
                          userEmail: string): WorkItemRow
  {
    FromIngest(ingest, now).(
      action := RestorationAction(glacierOnly, gf.Some?),
      genericFileID := if gf.Some? then gf.value.id else ingest.genericFileID,
      user := userEmail)
  }

  /** The file id of a restoration item is the file's exactly when a file
      is given; a restoration item is a pending copy of the ingest
      otherwise. */
  lemma RestorationRowFields(ingest: WorkItemRow, now: int, glacierOnly: bool, gf: Option<GenericFile>,
                             userEmail: string)
    ensures var r := RestorationRow(ingest, now, glacierOnly, gf, userEmail);
      && (gf.Some? ==> r.genericFileID == gf.value.id)
      && (gf.None? ==> r.genericFileID == ingest.genericFileID)
      && r.user == userEmail && r.status == STATUS_PENDING && r.stage == STAGE_REQUESTED
      && r.name == ingest.name && r.institutionID == ingest.institutionID
      && r.intellectualObjectID == ingest.intellectualObjectID
  {
  }

  /** The checks NewDeletionItem repeats before building the item: the
      requester and the approver belong to the object's institution and
      the approver is its institutional admin, checked in that order. */
  function DeletionItemError(obj: IntellectualObject, requestedBy: User, approvedBy: User): (err: Option<Error>)
    ensures err.None? <==>
      && obj.institutionID == requestedBy.institutionID
      && obj.institutionID == approvedBy.institutionID
      && approvedBy.role == ROLE_INST_ADMIN
    ensures obj.institutionID != requestedBy.institutionID ==>
      err == Some(Message("user " + requestedBy.email + " at institution " + FormatInt(requestedBy.institutionID)
                          + " can't request deletion of object belonging to institution "
                          + FormatInt(obj.institutionID)))
    ensures obj.institutionID == requestedBy.institutionID && obj.institutionID != approvedBy.institutionID ==>
      err == Some(Message("user " + approvedBy.email + " at institution " + FormatInt(approvedBy.institutionID)
                          + " can't approve deletion of object belonging to institution "
                          + FormatInt(obj.institutionID)))
    ensures obj.institutionID == requestedBy.institutionID == approvedBy.institutionID
            && approvedBy.role != ROLE_INST_ADMIN ==>
      err == Some(Message("user " + approvedBy.email + " can't approve deletion of object " + FormatInt(obj.id)
                          + " because user is not an admin at the object's institution"))
  {
    if obj.institutionID != requestedBy.institutionID then
      Some(Message("user " + requestedBy.email + " at institution " + FormatInt(requestedBy.institutionID)
                   + " can't request deletion of object belonging to institution " + FormatInt(obj.institutionID)))
    else if obj.institutionID != approvedBy.institutionID then
      Some(Message("user " + approvedBy.email + " at institution " + FormatInt(approvedBy.institutionID)
                   + " can't approve deletion of object belonging to institution " + FormatInt(obj.institutionID)))
    else if approvedBy.role != ROLE_INST_ADMIN then
      Some(Message("user " + approvedBy.email + " can't approve deletion of object " + FormatInt(obj.id)
                   + " because user is not an admin at the object's institution"))
    else None
  }

  /** The row of a deletion item before it is saved. */
  function DeletionRow(ingest: WorkItemRow, now: int, gf: Option<GenericFile>, requesterEmail: string,
                       approverEmail: string): WorkItemRow
  {
    var base := FromIngest(ingest, now);
    var sized := if gf.Some? then base.(genericFileID := gf.value.id, size := gf.value.size) else base;
    sized.(action := ACTION_DELETE, user := requesterEmail, instApprover := approverEmail)
  }

  /** A deletion item is a Delete for the object's bag, requested and
      approved by the given users; a file deletion carries the file's id
      and size, an object deletion the ingest's. */
  lemma DeletionRowFields(ingest: WorkItemRow, now: int, gf: Option<GenericFile>, requesterEmail: string,
                          approverEmail: string)
    ensures var r := DeletionRow(ingest, now, gf, requesterEmail, approverEmail);
      && r.action == ACTION_DELETE && r.user == requesterEmail && r.instApprover == approverEmail
      && (gf.Some? ==> r.genericFileID == gf.value.id && r.size == gf.value.size)
      && (gf.None? ==> r.genericFileID == ingest.genericFileID && r.size == ingest.size)
      && r.name == ingest.name && r.intellectualObjectID == ingest.intellectualObjectID
      && r.status == STATUS_PENDING
  {
  }

  // ---------------------------------------------------------------------
  // The work item

  /** A work item in memory. Its columns are held as one row value, which
      the methods update column by column. */
  class WorkItem {
    var row: WorkItemRow

    /** An item holding the columns of a row (a row read from the table,
        or copier.Copy of one). */
    constructor (r: WorkItemRow)
      ensures row == r
    {
      row := r;
    }

    /** Validate: runs the twelve checks in order on an empty errors map;
        nil when the map stays empty. */
    function Validate(c: Registry): (v: Option<ValidationError>)
      reads this
      ensures v.None? <==> ItemValid(row, c)
      ensures v.Some? ==> v.value.errors.Some? && ReportsItemErrors(v.value.errors.value, row, c)
    {
      var errors := Run(ItemChecks(row, c));
      ItemErrorsReport(row, c);
      if errors != map[] then  // len(errors) > 0
        Some(ValidationError(Some(errors)))
      else
        None
    }

    /** Save: SetTimestamps, then validation; an invalid item keeps its
        new timestamps but is not written. A new item (id 0) is inserted
        and given its id, any other is updated in place. */
    method Save(items: seq<WorkItemRow>, c: Registry, now: int) returns (err: Option<Error>, items': seq<WorkItemRow>)
      modifies this
      ensures SavedAs(err, row, items', items, old(row), c, now)
    {
      StampKeepsChecks(row, now, c);
      row := Stamped(row, now);
      var validationErr := Validate(c);
      if validationErr.Some? {
        return Some(Validation(validationErr.value)), items;
      }
      if row.id == 0 {
        row := row.(id := NextID(items));
        items' := items + [row];
      } else {
        items' := Replace(items, row);
      }
      err := None;
    }

    /** SetForRequeue: a stage with no topic for the item's action is
        ErrInvalidRequeue and changes nothing; otherwise the requeue fields
        are set and the item saved. */
    method SetForRequeue(stage: string, items: seq<WorkItemRow>, c: Registry, now: int)
      returns (err: Option<Error>, items': seq<WorkItemRow>)
      modifies this
      ensures c.TopicFor(old(row.action), stage).Err? ==>
        err == Some(InvalidRequeue) && row == old(row) && items' == items
      ensures c.TopicFor(old(row.action), stage).Ok? ==>
        SavedAs(err, row, items', items, Requeued(old(row), stage), c, now)
    {
      var topic := c.TopicFor(row.action, stage);
      if topic.Err? {
        return Some(topic.error), items;
      }
      row := row.(stage := stage);
      row := row.(status := STATUS_PENDING);
      row := row.(retry := true);
      row := row.(needsAdminReview := false);
      row := row.(node := "");
      row := row.(outcome := "");
      row := row.(pid := 0);
      row := row.(note := "Requeued for " + row.stage);
      err, items' := Save(items, c, now);
    }
  }

  /** NewItemFromLastSuccessfulIngest: a copy of the object's last
      successful ingest with the reset fields; with no such ingest the
      copy fails. */
  method NewItemFromLastSuccessfulIngest(items: seq<WorkItemRow>, objID: int, now: int)
    returns (item: WorkItem?, err: Option<Error>)
    ensures LastSuccessfulIngest(items, objID).None? ==> item == null && err == Some(ERR_INVALID_COPY_FROM)
    ensures LastSuccessfulIngest(items, objID).Some? ==>
      item != null && fresh(item) && err.None?
      && item.row == FromIngest(LastSuccessfulIngest(items, objID).value, now)
  {
    var last := LastSuccessfulIngest(items, objID);
    if last.None? {
      return null, Some(ERR_INVALID_COPY_FROM);
    }
    item := new WorkItem(last.value);
    item.row := item.row.(id := 0);
    item.row := item.row.(createdAt := now);
    item.row := item.row.(dateProcessed := now);
    item.row := item.row.(needsAdminReview := false);
    item.row := item.row.(node := "");
    item.row := item.row.(note := "Not started");
    item.row := item.row.(outcome := "Not started");
    item.row := item.row.(pid := 0);
    item.row := item.row.(queuedAt := 0);
    item.row := item.row.(retry := true);
    item.row := item.row.(stage := STAGE_REQUESTED);
    item.row := item.row.(stageStartedAt := 0);
    item.row := item.row.(status := STATUS_PENDING);
    item.row := item.row.(updatedAt := now);
    err := None;
  }

  /** NewRestorationItem: a nil object is ErrInvalidParam; otherwise a
      clone of the last ingest with the restoration action, the file's id
      for a file restoration and the user's email, saved. */
  method NewRestorationItem(obj: IntellectualObject?, gf: Option<GenericFile>, user: User,
                            items: seq<WorkItemRow>, c: Registry, now: int)
    returns (item: WorkItem?, err: Option<Error>, items': seq<WorkItemRow>)
    ensures obj == null ==> item == null && err == Some(InvalidParam) && items' == items
    ensures obj != null && LastSuccessfulIngest(items, obj.id).None? ==>
      item == null && err == Some(ERR_INVALID_COPY_FROM) && items' == items
    ensures obj != null && LastSuccessfulIngest(items, obj.id).Some? ==>
      item != null && fresh(item)
      && SavedAs(err, item.row, items', items,
                 RestorationRow(LastSuccessfulIngest(items, obj.id).value, now, obj.IsGlacierOnly(c), gf,
                                user.email), c, now)
  {
    if obj == null {
      return null, Some(InvalidParam), items;
    }
    item, err := NewItemFromLastSuccessfulIngest(items, obj.id, now);
    if err.Some? {
      return null, err, items;
    }
    if obj.IsGlacierOnly(c) {
      item.row := item.row.(action := ACTION_GLACIER_RESTORE);
    } else {
      if gf.Some? {
        item.row := item.row.(action := ACTION_RESTORE_FILE);
      } else {
        item.row := item.row.(action := ACTION_RESTORE_OBJECT);
      }
    }
    if gf.Some? {
      item.row := item.row.(genericFileID := gf.value.id);
    }
    item.row := item.row.(user := user.email);
    err, items' := item.Save(items, c, now);
  }

  /** NewDeletionItem: nil arguments are ErrInvalidParam; otherwise a
      clone of the last ingest, with the file's id and size for a file
      deletion, which is refused unless requester and approver belong to
      the object's institution and the approver is its admin; the Delete
      item names both and is saved. */
  method NewDeletionItem(obj: IntellectualObject?, gf: Option<GenericFile>, requestedBy: User?,
                         approvedBy: User?, items: seq<WorkItemRow>, c: Registry, now: int)
    returns (item: WorkItem?, err: Option<Error>, items': seq<WorkItemRow>)
    ensures obj == null || requestedBy == null || approvedBy == null ==>
      item == null && err == Some(InvalidParam) && items' == items
    ensures obj != null && requestedBy != null && approvedBy != null
            && LastSuccessfulIngest(items, obj.id).None? ==>
      item == null && err == Some(ERR_INVALID_COPY_FROM) && items' == items
    ensures obj != null && requestedBy != null && approvedBy != null
            && LastSuccessfulIngest(items, obj.id).Some?
            && DeletionItemError(obj, requestedBy, approvedBy).Some? ==>
      item == null && err == DeletionItemError(obj, requestedBy, approvedBy) && items' == items
    ensures obj != null && requestedBy != null && approvedBy != null
            && LastSuccessfulIngest(items, obj.id).Some?
            && DeletionItemError(obj, requestedBy, approvedBy).None? ==>
      item != null && fresh(item)
      && SavedAs(err, item.row, items', items,
                 DeletionRow(LastSuccessfulIngest(items, obj.id).value, now, gf, requestedBy.email,
                             approvedBy.email), c, now)
  {
    if obj == null || requestedBy == null || approvedBy == null {
      return null, Some(InvalidParam), items;
    }
    item, err := NewItemFromLastSuccessfulIngest(items, obj.id, now);
    if err.Some? {
      return null, err, items;
    }
    if gf.Some? {
      item.row := item.row.(genericFileID := gf.value.id);
      item.row := item.row.(size := gf.value.size);
    }
    var checkErr := DeletionItemError(obj, requestedBy, approvedBy);
    if checkErr.Some? {
      return null, checkErr, items;
    }
    item.row := item.row.(action := ACTION_DELETE);
    item.row := item.row.(user := requestedBy.email);
    item.row := item.row.(instApprover := approvedBy.email);
    err, items' := item.Save(items, c, now);
  }
}
