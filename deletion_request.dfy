/** Deletion requests (pgmodels/deletion_request.go): who may request,
    confirm and cancel a deletion, the encrypted confirmation token, the
    files and objects a request covers, and the join tables that link
    them to it. */
module DeletionRequests {
  import opened Wrappers
  import opened Errors
  import opened Constants
  import opened Records
  import opened Password
  import opened IntellectualObjects

  const ERR_DELETION_INSTITUTION_ID := "Deletion request requires institution id."
  const ERR_DELETION_REQUESTER_ID := "Deletion request requires requester id."
  const ERR_DELETION_WRONG_INST := "Deletion request user belongs to wrong institution."
  const ERR_DELETION_WRONG_ROLE := "Deletion confirmer/canceller must be institutional admin."
  const ERR_TOKEN_NOT_ENCRYPTED := "Token must be encrypted."

  /** A join table: (deletion request id, file or object id) pairs. */
  type JoinTable = set<(int, int)>

  /** The ids of a list of files. */
  function FileIDs(files: seq<GenericFile>): seq<int> {
    seq(|files|, i requires 0 <= i < |files| => files[i].id)
  }

  /** The ids of a list of objects. */
  function ObjectIDs(objs: seq<IntellectualObject>): seq<int> {
    seq(|objs|, i requires 0 <= i < |objs| => objs[i].id)
  }

  /** The table after `insert ... values (requestID, id) on conflict do
      nothing` for each id in turn. */
  function InsertPairs(table: JoinTable, requestID: int, ids: seq<int>): (t: JoinTable)
    ensures forall p :: p in t <==> p in table || (p.0 == requestID && p.1 in ids)
  {
    if ids == [] then table
    else
      var n := |ids| - 1;
      assert forall x :: x in ids <==> x in ids[..n] || x == ids[n];
      InsertPairs(table, requestID, ids[..n]) + {(requestID, ids[n])}
  }

  /** Inserting the same pairs again changes nothing. */
  lemma InsertPairsIdempotent(table: JoinTable, requestID: int, ids: seq<int>)
    ensures InsertPairs(InsertPairs(table, requestID, ids), requestID, ids) == InsertPairs(table, requestID, ids)
  {
    var once := InsertPairs(table, requestID, ids);
    var twice := InsertPairs(once, requestID, ids);
    assert forall p :: p in twice <==> p in once;
  }

  /** The order of the list does not matter, nor how often an id is in it. */
  lemma InsertPairsAsSet(table: JoinTable, requestID: int, ids: seq<int>, ids': seq<int>)
    requires forall x :: x in ids <==> x in ids'
    ensures InsertPairs(table, requestID, ids) == InsertPairs(table, requestID, ids')
  {
    var a := InsertPairs(table, requestID, ids);
    var b := InsertPairs(table, requestID, ids');
    forall p | p in a ensures p in b {
      var (r, x) := p;
      if p !in table {
        assert x in ids;
      }
    }
    forall p | p in b ensures p in a {
      var (r, x) := p;
      if p !in table {
        assert x in ids';
      }
    }
  }

  /** The list a nil slice stands for. */
  function ListOf<T>(list: Option<seq<T>>): seq<T> {
    if list.Some? then list.value else []
  }

  /** The message a confirmer or canceller check leaves under its key, in
      the order of the checks: a user at another institution, then a user
      who is not an institutional admin, which overwrites the first. */
  function ReviewerMessage(reviewer: User, institutionID: int): (msg: Option<string>)
  {
    var afterInst := if reviewer.institutionID != institutionID then Some(ERR_DELETION_WRONG_INST) else None;
    if reviewer.role != ROLE_INST_ADMIN then Some(ERR_DELETION_WRONG_ROLE) else afterInst
  }

  /** A reviewer passes exactly when they are an institutional admin at the
      request's institution; the role error wins over the institution error. */
  lemma ReviewerRules(reviewer: User, institutionID: int)
    ensures ReviewerMessage(reviewer, institutionID).None? <==>
              reviewer.role == ROLE_INST_ADMIN && reviewer.institutionID == institutionID
    ensures ReviewerMessage(reviewer, institutionID) == Some(ERR_DELETION_WRONG_ROLE) <==>
              reviewer.role != ROLE_INST_ADMIN
    ensures ReviewerMessage(reviewer, institutionID) == Some(ERR_DELETION_WRONG_INST) <==>
              reviewer.role == ROLE_INST_ADMIN && reviewer.institutionID != institutionID
  {
  }

  /** The confirmer (or canceller) check: a reviewer id and no preloaded
      reviewer means a lookup, and a lookup that finds no user dereferences
      the nil user it returns. */
  function ReviewerCheck(reviewerID: int, preloaded: User?, institutionID: int, db: Store): (r: Completion<Option<string>>)
    ensures r.NilDereference? <==> reviewerID > 0 && preloaded == null && reviewerID !in db.users
    ensures r.Returned? && r.value.Some? ==> reviewerID > 0 && preloaded == null
  {
    if reviewerID > 0 && preloaded == null then
      match db.UserByID(reviewerID)
      case None => NilDereference
      case Some(u) => Returned(ReviewerMessage(u, institutionID))
    else Returned(None)
  }

  /** The message of an optional entry, "" when there is none. */
  function MessageOf(msg: Option<string>): string {
    if msg.Some? then msg.value else ""
  }

  class DeletionRequest {
    const id: int
    const institutionID: int
    const requestedByID: int
    const requestedAt: int
    const confirmationToken: string
    const encryptedConfirmationToken: string
    const confirmedByID: int
    const confirmedAt: int
    const confirmedBy: User?
    var cancelledByID: int
    var cancelledAt: int
    var cancelledBy: User?
    var requestedBy: User?
    var genericFiles: Option<seq<GenericFile>>
    var intellectualObjects: Option<seq<IntellectualObject>>

    constructor (id: int, institutionID: int, requestedByID: int, requestedAt: int,
                 confirmationToken: string, encryptedConfirmationToken: string,
                 confirmedByID: int, confirmedAt: int, confirmedBy: User?,
                 cancelledByID: int, cancelledAt: int, cancelledBy: User?, requestedBy: User?,
                 genericFiles: Option<seq<GenericFile>>, intellectualObjects: Option<seq<IntellectualObject>>)
      ensures this.id == id && this.institutionID == institutionID
      ensures this.requestedByID == requestedByID && this.requestedAt == requestedAt
      ensures this.confirmationToken == confirmationToken
      ensures this.encryptedConfirmationToken == encryptedConfirmationToken
      ensures this.confirmedByID == confirmedByID && this.confirmedAt == confirmedAt
      ensures this.confirmedBy == confirmedBy
      ensures this.cancelledByID == cancelledByID && this.cancelledAt == cancelledAt
      ensures this.cancelledBy == cancelledBy && this.requestedBy == requestedBy
      ensures this.genericFiles == genericFiles && this.intellectualObjects == intellectualObjects
    {
      this.id := id;
      this.institutionID := institutionID;
      this.requestedByID := requestedByID;
      this.requestedAt := requestedAt;
      this.confirmationToken := confirmationToken;
      this.encryptedConfirmationToken := encryptedConfirmationToken;
      this.confirmedByID := confirmedByID;
      this.confirmedAt := confirmedAt;
      this.confirmedBy := confirmedBy;
      this.cancelledByID := cancelledByID;
      this.cancelledAt := cancelledAt;
      this.cancelledBy := cancelledBy;
      this.requestedBy := requestedBy;
      this.genericFiles := genericFiles;
      this.intellectualObjects := intellectualObjects;
    }

    /** The requester Validate looks at: the preloaded one, or the one
        looked up by RequestedByID when there is an id and none is
        preloaded; a failed lookup leaves it nil. */
    function Requester(db: Store): (u: User?)
      reads this
      ensures requestedBy != null ==> u == requestedBy
      ensures requestedBy == null && requestedByID > 0 && requestedByID in db.users ==> u == db.users[requestedByID]
      ensures u == null <==> requestedBy == null && (requestedByID < 1 || requestedByID !in db.users)
    {
      if requestedByID > 0 && requestedBy == null then
        match db.UserByID(requestedByID)
        case None => null
        case Some(u) => u
      else requestedBy
    }

    /** The message the requester checks leave under RequestedByID, in
        their order: a missing id, then a missing requester or one at
        another institution, each overwriting the entry. */
    function RequesterMessage(requester: User?): (msg: Option<string>)
      reads this
    {
      var afterID := if requestedByID < 1 then Some(ERR_DELETION_REQUESTER_ID) else None;
      if requester == null then Some(ERR_DELETION_REQUESTER_ID)
      else if requester.institutionID != institutionID then Some(ERR_DELETION_WRONG_INST)
      else afterID
    }

    /** The requester passes exactly when there is an id and a requester at
        the request's institution. A requester at another institution
        reports the wrong institution even without an id. */
    lemma RequesterRules(requester: User?)
      ensures RequesterMessage(requester).None? <==>
                requestedByID >= 1 && requester != null && requester.institutionID == institutionID
      ensures RequesterMessage(requester) == Some(ERR_DELETION_WRONG_INST) <==>
                requester != null && requester.institutionID != institutionID
      ensures RequesterMessage(requester) == Some(ERR_DELETION_REQUESTER_ID) <==>
                requester == null || (requestedByID < 1 && requester.institutionID == institutionID)
    {
    }

    /** Validate's checks, one per key, in the order of the keys. */
    function Checks(requester: User?, confirmer: Option<string>, canceller: Option<string>): (cs: seq<Check>)
      reads this
      ensures |cs| == 5
    {
      var requesterMsg := RequesterMessage(requester);
      [ Check("InstitutionID", institutionID < 1, ERR_DELETION_INSTITUTION_ID),
        Check("RequestedByID", requesterMsg.Some?, MessageOf(requesterMsg)),
        Check("ConfirmedByID", confirmer.Some?, MessageOf(confirmer)),
        Check("CancelledByID", canceller.Some?, MessageOf(canceller)),
        Check("EncryptedConfirmationToken", !LooksEncrypted(encryptedConfirmationToken), ERR_TOKEN_NOT_ENCRYPTED) ]
    }

    lemma ChecksDistinct(requester: User?, confirmer: Option<string>, canceller: Option<string>)
      ensures DistinctKeys(Checks(requester, confirmer, canceller))
    {
      var cs := Checks(requester, confirmer, canceller);
      assert cs[0].key[0] == 'I' && cs[1].key[0] == 'R' && cs[4].key[0] == 'E';
      assert cs[2].key[0] == 'C' && cs[2].key[1] == 'o' && cs[3].key[1] == 'a';
    }

    /** The outcome of Validate for the requester it settles on: a panic
        when a confirmer or canceller lookup fails, otherwise nil exactly
        when every check passes, and an error reporting every failed
        check otherwise. */
    function Validation(requester: User?, db: Store): (r: Completion<Option<ValidationError>>)
      reads this
      ensures r.NilDereference? <==>
                ReviewerCheck(confirmedByID, confirmedBy, institutionID, db).NilDereference? ||
                ReviewerCheck(cancelledByID, cancelledBy, institutionID, db).NilDereference?
      ensures r.Returned? ==>
                var cs := Checks(requester, ReviewerCheck(confirmedByID, confirmedBy, institutionID, db).value,
                                 ReviewerCheck(cancelledByID, cancelledBy, institutionID, db).value);
                && (r.value.None? <==> forall i :: 0 <= i < |cs| ==> !cs[i].failed)
                && (r.value.Some? ==> r.value.value.errors.Some? && Reports(r.value.value.errors.value, cs))
    {
      var confirmer := ReviewerCheck(confirmedByID, confirmedBy, institutionID, db);
      var canceller := ReviewerCheck(cancelledByID, cancelledBy, institutionID, db);
      if confirmer.NilDereference? || canceller.NilDereference? then NilDereference
      else
        var cs := Checks(requester, confirmer.value, canceller.value);
        var errors := Run(cs);
        ChecksDistinct(requester, confirmer.value, canceller.value);
        RunReports(cs);
        ReportEmptyIffAllPass(errors, cs);
        if errors != map[] then  // len(errors) > 0
          Returned(Some(ValidationError(Some(errors))))
        else Returned(None)
    }

    /** Validate: settles on the requester (caching a looked-up one in
        RequestedBy, which stays set even when a later check panics) and
        then runs the checks. */
    method Validate(db: Store) returns (r: Completion<Option<ValidationError>>)
      modifies this`requestedBy
      ensures requestedBy == old(Requester(db))
      ensures r == Validation(requestedBy, db)
    {
      if requestedByID > 0 && requestedBy == null {
        var found := db.UserByID(requestedByID);
        requestedBy := if found.Some? then found.value else null;
      }
      r := Validation(requestedBy, db);
    }

    /** The institution id is reported exactly when it is below 1. */
    lemma InstitutionIDRule(requester: User?, db: Store)
      requires Validation(requester, db).Returned?
      ensures institutionID < 1 ==> Validation(requester, db).value.Some?
      ensures var v := Validation(requester, db).value;
              v.Some? ==> ("InstitutionID" in v.value.errors.value <==> institutionID < 1)
    {
      var cs := Checks(requester, ReviewerCheck(confirmedByID, confirmedBy, institutionID, db).value,
                       ReviewerCheck(cancelledByID, cancelledBy, institutionID, db).value);
      assert cs[0].key == "InstitutionID";
      if institutionID < 1 {
        assert cs[0].failed;
      }
    }

    /** An unencrypted token is reported, with its message. */
    lemma TokenRule(requester: User?, db: Store)
      requires Validation(requester, db).Returned?
      requires !LooksEncrypted(encryptedConfirmationToken)
      ensures var v := Validation(requester, db).value;
              && v.Some? && "EncryptedConfirmationToken" in v.value.errors.value
              && v.value.errors.value["EncryptedConfirmationToken"] == ERR_TOKEN_NOT_ENCRYPTED
    {
      var cs := Checks(requester, ReviewerCheck(confirmedByID, confirmedBy, institutionID, db).value,
                       ReviewerCheck(cancelledByID, cancelledBy, institutionID, db).value);
      assert cs[4].key == "EncryptedConfirmationToken" && cs[4].failed;
    }

    /** A confirmer who is not an institutional admin is reported under
        ConfirmedByID as the wrong role, whatever their institution. */
    lemma ConfirmerWrongRole(requester: User?, db: Store)
      requires Validation(requester, db).Returned?
      requires confirmedByID > 0 && confirmedBy == null && confirmedByID in db.users
      requires db.users[confirmedByID].role != ROLE_INST_ADMIN
      ensures var v := Validation(requester, db).value;
              && v.Some? && "ConfirmedByID" in v.value.errors.value
              && v.value.errors.value["ConfirmedByID"] == ERR_DELETION_WRONG_ROLE
    {
      var confirmer := ReviewerCheck(confirmedByID, confirmedBy, institutionID, db).value;
      var cs := Checks(requester, confirmer, ReviewerCheck(cancelledByID, cancelledBy, institutionID, db).value);
      assert confirmer == Some(ERR_DELETION_WRONG_ROLE);
      assert cs[2].key == "ConfirmedByID" && cs[2].failed && cs[2].msg == ERR_DELETION_WRONG_ROLE;
    }

    /** A preloaded confirmer is not checked at all. */
    lemma PreloadedConfirmerUnchecked(requester: User?, db: Store)
      requires Validation(requester, db).Returned?
      requires confirmedBy != null
      ensures var v := Validation(requester, db).value;
              v.Some? ==> "ConfirmedByID" !in v.value.errors.value
    {
      var cs := Checks(requester, None, ReviewerCheck(cancelledByID, cancelledBy, institutionID, db).value);
      assert cs[2].key == "ConfirmedByID" && !cs[2].failed;
    }

    /** AddFile: the file goes at the end of the list; a nil list becomes
        an empty one first. Nothing else changes. */
    method AddFile(gf: GenericFile)
      modifies this`genericFiles
      ensures genericFiles == Some(ListOf(old(genericFiles)) + [gf])
    {
      if genericFiles.None? {
        genericFiles := Some([]);
      }
      genericFiles := Some(genericFiles.value + [gf]);
    }

    /** AddObject: the object goes at the end of the list; a nil list
        becomes an empty one first. Nothing else changes. */
    method AddObject(obj: IntellectualObject)
      modifies this`intellectualObjects
      ensures intellectualObjects == Some(ListOf(old(intellectualObjects)) + [obj])
    {
      if intellectualObjects.None? {
        intellectualObjects := Some([]);
      }
      intellectualObjects := Some(intellectualObjects.value + [obj]);
    }

    /** saveFiles: one insert-or-ignore into the files join table per file,
        in list order. */
    method SaveFiles(table: JoinTable) returns (table': JoinTable)
      ensures table' == InsertPairs(table, id, FileIDs(ListOf(genericFiles)))
    {
      var files := ListOf(genericFiles);
      var ids := FileIDs(files);
      table' := table;
      for i := 0 to |files|
        invariant table' == InsertPairs(table, id, ids[..i])
      {
        assert ids[..i + 1][..i] == ids[..i];
        table' := table' + {(id, files[i].id)};
      }
      assert ids[..|files|] == ids;
    }

    /** saveObjects: one insert-or-ignore into the objects join table per
        object, in list order. */
    method SaveObjects(table: JoinTable) returns (table': JoinTable)
      ensures table' == InsertPairs(table, id, ObjectIDs(ListOf(intellectualObjects)))
    {
      var objs := ListOf(intellectualObjects);
      var ids := ObjectIDs(objs);
      table' := table;
      for i := 0 to |objs|
        invariant table' == InsertPairs(table, id, ids[..i])
      {
        assert ids[..i + 1][..i] == ids[..i];
        table' := table' + {(id, objs[i].id)};
      }
      assert ids[..|objs|] == ids;
    }
  }

  /** NewDeletionRequest: a random token (from the caller's random bytes)
      and its encryption, and empty lists; an encryption failure is
      returned with no request. */
  method NewDeletionRequest(randomBytes: seq<Byte>, salt: Option<Salt>)
    returns (r: Result<DeletionRequest, Error>)
    requires |randomBytes| == 16
    ensures r.Err? <==> salt.None?
    ensures r.Ok? ==> fresh(r.value)
    ensures r.Ok? ==> r.value.confirmationToken == RandomToken(randomBytes)
    ensures r.Ok? ==> r.value.encryptedConfirmationToken == EncryptPassword(RandomToken(randomBytes), salt).digest
    ensures r.Ok? ==> r.value.genericFiles == Some([]) && r.value.intellectualObjects == Some([])
    ensures r.Ok? ==> r.value.id == 0 && r.value.requestedByID == 0 && r.value.confirmedByID == 0
    ensures r.Ok? ==> r.value.cancelledByID == 0 && r.value.requestedBy == null
    ensures r.Ok? ==> r.value.institutionID == 0 && r.value.requestedAt == 0 && r.value.confirmedAt == 0
    ensures r.Ok? ==> r.value.confirmedBy == null && r.value.cancelledBy == null && r.value.cancelledAt == 0
  {
    var confToken := RandomToken(randomBytes);
    var enc := EncryptPassword(confToken, salt);
    if enc.err.Some? {
      return Err(enc.err.value);
    }
    var request := new DeletionRequest(0, 0, 0, 0, confToken, enc.digest, 0, 0, null, 0, 0, null, null,
                                       Some([]), Some([]));
    return Ok(request);
  }

  /** The token of a new request passes its own review: the stored value
      looks encrypted, so Validate accepts it, and it compares equal to
      the plain token sent to the reviewer. */
  lemma NewTokenIsReviewable(randomBytes: seq<Byte>, salt: Salt)
    requires |randomBytes| == 16
    ensures LooksEncrypted(EncryptPassword(RandomToken(randomBytes), Some(salt)).digest)
    ensures ComparePasswords(EncryptPassword(RandomToken(randomBytes), Some(salt)).digest, RandomToken(randomBytes))
  {
    CompareEncrypted(RandomToken(randomBytes), salt);
  }
}
