/** Records the core reads from the database: work item rows, files,
    PREMIS events, the deletion request view and users. A value `Store`
    stands for the database tables the core queries. Times are
    nanoseconds since Go's zero time, so 0 is the zero time.Time. */
module Records {
  import opened Wrappers
  import opened Constants

  /** A row of the work_items table (pgmodels.WorkItem). */
  datatype WorkItemRow = WorkItemRow(
    id: int,
    createdAt: int,
    updatedAt: int,
    name: string,
    etag: string,
    institutionID: int,
    intellectualObjectID: int,
    genericFileID: int,
    bucket: string,
    user: string,
    note: string,
    action: string,
    stage: string,
    status: string,
    outcome: string,
    bagDate: int,
    dateProcessed: int,
    retry: bool,
    node: string,
    pid: int,
    needsAdminReview: bool,
    queuedAt: int,
    size: int,
    stageStartedAt: int,
    aptrustApprover: string,
    instApprover: string)

  /** The message for a State outside the enumeration (ErrInstState in
      pgmodels/institution.go). */
  const ERR_INST_STATE := "State must be 'A' or 'D'."

  /** The zero WorkItem{}. */
  const ZERO_WORK_ITEM := WorkItemRow(0, 0, 0, "", "", 0, 0, 0, "", "", "", "", "", "", "",
                                      0, 0, false, "", 0, false, 0, 0, 0, "", "")

  /** The fields of a generic file the core reads. */
  datatype GenericFile = GenericFile(
    id: int,
    identifier: string,
    intellectualObjectID: int,
    institutionID: int,
    size: int,
    state: string)

  /** A PREMIS event. A zero genericFileID is a NULL generic_file_id. */
  datatype PremisEvent = PremisEvent(
    agent: string,
    dateTime: int,
    detail: string,
    eventType: string,
    identifier: string,
    institutionID: int,
    intellectualObjectID: int,
    genericFileID: int,
    object: string,
    outcome: string,
    outcomeDetail: string,
    outcomeInformation: string,
    createdAt: int)

  /** A row of the deletion_requests_view. */
  datatype DeletionRequestView = DeletionRequestView(
    id: int,
    workItemID: int,
    objectCount: int,
    fileCount: int,
    requestedByID: int,
    requestedByEmail: string,
    confirmedByID: int,
    confirmedByEmail: string)

  /** A registry user. The core never changes the identity fields, which
      are constants here; the sign-in and password fields are changed in
      place by the user handlers. */
  class User {
    const id: int
    const institutionID: int
    const email: string
    const role: string
    const deactivatedAt: int
    var encryptedPassword: string
    var passwordChangedAt: int
    var resetPasswordToken: string
    var resetPasswordSentAt: int
    var forcePasswordUpdate: bool
    var signInCount: int
    var lastSignInIP: string
    var lastSignInAt: int
    var currentSignInIP: string
    var currentSignInAt: int
    var awaitingSecondFactor: bool
    var encryptedAPISecretKey: string

    constructor (id: int, institutionID: int, email: string, role: string, deactivatedAt: int)
      ensures this.id == id && this.institutionID == institutionID && this.email == email
      ensures this.role == role && this.deactivatedAt == deactivatedAt
      ensures resetPasswordToken == "" && signInCount == 0 && currentSignInAt == 0
    {
      this.id := id;
      this.institutionID := institutionID;
      this.email := email;
      this.role := role;
      this.deactivatedAt := deactivatedAt;
      encryptedPassword := "";
      passwordChangedAt := 0;
      resetPasswordToken := "";
      resetPasswordSentAt := 0;
      forcePasswordUpdate := false;
      signInCount := 0;
      lastSignInIP := "";
      lastSignInAt := 0;
      currentSignInIP := "";
      currentSignInAt := 0;
      awaitingSecondFactor := false;
      encryptedAPISecretKey := "";
    }

    /** A system administrator. */
    predicate IsAdmin() {
      role == ROLE_SYS_ADMIN
    }

    /** The columns the handlers change, as a value. */
    function Columns(): UserColumns
      reads this
    {
      UserColumns(encryptedPassword, passwordChangedAt, resetPasswordToken, resetPasswordSentAt,
                  forcePasswordUpdate, signInCount, lastSignInIP, lastSignInAt, currentSignInIP,
                  currentSignInAt, awaitingSecondFactor, encryptedAPISecretKey)
    }
  }

  /** A user's changeable columns. */
  datatype UserColumns = UserColumns(
    encryptedPassword: string,
    passwordChangedAt: int,
    resetPasswordToken: string,
    resetPasswordSentAt: int,
    forcePasswordUpdate: bool,
    signInCount: int,
    lastSignInIP: string,
    lastSignInAt: int,
    currentSignInIP: string,
    currentSignInAt: int,
    awaitingSecondFactor: bool,
    encryptedAPISecretKey: string)

  /** User.HasPermission(permission, institutionID), which is not part of
      this model. */
  type PermissionTest = (User, string, int) -> bool

  /** The tables the core queries. */
  datatype Store = Store(
    genericFiles: seq<GenericFile>,
    premisEvents: seq<PremisEvent>,
    workItems: seq<WorkItemRow>,
    deletionRequestViews: seq<DeletionRequestView>,
    users: map<int, User>)
  {
    /** UserByID: the user with that id, or nil. */
    function UserByID(id: int): (u: Option<User>)
      ensures u.Some? <==> id in users
      ensures u.Some? ==> u.value == users[id]
    {
      if id in users then Some(users[id]) else None
    }
  }
}
