/** The registry constants the core uses. The single named constants carry
    the registry's values; the enumerations, the NSQ topic table, the
    authorization map and the string validators are parameters of the
    model, bundled in `Registry`. */
module Constants {
  import opened Wrappers
  import opened Errors

  const ACTION_INGEST := "Ingest"
  const ACTION_DELETE := "Delete"
  const ACTION_RESTORE_FILE := "Restore File"
  const ACTION_RESTORE_OBJECT := "Restore Object"
  const ACTION_GLACIER_RESTORE := "Glacier Restore"

  const STAGE_REQUESTED := "Requested"
  const STAGE_RECORD := "Record"
  const STAGE_CLEANUP := "Cleanup"

  const STATUS_PENDING := "Pending"
  const STATUS_STARTED := "Started"
  const STATUS_SUCCESS := "Success"

  const STATE_ACTIVE := "A"
  const STATE_DELETED := "D"

  const ROLE_INST_ADMIN := "institutional_admin"
  const ROLE_SYS_ADMIN := "admin"

  const EVENT_INGESTION := "ingestion"
  const EVENT_DELETION := "deletion"
  const OUTCOME_SUCCESS := "Success"

  const INST_TYPE_SUBSCRIBER := "SubscriptionInstitution"

  /** Permissions named by the core. */
  const USER_READ := "UserRead"
  const USER_UPDATE := "UserUpdate"

  /** An AuthMap entry: the resource a handler touches and the permission it needs. */
  datatype AuthMeta = AuthMeta(resourceType: string, permission: string)

  /** The constants package's lists and tables, and the validators. */
  datatype Registry = Registry(
    completedStatusValues: set<string>,
    workItemActions: set<string>,
    stages: set<string>,
    statuses: set<string>,
    states: set<string>,
    accessSettings: set<string>,
    storageOptions: set<string>,
    glacierOnlyOptions: set<string>,
    instTypes: set<string>,
    topics: map<(string, string), string>,
    authMap: map<string, AuthMeta>,
    isEmail: string -> bool,
    isDNSName: string -> bool)
  {
    /** TopicFor: the NSQ topic for an action at a stage; a pair with no
        topic cannot be queued. */
    function TopicFor(action: string, stage: string): (r: Result<string, Error>)
      ensures r.Err? <==> (action, stage) !in topics
      ensures r.Err? ==> r.error == InvalidRequeue
    {
      if (action, stage) in topics then Ok(topics[(action, stage)]) else Err(InvalidRequeue)
    }

    /** No enumeration contains the empty string and "" is not an email
        address: the zero value of every field is invalid. */
    predicate RejectsZeroValues() {
      && "" !in workItemActions && "" !in stages && "" !in statuses
      && "" !in states && "" !in accessSettings && "" !in storageOptions
      && "" !in instTypes
      && !isEmail("")
    }
  }

  /** govalidator's IsByteLength. */
  predicate IsByteLength(s: string, min: int, max: int) {
    min <= |s| <= max
  }

  predicate IsSpace(c: char) {
    c == ' ' || c == '\t' || c == '\n' || c == '\r' || c as int == 11 || c as int == 12
  }

  /** common.IsEmptyString: nothing but white space. */
  predicate IsEmptyString(s: string) {
    forall i :: 0 <= i < |s| ==> IsSpace(s[i])
  }

  /** strings.HasPrefix */
  predicate HasPrefix(s: string, prefix: string) {
    |prefix| <= |s| && s[..|prefix|] == prefix
  }
}
