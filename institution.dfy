/** Institutions (pgmodels/institution.go): soft delete and undelete, the
    insert and update hooks, the derived bucket names and validation. */
module Institutions {
  import opened Wrappers
  import opened Errors
  import opened Constants
  import Cfg = Config
  import Records

  const ERR_INST_NAME := "Name must contain 5-100 characters."
  const ERR_INST_IDENTIFIER := "Identifier must be a domain name."
  const ERR_INST_TYPE := "Please choose an institution type."
  const ERR_INST_RECEIVING := "Receiving bucket name is not valid."
  const ERR_INST_RESTORE := "Restoration bucket name is not valid."
  const ERR_INST_MEMBER_ID := "Please choose a parent institution."

  /** The columns of an institution. */
  datatype InstitutionRow = InstitutionRow(
    id: int,
    name: string,
    identifier: string,
    state: string,
    instType: string,
    memberInstitutionID: int,
    deactivatedAt: int,
    otpEnabled: bool,
    receivingBucket: string,
    restoreBucket: string,
    createdAt: int,
    updatedAt: int)

  const BUCKET_PREFIX := "aptrust."

  /** bucket(name): "aptrust.<name><qualifier>.<identifier>". */
  function Bucket(identifier: string, name: string, cfg: Cfg.Config): string {
    BUCKET_PREFIX + name + cfg.BucketQualifier() + "." + identifier
  }

  /** Each institution has its own buckets: the identifier can be read
      back from a bucket name. */
  lemma BucketsDistinguishInstitutions(id1: string, id2: string, name: string, cfg: Cfg.Config)
    requires Bucket(id1, name, cfg) == Bucket(id2, name, cfg)
    ensures id1 == id2
  {
    var head := BUCKET_PREFIX + name + cfg.BucketQualifier() + ".";
    assert Bucket(id1, name, cfg)[|head|..] == id1;
    assert Bucket(id2, name, cfg)[|head|..] == id2;
  }

  /** An institution's receiving and restoration buckets differ. */
  lemma ReceivingIsNotRestore(identifier: string, cfg: Cfg.Config)
    ensures Bucket(identifier, "receiving", cfg) != Bucket(identifier, "restore", cfg)
  {
    assert Bucket(identifier, "receiving", cfg)[10] == 'c';
    assert Bucket(identifier, "restore", cfg)[10] == 's';
  }

  predicate ContainsDot(s: string) {
    exists i :: 0 <= i < |s| && s[i] == '.'
  }

  /** Validate's checks, in its order. */
  function InstChecks(r: InstitutionRow, cfg: Cfg.Config, c: Registry): (cs: seq<Check>)
    ensures |cs| == 7
  {
    [ Check("Name", !IsByteLength(r.name, 5, 200), ERR_INST_NAME),
      Check("Identifier", !c.isDNSName(r.identifier) || !ContainsDot(r.identifier), ERR_INST_IDENTIFIER),
      Check("State", r.state !in c.states, Records.ERR_INST_STATE),
      Check("Type", r.instType !in c.instTypes, ERR_INST_TYPE),
      Check("ReceivingBucket", r.receivingBucket != Bucket(r.identifier, "receiving", cfg), ERR_INST_RECEIVING),
      Check("RestoreBucket", r.restoreBucket != Bucket(r.identifier, "restore", cfg), ERR_INST_RESTORE),
      Check("MemberInstitutionID", r.instType == INST_TYPE_SUBSCRIBER && r.memberInstitutionID < 1, ERR_INST_MEMBER_ID) ]
  }

  /** A valid institution: a name of 5 to 200 bytes, a DNS name with a dot
      as identifier, a known state and type, the derived bucket names, and
      a parent for a subscriber. */
  predicate InstValid(r: InstitutionRow, cfg: Cfg.Config, c: Registry) {
    && 5 <= |r.name| <= 200
    && c.isDNSName(r.identifier) && ContainsDot(r.identifier)
    && r.state in c.states
    && r.instType in c.instTypes
    && r.receivingBucket == Bucket(r.identifier, "receiving", cfg)
    && r.restoreBucket == Bucket(r.identifier, "restore", cfg)
    && (r.instType == INST_TYPE_SUBSCRIBER ==> r.memberInstitutionID >= 1)
  }

  lemma InstChecksDistinct(r: InstitutionRow, cfg: Cfg.Config, c: Registry)
    ensures DistinctKeys(InstChecks(r, cfg, c))
  {
    var cs := InstChecks(r, cfg, c);
    assert cs[0].key[0] == 'N' && cs[1].key[0] == 'I' && cs[2].key[0] == 'S' && cs[3].key[0] == 'T';
    assert cs[4].key[0] == 'R' && cs[4].key[2] == 'c' && cs[5].key[2] == 's' && cs[6].key[0] == 'M';
  }

  /** The errors map reports exactly the failed checks. */
  lemma InstChecksReport(r: InstitutionRow, cfg: Cfg.Config, c: Registry)
    ensures Reports(Run(InstChecks(r, cfg, c)), InstChecks(r, cfg, c))
  {
    InstChecksDistinct(r, cfg, c);
    RunReports(InstChecks(r, cfg, c));
  }

  /** The report is empty exactly for a valid institution. */
  lemma InstEmptyIffValid(m: map<string, string>, r: InstitutionRow, cfg: Cfg.Config, c: Registry)
    requires Reports(m, InstChecks(r, cfg, c))
    ensures m == map[] <==> InstValid(r, cfg, c)
  {
    var cs := InstChecks(r, cfg, c);
    ReportEmptyIffAllPass(m, cs);
    if forall i :: 0 <= i < |cs| ==> !cs[i].failed {
      assert !cs[0].failed && !cs[1].failed && !cs[2].failed && !cs[3].failed;
      assert !cs[4].failed && !cs[5].failed && !cs[6].failed;
    }
  }

  /** Validate: nil for a valid institution, otherwise an error reporting
      each failed check. */
  function ValidateRow(r: InstitutionRow, cfg: Cfg.Config, c: Registry): (v: Option<ValidationError>)
    ensures v.None? <==> InstValid(r, cfg, c)
    ensures v.Some? ==> v.value.errors.Some? && Reports(v.value.errors.value, InstChecks(r, cfg, c))
  {
    var errors := Run(InstChecks(r, cfg, c));
    InstChecksReport(r, cfg, c);
    InstEmptyIffValid(errors, r, cfg, c);
    if errors != map[] then  // len(errors) > 0
      Some(ValidationError(Some(errors)))
    else None
  }

  /** The fields BeforeInsert sets before it validates. */
  function PreparedForInsert(r: InstitutionRow, now: int, cfg: Cfg.Config): InstitutionRow {
    r.(createdAt := now, updatedAt := now,
       receivingBucket := Bucket(r.identifier, "receiving", cfg),
       restoreBucket := Bucket(r.identifier, "restore", cfg),
       state := STATE_ACTIVE)
  }

  /** After BeforeInsert's preparation the bucket checks, and the state
      check when "A" is a state, cannot fail: only the name, identifier,
      type and parent can be reported. */
  lemma InsertPassesDerivedChecks(r: InstitutionRow, now: int, cfg: Cfg.Config, c: Registry)
    requires STATE_ACTIVE in c.states
    ensures var v := ValidateRow(PreparedForInsert(r, now, cfg), cfg, c);
            v.Some? ==> "ReceivingBucket" !in v.value.errors.value && "RestoreBucket" !in v.value.errors.value
                        && "State" !in v.value.errors.value
  {
    var cs := InstChecks(PreparedForInsert(r, now, cfg), cfg, c);
    assert cs[2].key == "State" && !cs[2].failed;
    assert cs[4].key == "ReceivingBucket" && !cs[4].failed;
    assert cs[5].key == "RestoreBucket" && !cs[5].failed;
  }

  /** The name message says 5-100 characters, but names of up to 200 bytes
      are accepted. */
  lemma LongNameAccepted(r: InstitutionRow, cfg: Cfg.Config, c: Registry)
    requires 100 < |r.name| <= 200
    ensures var v := ValidateRow(r, cfg, c);
            v.Some? ==> "Name" !in v.value.errors.value
  {
    var cs := InstChecks(r, cfg, c);
    assert cs[0].key == "Name" && !cs[0].failed;
  }

  /** The checks with the name bound the message states, 5 to 100. */
  function InstChecksIntended(r: InstitutionRow, cfg: Cfg.Config, c: Registry): (cs: seq<Check>)
    ensures |cs| == 7
  {
    InstChecks(r, cfg, c)[0 := Check("Name", !IsByteLength(r.name, 5, 100), ERR_INST_NAME)]
  }

  /** With the intended bound, the name is reported exactly when it is
      shorter than 5 or longer than 100; the two checks disagree exactly
      on names of 101 to 200 characters. */
  lemma IntendedNameBound(r: InstitutionRow, cfg: Cfg.Config, c: Registry)
    ensures Reports(Run(InstChecksIntended(r, cfg, c)), InstChecksIntended(r, cfg, c))
    ensures "Name" in Run(InstChecksIntended(r, cfg, c)) <==> !(5 <= |r.name| <= 100)
    ensures InstChecksIntended(r, cfg, c)[0].failed != InstChecks(r, cfg, c)[0].failed <==> 100 < |r.name| <= 200
  {
    var cs := InstChecksIntended(r, cfg, c);
    InstChecksDistinct(r, cfg, c);
    assert forall i :: 0 <= i < 7 ==> cs[i].key == InstChecks(r, cfg, c)[i].key;
    assert DistinctKeys(cs);
    RunReports(cs);
    assert cs[0].key == "Name";
  }

  /** Soft deletion keeps State and DeactivatedAt in step: deleted exactly
      when deactivated. */
  predicate SoftDeleteConsistent(r: InstitutionRow) {
    (r.state == STATE_DELETED <==> r.deactivatedAt != 0)
    && (r.state == STATE_ACTIVE <==> r.deactivatedAt == 0)
  }

  /** Delete's changes before the update: deleted, deactivated now. */
  function Deleted(r: InstitutionRow, now: int): (d: InstitutionRow)
    requires now != 0
    ensures SoftDeleteConsistent(d)
  {
    r.(state := STATE_DELETED, deactivatedAt := now)
  }

  /** Undelete's changes before the update: active, not deactivated. */
  function Undeleted(r: InstitutionRow): (u: InstitutionRow)
    ensures SoftDeleteConsistent(u)
  {
    r.(state := STATE_ACTIVE, deactivatedAt := 0)
  }

  /** Undelete undoes Delete on an active institution, and Delete undoes
      Undelete on an institution deleted at the same time. */
  lemma DeleteRoundTrips(r: InstitutionRow, now: int)
    requires now != 0
    ensures r.state == STATE_ACTIVE && r.deactivatedAt == 0 ==> Undeleted(Deleted(r, now)) == r
    ensures r.state == STATE_DELETED && r.deactivatedAt == now ==> Deleted(Undeleted(r), now) == r
  {
  }

  /** An institution, changed in place by its hooks and by Delete and
      Undelete. The columns are one record, updated one column at a time. */
  class Institution {
    var row: InstitutionRow

    constructor (r: InstitutionRow)
      ensures row == r
    {
      row := r;
    }

    function Validate(cfg: Cfg.Config, c: Registry): (v: Option<ValidationError>)
      reads this
      ensures v.None? <==> InstValid(row, cfg, c)
      ensures v.Some? ==> v.value.errors.Some? && Reports(v.value.errors.value, InstChecks(row, cfg, c))
    {
      ValidateRow(row, cfg, c)
    }

    /** The bucket name for "receiving" or "restore". */
    function BucketFor(name: string, cfg: Cfg.Config): string
      reads this
    {
      Bucket(row.identifier, name, cfg)
    }

    /** BeforeInsert: timestamps, bucket names and the active state, then
        validation. */
    method BeforeInsert(now: int, cfg: Cfg.Config, c: Registry) returns (err: Option<ValidationError>)
      modifies this
      ensures row == PreparedForInsert(old(row), now, cfg)
      ensures err == ValidateRow(row, cfg, c)
    {
      row := row.(createdAt := now);
      row := row.(updatedAt := now);
      row := row.(receivingBucket := BucketFor("receiving", cfg));
      row := row.(restoreBucket := BucketFor("restore", cfg));
      row := row.(state := STATE_ACTIVE);
      err := Validate(cfg, c);
    }

    /** BeforeUpdate: the update time, then validation. */
    method BeforeUpdate(now: int, cfg: Cfg.Config, c: Registry) returns (err: Option<ValidationError>)
      modifies this
      ensures row == old(row).(updatedAt := now)
      ensures err == ValidateRow(row, cfg, c)
    {
      row := row.(updatedAt := now);
      err := Validate(cfg, c);
    }

    /** Delete: marks the institution deleted and deactivated now, then
        updates it, which runs BeforeUpdate; a validation failure stops
        the update but the fields stay changed. */
    method Delete(now: int, cfg: Cfg.Config, c: Registry) returns (err: Option<ValidationError>)
      requires now != 0
      modifies this
      ensures row == Deleted(old(row), now).(updatedAt := now)
      ensures SoftDeleteConsistent(row)
      ensures err == ValidateRow(row, cfg, c)
    {
      row := row.(state := STATE_DELETED);
      row := row.(deactivatedAt := now);
      err := BeforeUpdate(now, cfg, c);
    }

    /** Undelete: marks the institution active with a zero DeactivatedAt,
        then updates it as Delete does. */
    method Undelete(now: int, cfg: Cfg.Config, c: Registry) returns (err: Option<ValidationError>)
      modifies this
      ensures row == Undeleted(old(row)).(updatedAt := now)
      ensures SoftDeleteConsistent(row)
      ensures err == ValidateRow(row, cfg, c)
    {
      row := row.(state := STATE_ACTIVE);
      row := row.(deactivatedAt := 0);
      err := BeforeUpdate(now, cfg, c);
    }
  }
}
