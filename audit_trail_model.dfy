/** The append-only audit trail and the validation its schema applies to
    every new entry (backend/models/AuditTrail.js). */
module AuditTrailModel {
  import opened Common
  import opened ApplicationModel
  import opened ConfigModel

  /** The closed list of actions the schema admits. */
  const SchemaActions: set<string> := {
    "created", "submitted", "reviewed", "approved", "rejected", "modified",
    "manual_override", "fraud_marked", "audit_selected", "audit_completed",
    "score_calculated", "consent_accepted"
  }

  /** The detail payloads the handlers attach. */
  datatype Details =
    | StatusDetails(status: Status)
    | SubmitDetails(score: int, status: Status)
    | ApprovalDetails(remarks: Option<string>, manualOverride: bool)
    | ReasonDetails(reason: Option<string>)
    | ConfigDetails(configKey: string, newValue: Value)
    | CreatedUserDetails(createdUserId: Id, role: string, email: string)
    | RoleDetails(targetUserId: Id, newRole: string)
    | ActiveDetails(targetUserId: Id, isActive: bool)

  /** One entry; `applicationId == None` is the handlers' `null`. */
  datatype Entry = Entry(
    applicationId: Option<Id>,
    userId: Id,
    action: string,
    details: Details,
    ipAddress: string,
    createdAt: int)

  /** The schema requires an application reference and an action from the
      closed list. */
  predicate SchemaAccepts(e: Entry) {
    e.applicationId.Some? && e.action in SchemaActions
  }

  class AuditTrailCollection {
    var entries: seq<Entry>

    constructor ()
      ensures entries == []
    {
      entries := [];
    }

    /** AuditTrail.create: the entry is stored when the schema accepts it and
        refused (the caller sees an exception) otherwise. */
    method Append(e: Entry) returns (ok: bool)
      modifies this
      ensures ok == SchemaAccepts(e)
      ensures entries == if ok then old(entries) + [e] else old(entries)
    {
      ok := e.applicationId.Some? && e.action in SchemaActions;
      if ok {
        entries := entries + [e];
      }
    }
  }
}
