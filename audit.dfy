/**
 * The entries of the audit trail (App.tsx addAuditLog): who acted, on whom, what.
 */
module Audit {
  import opened Wrappers
  import opened Types

  /** The sentinel actor written when no user is known. */
  const SYSTEM_ID: string := "SISTEMA"
  const SYSTEM_NAME: string := "System"

  /**
   * The entry `addAuditLog` builds. The actor is the explicit one when given, else
   * the current user (`actor || currentUser`); its id is kept unless it is the empty
   * string, which `logActor?.id || 'SISTEMA'` also replaces by the sentinel.
   */
  function NewLog(action: string, targetId: Option<string>, details: Option<string>,
                  actor: Option<User>, current: Option<User>, now: Millis): (e: AuditLog)
    ensures e.action == action && e.targetId == targetId && e.details == details
    ensures e.id == now && e.timestamp == now
    ensures actor.Some? && actor.value.id != "" ==> e.adminId == actor.value.id
    ensures actor.Some? ==> e.adminName == actor.value.firstName + " " + actor.value.lastName
    ensures actor.Some? && actor.value.id == "" ==> e.adminId == SYSTEM_ID
    ensures actor.None? && current.Some? && current.value.id != "" ==> e.adminId == current.value.id
    ensures actor.None? && current.Some? && current.value.id == "" ==> e.adminId == SYSTEM_ID
    ensures actor.None? && current.Some? ==> e.adminName == current.value.firstName + " " + current.value.lastName
    ensures actor.None? && current.None? ==> e.adminId == SYSTEM_ID && e.adminName == SYSTEM_NAME
  {
    var logActor := if actor.Some? then actor else current;
    AuditLog(
      now,
      if logActor.Some? && logActor.value.id != "" then logActor.value.id else SYSTEM_ID,
      if logActor.Some? then logActor.value.firstName + " " + logActor.value.lastName else SYSTEM_NAME,
      action,
      targetId,
      now,
      details)
  }
}
