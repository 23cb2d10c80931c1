/**
 * The two persisted blobs of App.tsx: the database record under DB_KEY and the
 * session under SESSION_KEY. JSON text is not modelled: the database record is a
 * map from its top-level keys to their values, and the session blob either
 * parses or it does not.
 */
module Store {
  import opened Types

  /** Top-level keys of the database record written by the core. */
  const USERS_KEY: string := "users"
  const AUDIT_LOGS_KEY: string := "auditLogs"

  /**
   * A value stored under one key of the database record. Keys the core does not
   * interpret (designations, programs, messages, isChatActive) keep their JSON text.
   */
  datatype Field =
    | UsersField(users: seq<User>)
    | AuditLogsField(logs: seq<AuditLog>)
    | OtherField(json: string)

  /** The database record; an absent blob reads as the empty record `{}`. */
  type Record = map<string, Field>

  /** The session blob: the text under SESSION_KEY either parses as a UserSession or it does not. */
  datatype SessionBlob = Malformed | Stored(session: UserSession)

  /**
   * `{ ...db, ...updates }` (App.tsx dbSync): every key of `updates` now holds its
   * new value, every other key of the stored record keeps its old one, and no
   * other key appears.
   */
  function Merge(db: Record, updates: Record): (r: Record)
    ensures r.Keys == db.Keys + updates.Keys
    ensures forall k :: k in updates ==> r[k] == updates[k]
    ensures forall k :: k in db && k !in updates ==> r[k] == db[k]
  {
    db + updates
  }

  /** Merging a record whose keys are all already written with the same values changes nothing. */
  lemma MergeIdempotent(db: Record, updates: Record)
    ensures Merge(Merge(db, updates), updates) == Merge(db, updates)
  {
  }
}
