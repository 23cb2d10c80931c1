/**
 * The records of the account-security core (types.ts).
 * Timestamps are integer milliseconds since the epoch; the source's ISO-8601
 * strings are represented by the millisecond value they encode.
 */
module Types {
  import opened Wrappers

  /** Milliseconds since the epoch, as returned by `Date.now()`. */
  type Millis = int

  /** types.ts AccountStatus: PENDENTE, ATIVO, INATIVO, BLOQUEADO, PENDENTE_REDEFINIÇÃO. */
  datatype AccountStatus = Pending | Active | Inactive | Blocked | PendingReset

  /** types.ts UserRole; `Regular` is the enum member `USER`. */
  datatype UserRole = AdminPrincipal | AdminSectorial | Regular

  /** types.ts Privilege: congregational standing, independent of the role. */
  datatype Privilege = Elder | MinisterialServant | Publisher | BrotherSister

  /**
   * The security-relevant fields of types.ts User. The optional fields of the
   * interface (`lockedUntil`, `emailResendCount`, `lastEmailResendAt`) are options.
   */
  datatype User = User(
    id: string,
    firstName: string,
    lastName: string,
    email: string,
    isEmailVerified: bool,
    loginAttempts: int,
    lockedUntil: Option<Millis>,
    privilege: Privilege,
    status: AccountStatus,
    role: UserRole,
    emailResendCount: Option<int>,
    lastEmailResendAt: Option<Millis>)

  /**
   * types.ts AuditLog. `id` is the clock reading the source formats as `LOG-<ms>`;
   * two entries made in the same millisecond carry the same id.
   */
  datatype AuditLog = AuditLog(
    id: Millis,
    adminId: string,
    adminName: string,
    action: string,
    targetId: Option<string>,
    timestamp: Millis,
    details: Option<string>)

  /** types.ts UserSession: the session bound to one user and one device. */
  datatype UserSession = UserSession(
    userId: string,
    loginTimestamp: Millis,
    expiresAt: Millis,
    deviceId: string)

  /** The result the mail collaborator reports: `{ success, error? }`. */
  datatype MailResult = MailResult(success: bool, error: Option<string>)
}
