/**
 * The account-security handlers of the App component (App.tsx), each one step
 * from the component state at the start of the handler to the state it leaves.
 *
 * The clock (`Date.now()`), the session `createSession` issues and the result the
 * mail collaborator reports are parameters. React applies state updates after the
 * handler returns, so every handler reads the state as it was when it began.
 */
module Security {
  import opened Wrappers
  import opened Types
  import opened Text
  import opened Store
  import opened Users
  import opened Audit

  /** The identifier of the first registrant; constants.ts is not part of this model, so the value is a stand-in. */
  const ADMIN_MASTER_ID: string := "ADMIN-MASTER"

  /** Failed logins that lock the account, and for how long (15 minutes). */
  const MAX_LOGIN_ATTEMPTS: int := 5
  const LOCKOUT_MS: int := 15 * 60 * 1000

  /** Confirmation e-mails that may be resent, and the quiet period that restores the quota (24 hours). */
  const RESEND_LIMIT: int := 3
  const RESEND_WINDOW_MS: int := 24 * 60 * 60 * 1000

  /** Audit actions. */
  const LOGIN_SUCCESS: string := "LOGIN_SUCCESS"
  const LOGOUT_PREFIX: string := "LOGOUT: "
  const MANUAL_LOGOUT: string := "Logout Manual"
  const SESSION_EXPIRED: string := "Sessão Expirada (24h)"
  const ACCOUNT_NOT_ACTIVE: string := "Conta Inativada ou Pendente"
  const SIGNUP_MAIL_SENT: string := "EMAIL_CADASTRO_ENVIADO"
  const SIGNUP_MAIL_FAILED: string := "FALHA_ENVIO_EMAIL_CADASTRO"
  const RESEND_QUOTA_BLOCKED: string := "BLOQUEIO_REENVIO_COTA"
  const RESEND_QUOTA_DETAIL: string := "Limite de 3 tentativas atingido."
  const RESEND_SENT: string := "REENVIO_EMAIL_SUCESSO"
  const RESEND_FAILED: string := "REENVIO_EMAIL_ERRO"
  const RESET_PREFIX: string := "PEDIDO_REDEFINIÇÃO: "
  const UPDATE_PREFIX: string := "USER_UPDATE: "

  /** The component state the core reads and writes: three `useState` slots and the two storage keys. */
  datatype AppState = AppState(
    users: seq<User>,
    auditLogs: seq<AuditLog>,
    currentUser: Option<User>,
    session: Option<SessionBlob>,
    db: Record)

  /** A handler's new state together with what it returns to its caller. */
  datatype Step<T> = Step(state: AppState, reply: T)

  datatype RegisterReply = RegisterReply(success: bool, emailSent: bool)

  /** The messages `handleResendEmail` returns, in the order its branches are tried. */
  datatype ResendMessage = NotFound | AlreadyApproved | InvalidStatus | QuotaReached | Resent(email: string) | MailError

  datatype ResendReply = ResendReply(success: bool, message: ResendMessage)

  /** The persisted record holds exactly the in-memory user list and audit log. */
  ghost predicate InSync(st: AppState) {
    && USERS_KEY in st.db && st.db[USERS_KEY] == UsersField(st.users)
    && AUDIT_LOGS_KEY in st.db && st.db[AUDIT_LOGS_KEY] == AuditLogsField(st.auditLogs)
  }

  /**
   * `setUsers(updated); dbSync({ users: updated })`: the new list is in memory and
   * under the users key; every other stored key keeps its value, and the log, the
   * current user and the session are untouched.
   */
  function SyncUsers(st: AppState, updated: seq<User>): (r: AppState)
    ensures r.users == updated && r.auditLogs == st.auditLogs
    ensures r.currentUser == st.currentUser && r.session == st.session
    ensures r.db.Keys == st.db.Keys + {USERS_KEY} && r.db[USERS_KEY] == UsersField(updated)
    ensures forall k :: k in st.db && k != USERS_KEY ==> r.db[k] == st.db[k]
  {
    st.(users := updated, db := Merge(st.db, map[USERS_KEY := UsersField(updated)]))
  }

  /**
   * addAuditLog (App.tsx:82-96): the new entry goes in front of the unchanged
   * old log, and the whole log is written back under its key.
   */
  function AddAuditLog(st: AppState, action: string, targetId: Option<string>, details: Option<string>,
                       actor: Option<User>, now: Millis): (r: AppState)
    ensures |r.auditLogs| == |st.auditLogs| + 1 && r.auditLogs[1..] == st.auditLogs
    ensures r.auditLogs[0] == NewLog(action, targetId, details, actor, st.currentUser, now)
    ensures r.db == Merge(st.db, map[AUDIT_LOGS_KEY := AuditLogsField(r.auditLogs)])
    ensures r.users == st.users && r.currentUser == st.currentUser && r.session == st.session
  {
    var updated := [NewLog(action, targetId, details, actor, st.currentUser, now)] + st.auditLogs;
    st.(auditLogs := updated, db := Merge(st.db, map[AUDIT_LOGS_KEY := AuditLogsField(updated)]))
  }

  /** The reset `handleLogin` applies to the user who logged in. */
  const ClearLockout := NoChange.(loginAttempts := Some(0), lockedUntil := Some(None))

  /**
   * handleLogin (App.tsx:98-106): the session is stored, only users with the given
   * id get their failure counter and lock cleared, the user as passed becomes
   * current, and one LOGIN_SUCCESS entry with that user as actor is added.
   */
  function Login(st: AppState, user: User, session: UserSession, now: Millis): (r: AppState)
    ensures r.session == Some(Stored(session)) && r.currentUser == Some(user)
    ensures |r.users| == |st.users|
    ensures forall i :: 0 <= i < |st.users| && st.users[i].id == user.id ==>
              r.users[i] == st.users[i].(loginAttempts := 0, lockedUntil := None)
    ensures forall i :: 0 <= i < |st.users| && st.users[i].id != user.id ==> r.users[i] == st.users[i]
    ensures |r.auditLogs| == |st.auditLogs| + 1 && r.auditLogs[1..] == st.auditLogs
    ensures r.auditLogs[0] == NewLog(LOGIN_SUCCESS, Some(user.id), None, Some(user), st.currentUser, now)
    ensures InSync(r)
  {
    var st1 := SyncUsers(st.(session := Some(Stored(session))), UpdateWhereId(st.users, user.id, ClearLockout));
    AddAuditLog(st1.(currentUser := Some(user)), LOGIN_SUCCESS, Some(user.id), None, Some(user), now)
  }

  /**
   * handleLogout (App.tsx:108-114): the session and the current user are cleared;
   * when someone was logged in, one `LOGOUT: <reason>` entry names them as actor
   * and target. The user list is never touched.
   */
  function Logout(st: AppState, reason: string, now: Millis): (r: AppState)
    ensures r.session.None? && r.currentUser.None? && r.users == st.users
    ensures st.currentUser.None? ==> r.auditLogs == st.auditLogs && r.db == st.db
    ensures st.currentUser.Some? ==>
              && |r.auditLogs| == |st.auditLogs| + 1 && r.auditLogs[1..] == st.auditLogs
              && r.auditLogs[0] == NewLog(LOGOUT_PREFIX + reason, Some(st.currentUser.value.id), None, None, st.currentUser, now)
  {
    var cleared := st.(session := None, currentUser := None);
    // The handler still sees the user who was current when it began.
    if st.currentUser.Some? then
      AddAuditLog(cleared, LOGOUT_PREFIX + reason, Some(st.currentUser.value.id), None, st.currentUser, now)
    else cleared
  }

  /**
   * The bound user may resume the session: the principal administrator in any
   * status, anyone else only while ACTIVE.
   */
  predicate MayResume(u: User): (ok: bool)
    ensures u.role == AdminPrincipal ==> ok
    ensures u.role != AdminPrincipal ==> (ok <==> u.status == Active)
  {
    u.status == Active || u.role == AdminPrincipal
  }

  /**
   * checkSessionSecurity (App.tsx:54-77), the gate run once the database is loaded
   * and again after every change to the user list (App.tsx:77, 80). The user
   * list is never changed. No session: nobody is current. Unreadable session: it
   * is removed. Past `expiresAt` (strictly): logged out. Otherwise the bound user,
   * if any, becomes current when active or the principal administrator, and is
   * logged out in every other status; a session naming no known user changes nothing.
   */
  function CheckSession(st: AppState, now: Millis): (r: AppState)
    ensures r.users == st.users
    ensures st.session.None? ==> r == st.(currentUser := None)
    ensures st.session == Some(Malformed) ==> r == st.(session := None)
    ensures st.session.Some? && st.session.value.Stored? && now > st.session.value.session.expiresAt ==>
              r == Logout(st, SESSION_EXPIRED, now)
    ensures st.session.Some? && st.session.value.Stored? && now <= st.session.value.session.expiresAt ==>
              match FindIndex(st.users, ById(st.session.value.session.userId))
              case None => r == st
              case Some(i) =>
                if MayResume(st.users[i]) then r == st.(currentUser := Some(st.users[i]))
                else r == Logout(st, ACCOUNT_NOT_ACTIVE, now)
  {
    match st.session
    case None => st.(currentUser := None)
    case Some(Malformed) => st.(session := None)
    case Some(Stored(s)) =>
      if now > s.expiresAt then Logout(st, SESSION_EXPIRED, now)
      else match FindIndex(st.users, ById(s.userId))
        case None => st
        case Some(i) =>
          if MayResume(st.users[i]) then st.(currentUser := Some(st.users[i]))
          else Logout(st, ACCOUNT_NOT_ACTIVE, now)
  }

  /** The lookup of the failed-login callback: the identifier is an id or an e-mail address. */
  function LoginQuery(identifier: string): (q: Query)
    ensures forall u :: Matches(q, u) <==> u.id == identifier || u.email == identifier
  {
    EmailOrId(identifier, identifier)
  }

  /**
   * The update recorded for a failed login that brings the counter to `attempts`:
   * it sets the counter, sets a lock until `now + 15 min` exactly when the counter
   * is at least 5, and overwrites nothing else.
   */
  function FailurePatch(attempts: int, now: Millis): (p: UserPatch)
    ensures p.loginAttempts == Some(attempts)
    ensures p.lockedUntil.Some? <==> attempts >= MAX_LOGIN_ATTEMPTS
    ensures p.lockedUntil.Some? ==> p.lockedUntil.value == Some(now + LOCKOUT_MS)
    ensures p.(loginAttempts := None, lockedUntil := None) == NoChange
  {
    if attempts >= MAX_LOGIN_ATTEMPTS then NoChange.(loginAttempts := Some(attempts), lockedUntil := Some(Some(now + LOCKOUT_MS)))
    else NoChange.(loginAttempts := Some(attempts))
  }

  /**
   * A failed login charged to `st.users[i]` (App.tsx:202-207): the new count is
   * its old count plus exactly one, and every user with its id takes that count
   * and, exactly when the count is at least 5, a lock until `now + 15 min`; below
   * 5 the lock is left as it was. Users with another id are unchanged, and the new
   * list is written back. Nothing is logged.
   */
  function RecordFailure(st: AppState, i: nat, now: Millis): (r: AppState)
    requires i < |st.users|
    ensures r.auditLogs == st.auditLogs && r.session == st.session && r.currentUser == st.currentUser
    ensures |r.users| == |st.users|
    ensures forall j :: 0 <= j < |st.users| && st.users[j].id == st.users[i].id ==>
              r.users[j] == st.users[j].(loginAttempts := st.users[i].loginAttempts + 1,
                lockedUntil := if st.users[i].loginAttempts + 1 >= MAX_LOGIN_ATTEMPTS then Some(now + LOCKOUT_MS)
                               else st.users[j].lockedUntil)
    ensures forall j :: 0 <= j < |st.users| && st.users[j].id != st.users[i].id ==> r.users[j] == st.users[j]
    ensures r.db == Merge(st.db, map[USERS_KEY := UsersField(r.users)])
  {
    var u := st.users[i];
    SyncUsers(st, UpdateWhereId(st.users, u.id, FailurePatch(u.loginAttempts + 1, now)))
  }

  /**
   * The `onFailedAttempt` callback (App.tsx:199-209): an identifier that matches
   * no user's id or e-mail changes nothing; otherwise the failure is charged to the
   * first user it matches.
   */
  function FailedAttempt(st: AppState, identifier: string, now: Millis): (r: AppState)
    ensures FindIndex(st.users, LoginQuery(identifier)).None? ==> r == st
    ensures FindIndex(st.users, LoginQuery(identifier)).Some? ==>
              r == RecordFailure(st, FindIndex(st.users, LoginQuery(identifier)).value, now)
  {
    match FindIndex(st.users, LoginQuery(identifier))
    case None => st
    case Some(i) => RecordFailure(st, i, now)
  }

  /**
   * The record `handleRegister` stores for the candidate; `isFirst` when the user
   * list was empty. Exactly the first registrant becomes principal administrator,
   * verified and active; any other is a pending, unverified USER with its own id
   * and privilege. The names, e-mail, counter, lock and last resend are kept, and
   * the resend count starts at 0.
   */
  function Admitted(candidate: User, isFirst: bool): (u: User)
    ensures u.role == AdminPrincipal <==> isFirst
    ensures u.isEmailVerified == isFirst && (u.status == Active <==> isFirst)
    ensures isFirst ==> u.id == ADMIN_MASTER_ID && u.privilege == Elder
    ensures !isFirst ==> u.id == candidate.id && u.privilege == candidate.privilege && u.status == Pending && u.role == Regular
    ensures u.(id := candidate.id, role := candidate.role, status := candidate.status, privilege := candidate.privilege,
               isEmailVerified := candidate.isEmailVerified, emailResendCount := candidate.emailResendCount) == candidate
    ensures u.emailResendCount == Some(0)
  {
    candidate.(
      id := if isFirst then ADMIN_MASTER_ID else candidate.id,
      role := if isFirst then AdminPrincipal else Regular,
      status := if isFirst then Active else Pending,
      privilege := if isFirst then Elder else candidate.privilege,
      isEmailVerified := isFirst,
      emailResendCount := Some(0))
  }

  /**
   * handleRegister (App.tsx:116-137). The admitted user is appended after the old
   * list, which is otherwise unchanged; the reply's `success` is always true. The
   * first registrant becomes the verified, active principal administrator with
   * the fixed id and ELDER privilege, no mail is sent and `emailSent` is true.
   * Every later registrant keeps its id and privilege and is a pending, unverified
   * USER; the mail result decides `emailSent` and which entry is logged.
   */
  function Register(st: AppState, candidate: User, mail: MailResult, now: Millis): (r: Step<RegisterReply>)
    ensures r.reply.success
    ensures |r.state.users| == |st.users| + 1 && r.state.users[..|st.users|] == st.users
    ensures var u := r.state.users[|st.users|];
              && u.emailResendCount == Some(0)
              && u.firstName == candidate.firstName && u.lastName == candidate.lastName && u.email == candidate.email
              && u.loginAttempts == candidate.loginAttempts && u.lockedUntil == candidate.lockedUntil
              && u.lastEmailResendAt == candidate.lastEmailResendAt
              && (|st.users| == 0 ==>
                    u.id == ADMIN_MASTER_ID && u.role == AdminPrincipal && u.status == Active
                    && u.privilege == Elder && u.isEmailVerified)
              && (|st.users| > 0 ==>
                    u.id == candidate.id && u.role == Regular && u.status == Pending
                    && u.privilege == candidate.privilege && !u.isEmailVerified)
    ensures r.state.currentUser == st.currentUser && r.state.session == st.session
    ensures USERS_KEY in r.state.db && r.state.db[USERS_KEY] == UsersField(r.state.users)
    ensures |st.users| == 0 ==> r.reply.emailSent && r.state.auditLogs == st.auditLogs
    ensures |st.users| > 0 ==>
              && r.reply.emailSent == mail.success
              && |r.state.auditLogs| == |st.auditLogs| + 1 && r.state.auditLogs[1..] == st.auditLogs
              && r.state.auditLogs[0].action == (if mail.success then SIGNUP_MAIL_SENT else SIGNUP_MAIL_FAILED)
              && r.state.auditLogs[0].targetId == Some(candidate.id)
              && r.state.auditLogs[0].details == mail.error
              && r.state.auditLogs[0]
                   == NewLog(if mail.success then SIGNUP_MAIL_SENT else SIGNUP_MAIL_FAILED, Some(candidate.id), mail.error, None, st.currentUser, now)
              && InSync(r.state)
  {
    var isFirst := |st.users| == 0;
    var u := Admitted(candidate, isFirst);
    var st1 := SyncUsers(st, st.users + [u]);
    assert st1.users[..|st.users|] == st.users;
    if isFirst then Step(st1, RegisterReply(true, true))
    else
      Step(AddAuditLog(st1, if mail.success then SIGNUP_MAIL_SENT else SIGNUP_MAIL_FAILED, Some(u.id), mail.error, None, now),
           RegisterReply(true, mail.success))
  }

  /** The lookup of `handleResendEmail`: stored e-mail equal to the lower-cased, or id equal to the upper-cased, trimmed identifier. */
  function ResendQuery(emailOrId: string): (q: Query)
    ensures forall u :: Matches(q, u) <==> u.email == Lower(Trim(emailOrId)) || u.id == Upper(Trim(emailOrId))
  {
    var target := Trim(emailOrId);
    EmailOrId(Lower(target), Upper(target))
  }

  /**
   * The resend count the quota is checked against: 0 when there was no resend yet
   * or the last one is at least 24 hours old, the stored count (0 when absent) otherwise.
   */
  function EffectiveResendCount(u: User, now: Millis): (c: int)
    ensures c != 0 ==> u.lastEmailResendAt.Some? && now - u.lastEmailResendAt.value < RESEND_WINDOW_MS && u.emailResendCount == Some(c)
    ensures u.lastEmailResendAt.Some? && now - u.lastEmailResendAt.value < RESEND_WINDOW_MS ==> c == u.emailResendCount.GetOr(0)
  {
    if u.lastEmailResendAt.None? || now - u.lastEmailResendAt.value >= RESEND_WINDOW_MS then 0
    else u.emailResendCount.GetOr(0)
  }

  /** The account is waiting for its e-mail confirmation (the last two guards of `handleResendEmail`). */
  predicate AwaitsConfirmation(u: User) {
    !u.isEmailVerified && u.status == Pending
  }

  /**
   * The part of handleResendEmail (App.tsx:154-171) after the guards, for the user
   * `u` found in the list and its effective resend count. A quota already used up
   * fails, logs BLOQUEIO_REENVIO_COTA and changes no user. A permitted resend that
   * the mail collaborator delivers sets the count to the effective count plus one
   * (so at most 3) and the last-resend time to now for the users with that id; one
   * it fails to deliver changes no user and logs REENVIO_EMAIL_ERRO with its error.
   * One entry naming `u` is logged in every case.
   */
  function PermittedResend(st: AppState, u: User, count: int, mail: MailResult, now: Millis): (r: Step<ResendReply>)
    ensures r.reply.success <==> r.reply.message.Resent?
    ensures r.state.currentUser == st.currentUser && r.state.session == st.session
    ensures |r.state.auditLogs| == |st.auditLogs| + 1 && r.state.auditLogs[1..] == st.auditLogs
    ensures r.state.auditLogs[0].targetId == Some(u.id)
    ensures |r.state.users| == |st.users|
    ensures count >= RESEND_LIMIT ==>
              && r.reply == ResendReply(false, QuotaReached) && r.state.users == st.users
              && r.state.auditLogs[0] == NewLog(RESEND_QUOTA_BLOCKED, Some(u.id), Some(RESEND_QUOTA_DETAIL), None, st.currentUser, now)
    ensures count < RESEND_LIMIT && mail.success ==>
              && r.reply == ResendReply(true, Resent(u.email))
              && r.state.auditLogs[0] == NewLog(RESEND_SENT, Some(u.id), None, None, st.currentUser, now)
              && (forall j :: 0 <= j < |st.users| && st.users[j].id == u.id ==>
                    r.state.users[j] == st.users[j].(emailResendCount := Some(count + 1), lastEmailResendAt := Some(now)))
              && (forall j :: 0 <= j < |st.users| && st.users[j].id != u.id ==> r.state.users[j] == st.users[j])
              && USERS_KEY in r.state.db && r.state.db[USERS_KEY] == UsersField(r.state.users)
              && InSync(r.state)
    ensures count < RESEND_LIMIT && !mail.success ==>
              && r.reply == ResendReply(false, MailError) && r.state.users == st.users
              && r.state.auditLogs[0] == NewLog(RESEND_FAILED, Some(u.id), mail.error, None, st.currentUser, now)
  {
    if count >= RESEND_LIMIT then
      Step(AddAuditLog(st, RESEND_QUOTA_BLOCKED, Some(u.id), Some(RESEND_QUOTA_DETAIL), None, now),
           ResendReply(false, QuotaReached))
    else if mail.success then
      var patch := NoChange.(emailResendCount := Some(Some(count + 1)), lastEmailResendAt := Some(Some(now)));
      Step(AddAuditLog(SyncUsers(st, UpdateWhereId(st.users, u.id, patch)), RESEND_SENT, Some(u.id), None, None, now),
           ResendReply(true, Resent(u.email)))
    else
      Step(AddAuditLog(st, RESEND_FAILED, Some(u.id), mail.error, None, now), ResendReply(false, MailError))
  }

  /**
   * handleResendEmail (App.tsx:139-172). The three guards (not found, already
   * verified or active, not pending) fail without any change; a pending,
   * unverified user goes on to the quota check with its effective count.
   */
  function Resend(st: AppState, emailOrId: string, mail: MailResult, now: Millis): (r: Step<ResendReply>)
    ensures r.reply.success <==> r.reply.message.Resent?
    ensures |r.state.users| == |st.users|
    ensures FindIndex(st.users, ResendQuery(emailOrId)).None? ==> r == Step(st, ResendReply(false, NotFound))
    ensures FindIndex(st.users, ResendQuery(emailOrId)).Some? ==>
              var u := st.users[FindIndex(st.users, ResendQuery(emailOrId)).value];
              && ((u.isEmailVerified || u.status == Active) ==> r == Step(st, ResendReply(false, AlreadyApproved)))
              && (!u.isEmailVerified && u.status != Active && u.status != Pending ==>
                    r == Step(st, ResendReply(false, InvalidStatus)))
              && (AwaitsConfirmation(u) ==> r == PermittedResend(st, u, EffectiveResendCount(u, now), mail, now))
  {
    match FindIndex(st.users, ResendQuery(emailOrId))
    case None => Step(st, ResendReply(false, NotFound))
    case Some(i) =>
      var u := st.users[i];
      if u.isEmailVerified || u.status == Active then Step(st, ResendReply(false, AlreadyApproved))
      else if u.status != Pending then Step(st, ResendReply(false, InvalidStatus))
      else PermittedResend(st, u, EffectiveResendCount(u, now), mail, now)
  }

  /**
   * handlePasswordResetRequest (App.tsx:174-182): true exactly when some user has
   * both the e-mail and the id given. Then only the users with that id change, to
   * status PENDING_RESET, and one request entry is logged; otherwise nothing changes.
   */
  function PasswordReset(st: AppState, email: string, userId: string, now: Millis): (r: Step<bool>)
    ensures r.reply <==> exists i :: 0 <= i < |st.users| && st.users[i].email == email && st.users[i].id == userId
    ensures !r.reply ==> r.state == st
    ensures r.reply ==>
              && |r.state.users| == |st.users|
              && (forall j :: 0 <= j < |st.users| && st.users[j].id == userId ==>
                    r.state.users[j] == st.users[j].(status := PendingReset))
              && (forall j :: 0 <= j < |st.users| && st.users[j].id != userId ==> r.state.users[j] == st.users[j])
              && |r.state.auditLogs| == |st.auditLogs| + 1 && r.state.auditLogs[1..] == st.auditLogs
              && r.state.auditLogs[0].action == RESET_PREFIX + userId
              && r.state.auditLogs[0].targetId == Some(userId)
              && r.state.auditLogs[0] == NewLog(RESET_PREFIX + userId, Some(userId), None, None, st.currentUser, now)
              && r.state.currentUser == st.currentUser && r.state.session == st.session
              && InSync(r.state)
  {
    match FindIndex(st.users, EmailAndId(email, userId))
    case None => Step(st, false)
    case Some(i) =>
      var id := st.users[i].id;
      var st1 := SyncUsers(st, UpdateWhereId(st.users, id, NoChange.(status := Some(PendingReset))));
      Step(AddAuditLog(st1, RESET_PREFIX + id, Some(id), None, None, now), true)
  }

  /**
   * secureUpdateUser (App.tsx:184-189): the update is spread over every user with
   * that id and over no other user, and one `USER_UPDATE: <id>` entry is always added.
   */
  function SecureUpdateUser(st: AppState, userId: string, updates: UserPatch, now: Millis): (r: AppState)
    ensures |r.users| == |st.users|
    ensures forall j :: 0 <= j < |st.users| && st.users[j].id == userId ==> r.users[j] == Apply(st.users[j], updates)
    ensures forall j :: 0 <= j < |st.users| && st.users[j].id != userId ==> r.users[j] == st.users[j]
    ensures |r.auditLogs| == |st.auditLogs| + 1 && r.auditLogs[1..] == st.auditLogs
    ensures r.auditLogs[0].action == UPDATE_PREFIX + userId && r.auditLogs[0].targetId == Some(userId)
    ensures r.auditLogs[0] == NewLog(UPDATE_PREFIX + userId, Some(userId), None, None, st.currentUser, now)
    ensures r.currentUser == st.currentUser && r.session == st.session
    ensures InSync(r)
  {
    AddAuditLog(SyncUsers(st, UpdateWhereId(st.users, userId, updates)), UPDATE_PREFIX + userId, Some(userId), None, None, now)
  }

  /** The status `onToggleStatus` writes: INACTIVE when the first user with that id is ACTIVE, else ACTIVE. */
  function ToggledStatus(users: seq<User>, id: string): (s: AccountStatus)
    ensures s == Active || s == Inactive
    ensures s == Inactive <==> exists i :: 0 <= i < |users| && users[i].id == id && users[i].status == Active &&
                                (forall j :: 0 <= j < i ==> users[j].id != id)
  {
    match FindIndex(users, ById(id))
    case Some(i) => if users[i].status == Active then Inactive else Active
    case None => Active
  }

  /**
   * The `onToggleStatus` callback (App.tsx:251): the user found by id turns from
   * ACTIVE to INACTIVE or from any other status to ACTIVE, and is marked verified;
   * every later user with the same id takes the same status, every user with
   * another id is unchanged, and one `USER_UPDATE: <id>` entry is added.
   */
  function ToggleStatus(st: AppState, id: string, now: Millis): (r: AppState)
    ensures |r.users| == |st.users|
    ensures FindIndex(st.users, ById(id)).Some? ==>
              var k := FindIndex(st.users, ById(id)).value;
              r.users[k] == st.users[k].(status := if st.users[k].status == Active then Inactive else Active,
                                         isEmailVerified := true)
    ensures forall j :: 0 <= j < |st.users| && st.users[j].id == id ==>
              r.users[j] == st.users[j].(status := ToggledStatus(st.users, id), isEmailVerified := true)
    ensures forall j :: 0 <= j < |st.users| && st.users[j].id != id ==> r.users[j] == st.users[j]
    ensures |r.auditLogs| == |st.auditLogs| + 1 && r.auditLogs[1..] == st.auditLogs
    ensures r.auditLogs[0].action == UPDATE_PREFIX + id && r.auditLogs[0].targetId == Some(id)
    ensures r.auditLogs[0] == NewLog(UPDATE_PREFIX + id, Some(id), None, None, st.currentUser, now)
    ensures r.currentUser == st.currentUser && r.session == st.session
    ensures InSync(r)
  {
    SecureUpdateUser(st, id, NoChange.(status := Some(ToggledStatus(st.users, id)), isEmailVerified := Some(true)), now)
  }

  /**
   * The `onUpdateUserPrivilege` callback (App.tsx:251): the users with that id take
   * the new privilege and keep everything else, and one `USER_UPDATE: <id>` entry is added.
   */
  function UpdatePrivilege(st: AppState, id: string, p: Privilege, now: Millis): (r: AppState)
    ensures |r.users| == |st.users|
    ensures forall j :: 0 <= j < |st.users| && st.users[j].id == id ==> r.users[j] == st.users[j].(privilege := p)
    ensures forall j :: 0 <= j < |st.users| && st.users[j].id != id ==> r.users[j] == st.users[j]
    ensures |r.auditLogs| == |st.auditLogs| + 1 && r.auditLogs[1..] == st.auditLogs
    ensures r.auditLogs[0].action == UPDATE_PREFIX + id && r.auditLogs[0].targetId == Some(id)
    ensures r.auditLogs[0] == NewLog(UPDATE_PREFIX + id, Some(id), None, None, st.currentUser, now)
    ensures r.currentUser == st.currentUser && r.session == st.session
    ensures InSync(r)
  {
    SecureUpdateUser(st, id, NoChange.(privilege := Some(p)), now)
  }
}
