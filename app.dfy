/**
 * The App component (App.tsx) as an object: its state slots and the two storage
 * keys are fields, and each security handler is a method that updates them one
 * after another, as the handler calls `setUsers`, `setAuditLogs`,
 * `setCurrentUser`, `localStorage.setItem` and `removeItem`. Every method is
 * proved to leave exactly the state the corresponding step of `Security` describes.
 */
module AppComponent {
  import opened Wrappers
  import opened Types
  import opened Store
  import opened Users
  import opened Audit
  import opened Security

  class App {
    var users: seq<User>
    var auditLogs: seq<AuditLog>
    var currentUser: Option<User>
    var session: Option<SessionBlob>
    var db: Record

    /** The component state as a value. */
    function State(): AppState
      reads this
    {
      AppState(users, auditLogs, currentUser, session, db)
    }

    /** The component after the database has been loaded: nobody is logged in yet. */
    constructor (loadedUsers: seq<User>, loadedLogs: seq<AuditLog>, storedDb: Record, storedSession: Option<SessionBlob>)
      ensures State() == AppState(loadedUsers, loadedLogs, None, storedSession, storedDb)
    {
      users := loadedUsers;
      auditLogs := loadedLogs;
      currentUser := None;
      session := storedSession;
      db := storedDb;
    }

    /** dbSync (App.tsx:32-37): merge the updates into the stored record. */
    method DbSync(updates: Record)
      modifies this
      ensures State() == old(State()).(db := Merge(old(db), updates))
    {
      db := Merge(db, updates);
    }

    /** addAuditLog (App.tsx:82-96) */
    method AddAuditLog(action: string, targetId: Option<string>, details: Option<string>, actor: Option<User>, now: Millis)
      modifies this
      ensures State() == Security.AddAuditLog(old(State()), action, targetId, details, actor, now)
    {
      var updated := [NewLog(action, targetId, details, actor, currentUser, now)] + auditLogs;
      auditLogs := updated;
      DbSync(map[AUDIT_LOGS_KEY := AuditLogsField(updated)]);
    }

    /** handleLogin (App.tsx:98-106); `issued` is the session `createSession(user.id)` returns. */
    method HandleLogin(user: User, issued: UserSession, now: Millis)
      modifies this
      ensures State() == Security.Login(old(State()), user, issued, now)
    {
      session := Some(Stored(issued));
      var updated := UpdateWhereId(users, user.id, ClearLockout);
      users := updated;
      DbSync(map[USERS_KEY := UsersField(updated)]);
      currentUser := Some(user);
      AddAuditLog(LOGIN_SUCCESS, Some(user.id), None, Some(user), now);
    }

    /** handleLogout (App.tsx:108-114) with an explicit reason. */
    method HandleLogout(reason: string, now: Millis)
      modifies this
      ensures State() == Security.Logout(old(State()), reason, now)
    {
      var loggedIn := currentUser;
      session := None;
      currentUser := None;
      if loggedIn.Some? {
        // The handler's closure still holds the user who was current, and logs them as actor.
        AddAuditLog(LOGOUT_PREFIX + reason, Some(loggedIn.value.id), None, loggedIn, now);
      }
    }

    /** The header's logout button (App.tsx:221): `handleLogout()` with its default reason. */
    method HandleManualLogout(now: Millis)
      modifies this
      ensures State() == Security.Logout(old(State()), MANUAL_LOGOUT, now)
    {
      HandleLogout(MANUAL_LOGOUT, now);
    }

    /** checkSessionSecurity (App.tsx:54-77) */
    method CheckSessionSecurity(now: Millis)
      modifies this
      ensures State() == Security.CheckSession(old(State()), now)
    {
      match session
      case None =>
        currentUser := None;
      case Some(Malformed) =>
        session := None;
      case Some(Stored(s)) =>
        if now > s.expiresAt {
          HandleLogout(SESSION_EXPIRED, now);
        } else {
          var found := FindIndex(users, ById(s.userId));
          if found.Some? {
            var user := users[found.value];
            if user.status == Active || user.role == AdminPrincipal {
              currentUser := Some(user);
            } else {
              HandleLogout(ACCOUNT_NOT_ACTIVE, now);
            }
          }
        }
    }

    /** The `onFailedAttempt` callback (App.tsx:199-209) */
    method OnFailedAttempt(identifier: string, now: Millis)
      modifies this
      ensures State() == Security.FailedAttempt(old(State()), identifier, now)
    {
      var found := FindIndex(users, LoginQuery(identifier));
      if found.Some? {
        ChargeFailure(found.value, now);
      }
    }

    /** The body of `if (u) { ... }` in the `onFailedAttempt` callback (App.tsx:202-207), for `u = users[i]`. */
    method ChargeFailure(i: nat, now: Millis)
      requires i < |users|
      modifies this
      ensures State() == RecordFailure(old(State()), i, now)
    {
      var u := users[i];
      var newAttempts := u.loginAttempts + 1;
      var updates := NoChange.(loginAttempts := Some(newAttempts));
      if newAttempts >= MAX_LOGIN_ATTEMPTS {
        updates := updates.(lockedUntil := Some(Some(now + LOCKOUT_MS)));
      }
      assert updates == FailurePatch(newAttempts, now);
      var updated := UpdateWhereId(users, u.id, updates);
      users := updated;
      DbSync(map[USERS_KEY := UsersField(updated)]);
    }

    /** handleRegister (App.tsx:116-137); `mail` is what `sendConfirmationEmail` reports when it is called. */
    method HandleRegister(candidate: User, mail: MailResult, now: Millis) returns (success: bool, emailSent: bool)
      modifies this
      ensures State() == Security.Register(old(State()), candidate, mail, now).state
      ensures RegisterReply(success, emailSent) == Security.Register(old(State()), candidate, mail, now).reply
    {
      var isFirstRegistration := |users| == 0;
      var finalUser := Admitted(candidate, isFirstRegistration);
      var updated := users + [finalUser];
      users := updated;
      DbSync(map[USERS_KEY := UsersField(updated)]);
      emailSent := true;
      if !isFirstRegistration {
        emailSent := mail.success;
        AddAuditLog(if emailSent then SIGNUP_MAIL_SENT else SIGNUP_MAIL_FAILED, Some(finalUser.id), mail.error, None, now);
      }
      success := true;
    }

    /** handleResendEmail (App.tsx:139-172); `mail` is what `resendConfirmationEmail` reports when it is called. */
    method HandleResendEmail(emailOrId: string, mail: MailResult, now: Millis) returns (success: bool, message: ResendMessage)
      modifies this
      ensures State() == Security.Resend(old(State()), emailOrId, mail, now).state
      ensures ResendReply(success, message) == Security.Resend(old(State()), emailOrId, mail, now).reply
    {
      var found := FindIndex(users, ResendQuery(emailOrId));
      if found.None? {
        return false, NotFound;
      }
      var user := users[found.value];
      if user.isEmailVerified || user.status == Active {
        return false, AlreadyApproved;
      }
      if user.status != Pending {
        return false, InvalidStatus;
      }
      var currentCount := user.emailResendCount.GetOr(0);
      if user.lastEmailResendAt.None? || now - user.lastEmailResendAt.value >= RESEND_WINDOW_MS {
        currentCount := 0;
      }
      assert currentCount == EffectiveResendCount(user, now);
      success, message := ResendWithinQuota(user, currentCount, mail, now);
    }

    /** The rest of handleResendEmail (App.tsx:154-171), for the user found and its effective count. */
    method ResendWithinQuota(user: User, currentCount: int, mail: MailResult, now: Millis) returns (success: bool, message: ResendMessage)
      modifies this
      ensures State() == PermittedResend(old(State()), user, currentCount, mail, now).state
      ensures ResendReply(success, message) == PermittedResend(old(State()), user, currentCount, mail, now).reply
    {
      if currentCount >= RESEND_LIMIT {
        AddAuditLog(RESEND_QUOTA_BLOCKED, Some(user.id), Some(RESEND_QUOTA_DETAIL), None, now);
        return false, QuotaReached;
      }
      if mail.success {
        var updated := UpdateWhereId(users, user.id,
          NoChange.(emailResendCount := Some(Some(currentCount + 1)), lastEmailResendAt := Some(Some(now))));
        users := updated;
        DbSync(map[USERS_KEY := UsersField(updated)]);
        AddAuditLog(RESEND_SENT, Some(user.id), None, None, now);
        return true, Resent(user.email);
      } else {
        AddAuditLog(RESEND_FAILED, Some(user.id), mail.error, None, now);
        return false, MailError;
      }
    }

    /** handlePasswordResetRequest (App.tsx:174-182) */
    method HandlePasswordResetRequest(email: string, userId: string, now: Millis) returns (ok: bool)
      modifies this
      ensures State() == Security.PasswordReset(old(State()), email, userId, now).state
      ensures ok == Security.PasswordReset(old(State()), email, userId, now).reply
    {
      var found := FindIndex(users, EmailAndId(email, userId));
      if found.None? {
        return false;
      }
      var id := users[found.value].id;
      var updated := UpdateWhereId(users, id, NoChange.(status := Some(PendingReset)));
      users := updated;
      DbSync(map[USERS_KEY := UsersField(updated)]);
      AddAuditLog(RESET_PREFIX + id, Some(id), None, None, now);
      ok := true;
    }

    /** secureUpdateUser (App.tsx:184-189) */
    method SecureUpdateUser(userId: string, updates: UserPatch, now: Millis)
      modifies this
      ensures State() == Security.SecureUpdateUser(old(State()), userId, updates, now)
    {
      var updated := UpdateWhereId(users, userId, updates);
      users := updated;
      DbSync(map[USERS_KEY := UsersField(updated)]);
      AddAuditLog(UPDATE_PREFIX + userId, Some(userId), None, None, now);
    }

    /** The `onToggleStatus` callback (App.tsx:251) */
    method OnToggleStatus(id: string, now: Millis)
      modifies this
      ensures State() == Security.ToggleStatus(old(State()), id, now)
    {
      var found := FindIndex(users, ById(id));
      var status := if found.Some? && users[found.value].status == Active then Inactive else Active;
      SecureUpdateUser(id, NoChange.(status := Some(status), isEmailVerified := Some(true)), now);
    }

    /** The `onUpdateUserPrivilege` callback (App.tsx:251) */
    method OnUpdateUserPrivilege(id: string, p: Privilege, now: Millis)
      modifies this
      ensures State() == Security.UpdatePrivilege(old(State()), id, p, now)
    {
      SecureUpdateUser(id, NoChange.(privilege := Some(p)), now);
    }
  }
}
