/**
 * Properties of the account-security core that relate several handler steps,
 * and invariants every handler keeps.
 */
module Properties {
  import opened Wrappers
  import opened Types
  import opened Store
  import opened Users
  import opened Security

  // ---------------------------------------------------------------------------
  // Sessions
  // ---------------------------------------------------------------------------

  /**
   * A login followed, before the session expires, by a run of the gate: the user the
   * session names is found again and becomes current, in the form the login left
   * them in (counter 0, no lock), provided they are active or the principal.
   */
  lemma LoginThenResume(st: AppState, user: User, issued: UserSession, t: Millis, now: Millis, i: nat)
    requires issued.userId == user.id && now <= issued.expiresAt
    requires FindIndex(st.users, ById(user.id)) == Some(i) && MayResume(st.users[i])
    ensures CheckSession(Login(st, user, issued, t), now).currentUser
              == Some(st.users[i].(loginAttempts := 0, lockedUntil := None))
    ensures CheckSession(Login(st, user, issued, t), now).session == Some(Stored(issued))
  {
    var st1 := Login(st, user, issued, t);
    assert st1.users == UpdateWhereId(st.users, user.id, ClearLockout);
    UpdateKeepsFind(st.users, user.id, ClearLockout, ById(user.id));
  }

  /**
   * A login of a user the gate does not admit (not ACTIVE and not the principal)
   * is undone by the gate's next run: the session and the current user are
   * cleared, and the refusal is logged after the login.
   */
  lemma LoginRefusedByGate(st: AppState, user: User, issued: UserSession, t: Millis, now: Millis, i: nat)
    requires issued.userId == user.id && now <= issued.expiresAt
    requires FindIndex(st.users, ById(user.id)) == Some(i) && !MayResume(st.users[i])
    ensures var r := CheckSession(Login(st, user, issued, t), now);
              && r.session.None? && r.currentUser.None?
              && |r.auditLogs| >= 2
              && r.auditLogs[0].action == LOGOUT_PREFIX + ACCOUNT_NOT_ACTIVE
              && r.auditLogs[1].action == LOGIN_SUCCESS
  {
    var st1 := Login(st, user, issued, t);
    assert st1.users == UpdateWhereId(st.users, user.id, ClearLockout);
    UpdateKeepsFind(st.users, user.id, ClearLockout, ById(user.id));
    var r := CheckSession(st1, now);
    assert r.auditLogs[1..] == st1.auditLogs;
  }

  /** A gate run after the expiry instant ends the session a login issued, and logs the logout after the login. */
  lemma LoginThenResumeAfterExpiry(st: AppState, user: User, issued: UserSession, t: Millis, now: Millis)
    requires now > issued.expiresAt
    ensures var r := CheckSession(Login(st, user, issued, t), now);
              && r.session.None? && r.currentUser.None?
              && |r.auditLogs| == |st.auditLogs| + 2 && r.auditLogs[2..] == st.auditLogs
              && r.auditLogs[0].action == LOGOUT_PREFIX + SESSION_EXPIRED
              && r.auditLogs[1].action == LOGIN_SUCCESS
  {
    var st1 := Login(st, user, issued, t);
    var r := CheckSession(st1, now);
    assert r.auditLogs[1..] == st1.auditLogs;
    assert r.auditLogs[2..] == st1.auditLogs[1..];
  }

  /**
   * Nobody is let in without a valid session: when the gate makes someone current
   * who was not current before, a readable session that has not expired names
   * them, they are in the user list, and they are active or the principal.
   */
  lemma ResumeAdmitsOnlyBoundUser(st: AppState, now: Millis)
    requires CheckSession(st, now).currentUser.Some?
    requires CheckSession(st, now).currentUser != st.currentUser
    ensures st.session.Some? && st.session.value.Stored?
    ensures now <= st.session.value.session.expiresAt
    ensures var u := CheckSession(st, now).currentUser.value;
              u in st.users && u.id == st.session.value.session.userId && MayResume(u)
  {
    var k := FindIndex(st.users, ById(st.session.value.session.userId));
    assert k.Some?;
    assert CheckSession(st, now).currentUser.value == st.users[k.value];
  }

  /** The expiry test is strict: a session is still accepted at the very millisecond it expires. */
  lemma SessionValidAtExpiryInstant(st: AppState, s: UserSession, i: nat)
    requires st.session == Some(Stored(s))
    requires FindIndex(st.users, ById(s.userId)) == Some(i) && st.users[i].status == Active
    ensures CheckSession(st, s.expiresAt).currentUser == Some(st.users[i])
    ensures CheckSession(st, s.expiresAt).session == st.session
  {
  }

  // ---------------------------------------------------------------------------
  // Failed logins
  // ---------------------------------------------------------------------------

  /** The failed-login callback run once for each clock reading in `times`, in order. */
  function FailedAttempts(st: AppState, identifier: string, times: seq<Millis>): (r: AppState)
    ensures |r.users| == |st.users| && r.auditLogs == st.auditLogs
    decreases |times|
  {
    if times == [] then st
    else FailedAttempts(FailedAttempt(st, identifier, times[0]), identifier, times[1..])
  }

  /** Recording a failure keeps ids and e-mails, so the identifier finds the same user afterwards. */
  lemma FailureKeepsLookup(st: AppState, identifier: string, now: Millis, i: nat)
    requires FindIndex(st.users, LoginQuery(identifier)) == Some(i)
    ensures var r := FailedAttempt(st, identifier, now);
              && FindIndex(r.users, LoginQuery(identifier)) == Some(i)
              && r.users[i] == st.users[i].(loginAttempts := st.users[i].loginAttempts + 1,
                   lockedUntil := if st.users[i].loginAttempts + 1 >= MAX_LOGIN_ATTEMPTS then Some(now + LOCKOUT_MS)
                                  else st.users[i].lockedUntil)
  {
    RecordFailureKeepsFind(st, i, now, LoginQuery(identifier));
  }

  /** Charging a failure changes no lookup key, so every lookup finds what it found before. */
  lemma RecordFailureKeepsFind(st: AppState, i: nat, now: Millis, q: Query)
    requires i < |st.users|
    ensures FindIndex(RecordFailure(st, i, now).users, q) == FindIndex(st.users, q)
  {
    RecordFailureWrites(st, i, now);
    UpdateKeepsFind(st.users, st.users[i].id, FailurePatch(st.users[i].loginAttempts + 1, now), q);
  }

  /** Proof step: the state a failure charged to `st.users[i]` leaves, unfolded to the `users.map` update written back. */
  lemma RecordFailureWrites(st: AppState, i: nat, now: Millis)
    requires i < |st.users|
    ensures RecordFailure(st, i, now)
              == SyncUsers(st, UpdateWhereId(st.users, st.users[i].id, FailurePatch(st.users[i].loginAttempts + 1, now)))
  {
  }

  /**
   * Where the lock of an account with `attempts` failures and lock `lock` stands
   * after failures at `times`: 15 minutes after the last one when the counter has
   * reached 5, otherwise where it was.
   */
  function LockAfter(attempts: int, lock: Option<Millis>, times: seq<Millis>): Option<Millis> {
    if |times| > 0 && attempts + |times| >= MAX_LOGIN_ATTEMPTS then Some(times[|times| - 1] + LOCKOUT_MS) else lock
  }

  /** One failure, in the terms of `LockAfter`. */
  lemma FailureStep(st: AppState, identifier: string, now: Millis, i: nat)
    requires FindIndex(st.users, LoginQuery(identifier)) == Some(i)
    ensures var r := FailedAttempt(st, identifier, now);
              && FindIndex(r.users, LoginQuery(identifier)) == Some(i)
              && r.users[i].loginAttempts == st.users[i].loginAttempts + 1
              && r.users[i].lockedUntil == LockAfter(st.users[i].loginAttempts, st.users[i].lockedUntil, [now])
  {
    FailureKeepsLookup(st, identifier, now, i);
  }

  /** One failure followed by the rest is the same as all of them, for the lock. */
  lemma LockAfterCons(attempts: int, lock: Option<Millis>, times: seq<Millis>)
    requires times != []
    ensures LockAfter(attempts + 1, LockAfter(attempts, lock, [times[0]]), times[1..]) == LockAfter(attempts, lock, times)
  {
    if |times| > 1 {
      assert times[1..][|times[1..]| - 1] == times[|times| - 1];
    }
  }

  /**
   * After a run of failures against one identifier, its user's counter has risen
   * by the number of failures, and the account is locked until 15 minutes after
   * the last failure exactly when the counter ended at 5 or more; otherwise the
   * lock is as it was.
   */
  lemma {:induction false} RepeatedFailures(st: AppState, identifier: string, times: seq<Millis>, i: nat)
    requires FindIndex(st.users, LoginQuery(identifier)) == Some(i)
    ensures var r := FailedAttempts(st, identifier, times);
              && FindIndex(r.users, LoginQuery(identifier)) == Some(i)
              && r.users[i].loginAttempts == st.users[i].loginAttempts + |times|
              && r.users[i].lockedUntil == LockAfter(st.users[i].loginAttempts, st.users[i].lockedUntil, times)
    decreases |times|
  {
    if times != [] {
      var u := st.users[i];
      var st1 := FailedAttempt(st, identifier, times[0]);
      FailureStep(st, identifier, times[0], i);
      RepeatedFailures(st1, identifier, times[1..], i);
      LockAfterCons(u.loginAttempts, u.lockedUntil, times);
      assert FailedAttempts(st, identifier, times) == FailedAttempts(st1, identifier, times[1..]);
    }
  }

  /**
   * From a clean slate, five failures lock the account until 15 minutes after the
   * fifth, and fewer than five leave it unlocked.
   */
  lemma FiveFailuresLock(st: AppState, identifier: string, times: seq<Millis>, i: nat)
    requires FindIndex(st.users, LoginQuery(identifier)) == Some(i)
    requires st.users[i].loginAttempts == 0 && st.users[i].lockedUntil.None?
    requires |times| <= MAX_LOGIN_ATTEMPTS
    ensures var r := FailedAttempts(st, identifier, times);
              && (|times| == MAX_LOGIN_ATTEMPTS ==> r.users[i].lockedUntil == Some(times[|times| - 1] + LOCKOUT_MS))
              && (|times| < MAX_LOGIN_ATTEMPTS ==> r.users[i].lockedUntil.None?)
  {
    RepeatedFailures(st, identifier, times, i);
  }

  // ---------------------------------------------------------------------------
  // Resending the confirmation e-mail
  // ---------------------------------------------------------------------------

  /** Proof step: past the guards, the resend handler unfolds to the quota check on the user found, with its effective count. */
  lemma ResendPermitted(st: AppState, target: string, mail: MailResult, now: Millis, i: nat)
    requires FindIndex(st.users, ResendQuery(target)) == Some(i) && AwaitsConfirmation(st.users[i])
    ensures Resend(st, target, mail, now) == PermittedResend(st, st.users[i], EffectiveResendCount(st.users[i], now), mail, now)
  {
  }

  /** A delivered resend keeps the lookup, counts one more resend and leaves the account waiting for confirmation. */
  lemma ResendDelivered(st: AppState, target: string, mail: MailResult, now: Millis, i: nat)
    requires mail.success
    requires FindIndex(st.users, ResendQuery(target)) == Some(i) && AwaitsConfirmation(st.users[i])
    requires EffectiveResendCount(st.users[i], now) < RESEND_LIMIT
    ensures var r := Resend(st, target, mail, now);
              && r.reply.success
              && FindIndex(r.state.users, ResendQuery(target)) == Some(i)
              && r.state.users[i] == st.users[i].(emailResendCount := Some(EffectiveResendCount(st.users[i], now) + 1),
                                                  lastEmailResendAt := Some(now))
              && AwaitsConfirmation(r.state.users[i])
  {
    ResendPermitted(st, target, mail, now, i);
    PermittedResendKeepsFind(st, st.users[i], EffectiveResendCount(st.users[i], now), mail, now, ResendQuery(target));
  }

  /** A resend changes no lookup key, so every lookup finds what it found before. */
  lemma PermittedResendKeepsFind(st: AppState, u: User, count: int, mail: MailResult, now: Millis, q: Query)
    ensures FindIndex(PermittedResend(st, u, count, mail, now).state.users, q) == FindIndex(st.users, q)
  {
    if count < RESEND_LIMIT && mail.success {
      DeliveredResendWrites(st, u, count, mail, now);
      UpdateKeepsFind(st.users, u.id, NoChange.(emailResendCount := Some(Some(count + 1)), lastEmailResendAt := Some(Some(now))), q);
    }
  }

  /** Proof step: the user list a delivered, permitted resend leaves, unfolded to the `users.map` update. */
  lemma DeliveredResendWrites(st: AppState, u: User, count: int, mail: MailResult, now: Millis)
    requires count < RESEND_LIMIT && mail.success
    ensures PermittedResend(st, u, count, mail, now).state.users
              == UpdateWhereId(st.users, u.id, NoChange.(emailResendCount := Some(Some(count + 1)), lastEmailResendAt := Some(Some(now))))
  {
  }

  /** A request for an account whose quota is used up is refused, changes no user and is logged as blocked. */
  lemma ResendRefused(st: AppState, target: string, mail: MailResult, now: Millis, i: nat)
    requires FindIndex(st.users, ResendQuery(target)) == Some(i) && AwaitsConfirmation(st.users[i])
    requires EffectiveResendCount(st.users[i], now) >= RESEND_LIMIT
    ensures var r := Resend(st, target, mail, now);
              && r.reply == ResendReply(false, QuotaReached)
              && r.state.users == st.users
              && |r.state.auditLogs| == |st.auditLogs| + 1 && r.state.auditLogs[1..] == st.auditLogs
              && r.state.auditLogs[0].action == RESEND_QUOTA_BLOCKED
              && r.state.auditLogs[0].targetId == Some(st.users[i].id)
  {
    ResendPermitted(st, target, mail, now, i);
  }

  /**
   * A delivered resend less than 24 hours after the previous one, to an account
   * that has used `n` of its 3 resends: it gets the e-mail again and has used `n + 1`.
   */
  lemma ResendWithinWindow(st: AppState, target: string, mail: MailResult, now: Millis, i: nat, n: nat, last: Millis)
    requires mail.success && n < RESEND_LIMIT
    requires FindIndex(st.users, ResendQuery(target)) == Some(i) && AwaitsConfirmation(st.users[i])
    requires st.users[i].emailResendCount == Some(n) && st.users[i].lastEmailResendAt == Some(last)
    requires now - last < RESEND_WINDOW_MS
    ensures var r := Resend(st, target, mail, now);
              && r.reply.success
              && FindIndex(r.state.users, ResendQuery(target)) == Some(i) && AwaitsConfirmation(r.state.users[i])
              && r.state.users[i].emailResendCount == Some(n + 1) && r.state.users[i].lastEmailResendAt == Some(now)
  {
    ResendPermitted(st, target, mail, now, i);
    assert EffectiveResendCount(st.users[i], now) == n;
    ResendDelivered(st, target, mail, now, i);
  }

  /**
   * Three delivered resends, each less than 24 hours after the one before, to an
   * account that never had one: all three succeed and the account has used its quota.
   */
  lemma ThreeResends(st: AppState, target: string, mail: MailResult, t1: Millis, t2: Millis, t3: Millis, i: nat)
    requires mail.success
    requires FindIndex(st.users, ResendQuery(target)) == Some(i) && AwaitsConfirmation(st.users[i])
    requires st.users[i].lastEmailResendAt.None?
    requires t2 - t1 < RESEND_WINDOW_MS && t3 - t2 < RESEND_WINDOW_MS
    ensures var s1 := Resend(st, target, mail, t1);
            var s2 := Resend(s1.state, target, mail, t2);
            var s3 := Resend(s2.state, target, mail, t3);
              && s1.reply.success && s2.reply.success && s3.reply.success
              && FindIndex(s3.state.users, ResendQuery(target)) == Some(i) && AwaitsConfirmation(s3.state.users[i])
              && s3.state.users[i].emailResendCount == Some(3) && s3.state.users[i].lastEmailResendAt == Some(t3)
  {
    ResendPermitted(st, target, mail, t1, i);
    ResendDelivered(st, target, mail, t1, i);
    var s1 := Resend(st, target, mail, t1).state;
    ResendWithinWindow(s1, target, mail, t2, i, 1, t1);
    var s2 := Resend(s1, target, mail, t2).state;
    ResendWithinWindow(s2, target, mail, t3, i, 2, t2);
  }

  /**
   * An account that has used its 3 resends, the last less than 24 hours ago (as
   * `ThreeResends` leaves it), is refused a fourth, with no user changed and the
   * refusal logged.
   */
  lemma QuotaExhausted(st: AppState, target: string, mail: MailResult, now: Millis, i: nat, last: Millis)
    requires FindIndex(st.users, ResendQuery(target)) == Some(i) && AwaitsConfirmation(st.users[i])
    requires st.users[i].emailResendCount == Some(RESEND_LIMIT) && st.users[i].lastEmailResendAt == Some(last)
    requires now - last < RESEND_WINDOW_MS
    ensures var r := Resend(st, target, mail, now);
              && r.reply == ResendReply(false, QuotaReached)
              && r.state.users == st.users
              && |r.state.auditLogs| == |st.auditLogs| + 1 && r.state.auditLogs[1..] == st.auditLogs
              && r.state.auditLogs[0].action == RESEND_QUOTA_BLOCKED
  {
    ResendPermitted(st, target, mail, now, i);
    assert EffectiveResendCount(st.users[i], now) == RESEND_LIMIT;
    ResendRefused(st, target, mail, now, i);
  }

  /**
   * A request more than a day after the last resend restarts the count: a user
   * who had used up the quota gets the e-mail again and a count of 1.
   */
  lemma QuietDayRestoresQuota(st: AppState, target: string, mail: MailResult, now: Millis, i: nat)
    requires mail.success
    requires FindIndex(st.users, ResendQuery(target)) == Some(i) && AwaitsConfirmation(st.users[i])
    requires st.users[i].emailResendCount == Some(RESEND_LIMIT)
    requires st.users[i].lastEmailResendAt.Some? && now - st.users[i].lastEmailResendAt.value >= RESEND_WINDOW_MS
    ensures Resend(st, target, mail, now).reply.success
    ensures Resend(st, target, mail, now).state.users[i].emailResendCount == Some(1)
    ensures Resend(st, target, mail, now).state.users[i].lastEmailResendAt == Some(now)
  {
    ResendPermitted(st, target, mail, now, i);
    assert EffectiveResendCount(st.users[i], now) == 0;
    ResendDelivered(st, target, mail, now, i);
  }

  /** A permitted resend writes a count of at most 3, whatever count it is given. */
  lemma PermittedCountBounded(st: AppState, u: User, count: int, mail: MailResult, now: Millis)
    ensures var r := PermittedResend(st, u, count, mail, now).state;
              |r.users| == |st.users| &&
              forall j :: 0 <= j < |r.users| && r.users[j].emailResendCount != st.users[j].emailResendCount ==>
                r.users[j].emailResendCount.Some? && r.users[j].emailResendCount.value <= RESEND_LIMIT
  {
  }

  /** A resend never raises a stored count above the limit of 3. */
  lemma ResendCountBounded(st: AppState, target: string, mail: MailResult, now: Millis)
    ensures var r := Resend(st, target, mail, now).state;
              |r.users| == |st.users| &&
              forall j :: 0 <= j < |r.users| && r.users[j].emailResendCount != st.users[j].emailResendCount ==>
                r.users[j].emailResendCount.Some? && r.users[j].emailResendCount.value <= RESEND_LIMIT
  {
    var found := FindIndex(st.users, ResendQuery(target));
    if found.Some? && AwaitsConfirmation(st.users[found.value]) {
      var u := st.users[found.value];
      ResendPermitted(st, target, mail, now, found.value);
      PermittedCountBounded(st, u, EffectiveResendCount(u, now), mail, now);
    }
  }

  // ---------------------------------------------------------------------------
  // Invariants every handler keeps
  // ---------------------------------------------------------------------------

  /** Appending to a list with at most one principal an entry that is not principal keeps it so. */
  lemma AppendKeepsPrincipalUnique(users: seq<User>, u: User)
    requires AtMostOnePrincipal(users) && (u.role == AdminPrincipal ==> users == [])
    ensures AtMostOnePrincipal(users + [u])
  {
    var r := users + [u];
    forall i, j | 0 <= i < |r| && 0 <= j < |r| && r[i].role == AdminPrincipal && r[j].role == AdminPrincipal
      ensures i == j
    {
      if i < |users| && j < |users| {
        assert users[i] == r[i] && users[j] == r[j];
      }
    }
  }

  /** The new log is the old one with at most one entry in front of it. */
  ghost predicate Prepended(before: seq<AuditLog>, after: seq<AuditLog>) {
    |before| <= |after| <= |before| + 1 && after[|after| - |before|..] == before
  }

  /**
   * What every handler keeps: the audit log is append-only (old entries unchanged
   * and in order, at most one new one in front), a persisted record that mirrored
   * the user list and log still does, every other key of the persisted record
   * (designations, programs, messages, isChatActive) keeps its value, and at most
   * one user stays principal.
   */
  ghost predicate Keeps(before: AppState, after: AppState) {
    && Prepended(before.auditLogs, after.auditLogs)
    && (InSync(before) ==> InSync(after))
    && OthersKept(before.db, after.db)
    && (AtMostOnePrincipal(before.users) ==> AtMostOnePrincipal(after.users))
  }

  /** Every stored key other than the users and the log keeps its value. */
  ghost predicate OthersKept(before: Record, after: Record) {
    forall k :: k in before && k != USERS_KEY && k != AUDIT_LOGS_KEY ==> k in after && after[k] == before[k]
  }

  lemma LoginKeeps(st: AppState, user: User, issued: UserSession, now: Millis)
    ensures Keeps(st, Login(st, user, issued, now))
  {
    if AtMostOnePrincipal(st.users) {
      UpdateKeepsPrincipalUnique(st.users, user.id, ClearLockout);
    }
  }

  lemma LogoutKeeps(st: AppState, reason: string, now: Millis)
    ensures Keeps(st, Logout(st, reason, now))
  {
  }

  lemma CheckSessionKeeps(st: AppState, now: Millis)
    ensures Keeps(st, CheckSession(st, now))
  {
    LogoutKeeps(st, SESSION_EXPIRED, now);
    LogoutKeeps(st, ACCOUNT_NOT_ACTIVE, now);
  }

  lemma FailedAttemptKeeps(st: AppState, identifier: string, now: Millis)
    ensures Keeps(st, FailedAttempt(st, identifier, now))
  {
    var found := FindIndex(st.users, LoginQuery(identifier));
    if found.Some? {
      RecordFailureKeeps(st, found.value, now);
    }
  }

  /** Charging a failure keeps the invariants. */
  lemma RecordFailureKeeps(st: AppState, i: nat, now: Millis)
    requires i < |st.users|
    ensures Keeps(st, RecordFailure(st, i, now))
  {
    var u := st.users[i];
    var updated := UpdateWhereId(st.users, u.id, FailurePatch(u.loginAttempts + 1, now));
    RecordFailureWrites(st, i, now);
    UpdateKeepsPrincipalUnique(st.users, u.id, FailurePatch(u.loginAttempts + 1, now));
    SyncKeeps(st, updated);
  }

  /** Writing back a new user list keeps the invariants when it keeps the principal unique. */
  lemma SyncKeeps(st: AppState, updated: seq<User>)
    requires AtMostOnePrincipal(st.users) ==> AtMostOnePrincipal(updated)
    ensures Keeps(st, SyncUsers(st, updated))
  {
    assert SyncUsers(st, updated).auditLogs[|st.auditLogs| - |st.auditLogs|..] == st.auditLogs;
  }

  /** Writing back a new user list and then logging one entry keeps the invariants when the list keeps the principal unique. */
  lemma SyncThenLogKeeps(st: AppState, updated: seq<User>, action: string, targetId: Option<string>,
                         details: Option<string>, actor: Option<User>, now: Millis)
    requires AtMostOnePrincipal(st.users) ==> AtMostOnePrincipal(updated)
    ensures Keeps(st, AddAuditLog(SyncUsers(st, updated), action, targetId, details, actor, now))
  {
    var r := AddAuditLog(SyncUsers(st, updated), action, targetId, details, actor, now);
    assert r.auditLogs[|r.auditLogs| - |st.auditLogs|..] == r.auditLogs[1..];
  }

  /** Registration makes a principal only of the first registrant, into an empty list. */
  lemma RegisterKeeps(st: AppState, candidate: User, mail: MailResult, now: Millis)
    ensures Keeps(st, Register(st, candidate, mail, now).state)
  {
    var u := Admitted(candidate, |st.users| == 0);
    assert Register(st, candidate, mail, now).state.users == st.users + [u];
    if AtMostOnePrincipal(st.users) {
      AppendKeepsPrincipalUnique(st.users, u);
    }
  }

  lemma ResendKeeps(st: AppState, target: string, mail: MailResult, now: Millis)
    ensures Keeps(st, Resend(st, target, mail, now).state)
  {
    var found := FindIndex(st.users, ResendQuery(target));
    if found.Some? && AwaitsConfirmation(st.users[found.value]) {
      var u := st.users[found.value];
      ResendPermitted(st, target, mail, now, found.value);
      PermittedResendKeeps(st, u, EffectiveResendCount(u, now), mail, now);
    }
  }

  /** The quota check keeps the invariants for any user and count. */
  lemma PermittedResendKeeps(st: AppState, u: User, count: int, mail: MailResult, now: Millis)
    ensures Keeps(st, PermittedResend(st, u, count, mail, now).state)
  {
    if count < RESEND_LIMIT && mail.success {
      DeliveredResendWrites(st, u, count, mail, now);
      if AtMostOnePrincipal(st.users) {
        UpdateKeepsPrincipalUnique(st.users, u.id,
          NoChange.(emailResendCount := Some(Some(count + 1)), lastEmailResendAt := Some(Some(now))));
      }
    }
  }

  lemma PasswordResetKeeps(st: AppState, email: string, userId: string, now: Millis)
    ensures Keeps(st, PasswordReset(st, email, userId, now).state)
  {
    var found := FindIndex(st.users, EmailAndId(email, userId));
    if found.Some? {
      var p := NoChange.(status := Some(PendingReset));
      PasswordResetWrites(st, email, userId, now, found.value);
      if AtMostOnePrincipal(st.users) {
        UpdateKeepsPrincipalUnique(st.users, userId, p);
      }
      SyncThenLogKeeps(st, UpdateWhereId(st.users, userId, p), RESET_PREFIX + userId, Some(userId), None, None, now);
    }
  }

  /** Proof step: the state a granted reset request leaves, unfolded to the list written back and the entry logged. */
  lemma PasswordResetWrites(st: AppState, email: string, userId: string, now: Millis, i: nat)
    requires FindIndex(st.users, EmailAndId(email, userId)) == Some(i)
    ensures PasswordReset(st, email, userId, now).state
              == AddAuditLog(SyncUsers(st, UpdateWhereId(st.users, userId, NoChange.(status := Some(PendingReset)))),
                             RESET_PREFIX + userId, Some(userId), None, None, now)
  {
  }

  /** A generic update keeps the principal unique when it leaves the role alone. */
  lemma SecureUpdateUserKeeps(st: AppState, userId: string, updates: UserPatch, now: Millis)
    requires updates.role.None?
    ensures Keeps(st, SecureUpdateUser(st, userId, updates, now))
  {
    if AtMostOnePrincipal(st.users) {
      UpdateKeepsPrincipalUnique(st.users, userId, updates);
    }
  }

  /**
   * `secureUpdateUser` itself accepts any partial user, so a patch that makes a
   * second user principal administrator leaves two of them.
   */
  lemma RolePatchBreaksPrincipalUnique(st: AppState, userId: string, updates: UserPatch, now: Millis, i: nat, j: nat)
    requires i < |st.users| && j < |st.users|
    requires st.users[i].role == AdminPrincipal && st.users[i].id != userId && st.users[j].id == userId
    requires updates.role == Some(AdminPrincipal)
    ensures !AtMostOnePrincipal(SecureUpdateUser(st, userId, updates, now).users)
  {
    var r := SecureUpdateUser(st, userId, updates, now).users;
    assert r[i].role == AdminPrincipal && r[j].role == AdminPrincipal;
  }

  lemma ToggleStatusKeeps(st: AppState, id: string, now: Millis)
    ensures Keeps(st, ToggleStatus(st, id, now))
  {
    SecureUpdateUserKeeps(st, id, NoChange.(status := Some(ToggledStatus(st.users, id)), isEmailVerified := Some(true)), now);
  }

  lemma UpdatePrivilegeKeeps(st: AppState, id: string, p: Privilege, now: Millis)
    ensures Keeps(st, UpdatePrivilege(st, id, p, now))
  {
    SecureUpdateUserKeeps(st, id, NoChange.(privilege := Some(p)), now);
  }
}
