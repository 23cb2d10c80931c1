# Account security of the congregation app, in Dafny

This project models the account-security state machine of the `App` component
(`App.tsx`) of a congregation management app. The component keeps a list of
users, an audit trail and two browser-storage blobs: the database record and
the current session. A handful of handlers turn these into new ones:

- logging in;
- logging out;
- the session gate, run once the database is loaded and again after every change to the user list (App.tsx:77, 80);
- counting failed logins, with a lock of the account;
- registration, where the first registrant becomes the principal administrator;
- resending the confirmation e-mail under a quota of 3 per 24 hours;
- requesting a password reset;
- the generic administrative user update, and its status-toggle and privilege wrappers.

Modules:

- `Wrappers`: `Option`.
- `Types`: the records of `types.ts`, with timestamps as integer milliseconds.
- `Text`: `trim`, `toLowerCase` and `toUpperCase` over ASCII.
- `Store`: the database record as a map from key to field, the shallow merge of `dbSync`, and the session blob.
- `Users`: the `users.find` lookups, the `{ ...u, ...updates }` patch, and the `users.map` update by id.
- `Audit`: the entry `addAuditLog` builds, with its actor fallback.
- `Security`: each handler as a function from the component state to the state it leaves, plus what it returns.
  - When a handler runs, React has not yet applied any state update. So every step reads the state as it was at the start of the handler.
  - This also means `handleLogout` still logs the user who was current.
- `AppComponent`: the component as a class.
  - Its fields are `users`, `auditLogs`, `currentUser`, `session` and `db`.
  - There is one method per handler, which updates its fields one after another as the handler does.
  - Each method is proved to leave exactly the state the `Security` step describes.
- `Properties`: facts that relate several steps.
  - A login followed by a run of the session gate, which re-admits the user, ends an expired session, or undoes a login the gate refuses.
  - Repeated failures lock the account.
  - Three resends use up the quota and a quiet day restores it.
  - Invariants every handler keeps: the audit log only grows at the front, the persisted record mirrors the in-memory lists, the record's other keys keep their values, and there is at most one principal administrator.
  - The last invariant holds for `secureUpdateUser` only when the update leaves the role alone, as the status and privilege wrappers do. `secureUpdateUser` itself accepts any partial user, and it is also handed to the profile form (App.tsx:252), so a role update can make a second principal (`Properties.RolePatchBreaksPrincipalUnique`).

The outside world comes in as parameters:

- the clock reading `now`;
- the session `createSession` issues;
- the `{ success, error }` result that the mail collaborator reports.

## Model

| member | source | states |
|---|---|---|
| Store.Merge | App.tsx:32-37 | every key of the updates holds its new value; every other stored key keeps its old value; no other key appears |
| Store.MergeIdempotent | App.tsx:32-37 | writing the same updates twice is the same as writing them once |
| Audit.NewLog | App.tsx:82-92 | action, target and details are as given; the actor is the explicit one, else the current user; an actor id, explicit or current, that is absent or empty becomes `SISTEMA` and an absent actor gets the name `System`; the name is first and last name joined by a space |
| Security.AddAuditLog | App.tsx:82-96 | the log grows by exactly one entry in front; the old entries are unchanged and in order; the new log is written under `auditLogs`; nothing else changes |
| Security.SyncUsers | App.tsx:102-103 | the new list is in memory and under the users key; every other stored key keeps its value; log, current user and session are untouched |
| AppComponent.App.AddAuditLog | App.tsx:82-96 | the component is left in exactly the state `Security.AddAuditLog` describes |
| AppComponent.App.DbSync | App.tsx:32-37 | only the stored record changes, to its merge with the updates |
| AppComponent.App.constructor | App.tsx:18-50 | the state slots (lines 18-29) as `bootDatabase` fills them (lines 46 and 50): the loaded users and log, the stored record and session blob, and nobody logged in |
| Security.Login | App.tsx:98-106 | the session is stored and the user becomes current; only users with that id get counter 0 and no lock, the rest are identical; exactly one LOGIN_SUCCESS entry is added, built with that user as target and explicit actor; the record mirrors the lists |
| AppComponent.App.HandleLogin | App.tsx:98-106 | the component is left in exactly the state `Security.Login` describes |
| Security.Logout | App.tsx:108-114 | session and current user are cleared and users are unchanged; with someone logged in, one `LOGOUT: <reason>` entry is added, built with them as target and, through the handler's closure, as current user; otherwise the log and record are unchanged |
| AppComponent.App.HandleLogout | App.tsx:108-114 | the component is left in exactly the state `Security.Logout` describes |
| AppComponent.App.HandleManualLogout | App.tsx:108 | the logout button calls the handler with its default reason `Logout Manual`; the component is left in exactly the state `Security.Logout` describes for that reason |
| Security.CheckSession | App.tsx:54-77 | no session: nobody is current; unreadable session: it is removed; `now > expiresAt`: logout with `Sessão Expirada (24h)`; otherwise an ACTIVE or ADMIN_PRINCIPAL bound user becomes current, any other status is logged out with `Conta Inativada ou Pendente`, and an unknown id changes nothing; users never change |
| Security.MayResume | App.tsx:67 | the principal administrator may resume in any status; anyone else only while ACTIVE |
| AppComponent.App.CheckSessionSecurity | App.tsx:54-77 | the component is left in exactly the state `Security.CheckSession` describes |
| Security.RecordFailure | App.tsx:202-207 | users with the matched user's id get counter old + 1, and get a lock until `now + 900000` exactly when that reaches 5 (otherwise the lock is kept); other users are unchanged; nothing is logged; the list is written back |
| Security.LoginQuery | App.tsx:200 | a user matches exactly when its id or its e-mail equals the identifier |
| Security.FailurePatch | App.tsx:202-204 | sets the counter; sets a lock until `now + 900000` exactly when the counter is 5 or more; overwrites nothing else |
| Security.FailedAttempt | App.tsx:199-209 | an identifier matching no id or e-mail changes nothing; otherwise the failure is charged to the first match |
| AppComponent.App.OnFailedAttempt | App.tsx:199-209 | the component is left in exactly the state `Security.FailedAttempt` describes |
| AppComponent.App.ChargeFailure | App.tsx:202-207 | the component is left in exactly the state `Security.RecordFailure` describes |
| Security.Register | App.tsx:116-137 | `success` is always true and the user is appended after the unchanged list. A first registrant becomes ADMIN_MASTER_ID, ADMIN_PRINCIPAL, ACTIVE, ELDER and verified, with no mail and `emailSent` true. A later registrant keeps its id and privilege and becomes USER, PENDING and unverified; `emailSent` is the mail result, and one sent or failed entry is logged with its error, built with no explicit actor and the current user as it was when the handler began, and the record mirrors the lists. The resend count is 0 in both cases |
| Security.Admitted | App.tsx:118-126 | exactly the first registrant becomes principal, verified and active, with the fixed id and ELDER; later ones are pending, unverified USERs with their own id and privilege; all other fields are kept and the resend count is 0 |
| AppComponent.App.HandleRegister | App.tsx:116-137 | the component state and the reply are exactly those of `Security.Register` |
| Security.PermittedResend | App.tsx:154-171 | an effective count of 3 or more is refused with `BLOQUEIO_REENVIO_COTA` and no user changes. Below 3, a delivered mail sets the count to effective + 1 and the last-resend time to now, for that id only, and the record mirrors the lists. Below 3, an undelivered mail changes no user and logs `REENVIO_EMAIL_ERRO` with its error. One entry is logged in every case, built with no explicit actor and the current user as it was when the handler began |
| Security.Resend | App.tsx:139-172 | not found, already verified or active, and not pending each fail with no change at all; a pending, unverified user goes to the quota check with its effective count; success holds exactly on delivery; the number of users is unchanged |
| Security.ResendQuery | App.tsx:140-141 | a user matches exactly when its e-mail is the lower-cased trimmed identifier or its id is the upper-cased trimmed identifier |
| Security.EffectiveResendCount | App.tsx:147-152 | a nonzero effective count is the stored count of a resend less than 24 hours ago; a resend less than 24 hours ago keeps its stored count (absent reads as 0) |
| AppComponent.App.HandleResendEmail | App.tsx:139-172 | the component state and the reply are exactly those of `Security.Resend` |
| AppComponent.App.ResendWithinQuota | App.tsx:154-171 | for the user found and its effective count, the component state and the reply are exactly those of `Security.PermittedResend` |
| Security.PasswordReset | App.tsx:174-182 | true exactly when some user has both the e-mail and the id; when false nothing changes; when true only users with that id become PENDING_RESET, one `PEDIDO_REDEFINIÇÃO: <id>` entry is logged with no explicit actor and the handler's starting current user, and the record mirrors the lists |
| AppComponent.App.HandlePasswordResetRequest | App.tsx:174-182 | the component state and the result are exactly those of `Security.PasswordReset` |
| Security.SecureUpdateUser | App.tsx:184-189 | the update is spread over users with that id and no others; one `USER_UPDATE: <id>` entry is always added, with no explicit actor and the handler's starting current user; the record mirrors the lists |
| AppComponent.App.SecureUpdateUser | App.tsx:184-189 | the component is left in exactly the state `Security.SecureUpdateUser` describes |
| Security.ToggleStatus | App.tsx:251 | the user found by id goes from ACTIVE to INACTIVE, or from any other status to ACTIVE, and is marked verified; every other user with that id takes the same status and is verified; users with another id are unchanged; one `USER_UPDATE: <id>` entry, with no explicit actor and the handler's starting current user, is added in front of the unchanged log; current user and session are unchanged; the record mirrors the lists |
| Security.ToggledStatus | App.tsx:251 | the written status is ACTIVE or INACTIVE, and INACTIVE exactly when the first user with that id is ACTIVE |
| AppComponent.App.OnToggleStatus | App.tsx:251 | the component is left in exactly the state `Security.ToggleStatus` describes |
| Security.UpdatePrivilege | App.tsx:251 | users with that id take the new privilege and keep everything else; other users are unchanged; one `USER_UPDATE: <id>` entry is added, with no explicit actor and the handler's starting current user; the current user and session are unchanged; the record mirrors the lists |
| AppComponent.App.OnUpdateUserPrivilege | App.tsx:251 | the component is left in exactly the state `Security.UpdatePrivilege` describes |
| Users.FindIndex | App.tsx:65 | a found index is in range and matches, and no earlier user matches; nothing is found exactly when no user matches |
| Users.FindFrom | App.tsx:65 | the scan from position k: a found index is at or after k, matches, and nothing between k and it matches; nothing is found exactly when nothing from k on matches |
| Users.UpdateWhereId | App.tsx:185 | same length; users with the id take the patch; all others are unchanged |
| Users.UpdateKeepsFind | App.tsx:101 | a patch that leaves id, e-mail and role alone does not change what any lookup finds |
| Users.UpdateKeepsPrincipalUnique | App.tsx:185 | a patch that leaves the role alone keeps at most one principal administrator |
| Text.Lower | App.tsx:141 | same length; every capital letter becomes its small letter; no capital is left; every other character is kept |
| Text.Upper | App.tsx:141 | same length; every small letter becomes its capital letter; no small letter is left; every other character is kept |
| Text.TrimStart | App.tsx:140 | the result is a suffix of the input; only white space was removed; it does not start with white space |
| Text.TrimEnd | App.tsx:140 | the result is a prefix of the input; only white space was removed; it does not end with white space |
| Text.SkipSpaces | App.tsx:140 | the first position from k on that holds no white space: everything skipped is white space, and the position is the end or holds a non-space |
| Text.TextEnd | App.tsx:140 | the end of `s[..k]` without its trailing white space: everything dropped is white space, and the character before the end is not |
| Text.Trim | App.tsx:140 | the part of the input from its first non-white-space character on, with only white space before and after it, and starting and ending with no white space |
| Text.TrimIdempotent | App.tsx:140 | trimming twice is trimming once |
| Text.LowerNeverEqualsCapitalised | App.tsx:141 | no identifier lower-cases to a stored e-mail that contains a capital letter |
| Properties.LoginThenResume | App.tsx:54-77 | after a login, a gate run before expiry makes the same user current (counter cleared, no lock) and keeps the session |
| Properties.LoginRefusedByGate | App.tsx:54-80 | after a login of a user who is neither ACTIVE nor the principal, the gate's next run clears the session and the current user and logs `LOGOUT: Conta Inativada ou Pendente` after the login entry |
| Properties.LoginThenResumeAfterExpiry | App.tsx:62-63 | after a login, a gate run past expiry ends the session; the expiry logout is logged after the login |
| Properties.ResumeAdmitsOnlyBoundUser | App.tsx:54-77 | when the gate makes a new user current, a readable, unexpired session names them, and they are listed and ACTIVE or ADMIN_PRINCIPAL |
| Properties.SessionValidAtExpiryInstant | App.tsx:62 | the expiry test is strict: the session is still accepted at the very millisecond of `expiresAt` |
| Properties.FailureKeepsLookup | App.tsx:199-209 | after a failure, the identifier finds the same user, with its counter up by one and the lock set per the threshold |
| Properties.RecordFailureKeepsFind | App.tsx:204-205 | a charged failure does not change what any lookup finds |
| Properties.FailureStep | App.tsx:199-209 | one failure keeps the lookup, raises the counter by one and sets the lock as a run of one failure does |
| Properties.LockAfterCons | App.tsx:204 | splitting a run of failures into the first one and the rest gives the same lock |
| Properties.RepeatedFailures | App.tsx:199-209 | after n failures, the counter has risen by n; the account is locked until 15 minutes after the last failure exactly when the counter reached 5; otherwise the lock is as it was |
| Properties.FiveFailuresLock | App.tsx:202-204 | from a clean slate, five failures lock until 15 minutes after the fifth, and fewer leave the account unlocked |
| Properties.ResendDelivered | App.tsx:159-167 | a delivered resend keeps the lookup, counts one more and leaves the account awaiting confirmation |
| Properties.PermittedResendKeepsFind | App.tsx:160-163 | a resend, delivered or not, does not change what any lookup finds |
| Properties.PermittedCountBounded | App.tsx:154-162 | a quota step keeps the number of users, and any count it changes is at most 3 |
| Properties.ResendRefused | App.tsx:154-156 | an effective count of 3 is refused, changes no user and logs the block |
| Properties.ResendWithinWindow | App.tsx:147-167 | a delivered resend less than 24 hours after the last takes the count from n to n + 1 |
| Properties.ThreeResends | App.tsx:139-172 | three delivered resends, each within 24 hours of the last, all succeed and leave the count at 3 |
| Properties.QuotaExhausted | App.tsx:147-156 | a count of 3 with the last resend less than 24 hours ago is refused, changes no user and logs the block |
| Properties.QuietDayRestoresQuota | App.tsx:149-152 | 24 hours or more after the last resend, a used-up quota is restored: the mail goes out and the count is 1 |
| Properties.ResendCountBounded | App.tsx:151-162 | a resend never writes a count above 3 |
| Properties.AppendKeepsPrincipalUnique | App.tsx:127 | appending a non-principal, or any user to an empty list, keeps at most one principal |
| Properties.LoginKeeps | App.tsx:98-106 | the log only gains an entry in front, the persisted record stays in sync, every other stored key keeps its value, and there is still at most one principal |
| Properties.LogoutKeeps | App.tsx:108-114 | the same invariants for logout |
| Properties.CheckSessionKeeps | App.tsx:54-77 | the same invariants for the session gate |
| Properties.FailedAttemptKeeps | App.tsx:199-209 | the same invariants for a failed login |
| Properties.RecordFailureKeeps | App.tsx:202-207 | charging a failure keeps the invariants |
| Properties.SyncKeeps | App.tsx:102-103 | writing back a user list that keeps the principal unique keeps the invariants |
| Properties.SyncThenLogKeeps | App.tsx:93-95 | writing back such a list and then logging one entry keeps the invariants |
| Properties.RegisterKeeps | App.tsx:116-137 | the same invariants for registration, including at most one principal after the first registrant |
| Properties.ResendKeeps | App.tsx:139-172 | the same invariants for the resend handler |
| Properties.PermittedResendKeeps | App.tsx:154-171 | the same invariants for the quota step, in every branch |
| Properties.PasswordResetKeeps | App.tsx:174-182 | the same invariants for the reset request |
| Properties.SecureUpdateUserKeeps | App.tsx:184-189 | the same invariants for an update that leaves the role alone |
| Properties.RolePatchBreaksPrincipalUnique | App.tsx:184-185 | a `secureUpdateUser` call that gives a second user the principal role leaves two principals |
| Properties.ToggleStatusKeeps | App.tsx:251 | the same invariants for the status toggle |
| Properties.UpdatePrivilegeKeeps | App.tsx:251 | the same invariants for the privilege update |
| Properties.FailedAttempts | App.tsx:199-209 | running the failure callback for a sequence of clock readings keeps the number of users and the log |

## Left out

- Properties.SecureUpdateUserKeeps: requires an update that leaves the role alone, because `secureUpdateUser` accepts any partial user and a role update can break the single-principal invariant (`Properties.RolePatchBreaksPrincipalUnique`).
- JSX, rendering, and the tab and chat-channel UI state (App.tsx:191-265). This includes `setActiveTab('chat_ai')` and `setChatChannel('geral')` in `handleLogout`. These are presentational.
- The chat-channel message filter (App.tsx:241) and the message, pin, designation, program and chat-toggle list edits (App.tsx:242-251). They are outside account security.
- The `NOTIF_SENT` entry of `onSendNotification` (App.tsx:251). It is a plain `addAuditLog` call, already covered.
- `bootDatabase` and `INITIAL_USERS` (App.tsx:39-52), and the effects that run it. The constructor starts from an already loaded state.
- The effect that re-runs the session gate (App.tsx:80). The gate's callback depends on the user list (App.tsx:77), so React runs it again after every handler that calls `setUsers`. The model does not compose that re-run into the handlers: each handler and the gate are separate steps, and `Properties.LoginRefusedByGate` shows one composition.
- `localStorage`, `JSON.parse` and `JSON.stringify`.
  - The database record is a map from top-level key to field.
  - An absent record reads as `{}`.
  - The session blob is either a parsed `UserSession` or `Malformed`. `Malformed` takes the removal branch (App.tsx:74-76).
- `createSession`, `sendConfirmationEmail`, `resendConfirmationEmail` and `constants.ts`. None of these is part of this model.
  - The issued session and the mail result are parameters.
  - `ADMIN_MASTER_ID` is a stand-in constant.
- `async`/`await` and React's batching of state updates. Each handler is one sequential step over the state as it was when the handler began.
- Floating-point hours (App.tsx:149). The window is restated in integer milliseconds (`now - last >= 86400000`). A missing last resend forces the reset, as the `25` does in the code.
- ISO-8601 timestamp strings and `LOG-<millis>` ids. A log entry's id and timestamp are both the clock reading. Ids are not unique: two entries in the same millisecond share one.
- Each handler reads the clock once, as `now`. The register and resend entries are stamped with that `now`. In the code, `addAuditLog` reads the clock again after the awaited mail call (App.tsx:85, 90, after 132 and 159), while `lastEmailResendAt` keeps the earlier reading (App.tsx:147).
- The resend handler's reply text. Each message is a constructor of `ResendMessage`. The delivered one carries the e-mail address that the text interpolates.
- The alert shown by a failed password-reset request (App.tsx:176).
- `Text.Lower`, `Text.Upper`, `Text.Trim`: these cover ASCII letters and ASCII white space only. JavaScript's `toLowerCase`, `toUpperCase` and `trim` also handle the rest of Unicode.
- The plaintext `password` and the profile fields of `User` (photo, phone, congregation, gender, creation date, biometrics). The security logic does not read them.
- `capacitor.config.ts`. It is build configuration.
- The resend quota is not a rolling 24-hour window: the count restarts once the last resend is at least 24 hours old (App.tsx:148-152).
- The resend lookup is not case-insensitive: it compares the stored e-mail with the lower-cased identifier (App.tsx:141), so a stored address with a capital letter is never found by e-mail (`Text.LowerNeverEqualsCapitalised`).
