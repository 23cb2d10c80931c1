/**
 * The expression-level transforms App.tsx applies to the user list:
 * `users.find(...)`, `users.map(u => u.id === id ? { ...u, ...updates } : u)`.
 */
module Users {
  import opened Wrappers
  import opened Types

  /** The predicates the handlers pass to `users.find`. */
  datatype Query =
    | ById(id: string)                        // u.id === id
    | EmailOrId(email: string, id: string)    // u.email === email || u.id === id
    | EmailAndId(email: string, id: string)   // u.email === email && u.id === id

  predicate Matches(q: Query, u: User) {
    match q
    case ById(id) => u.id == id
    case EmailOrId(email, id) => u.email == email || u.id == id
    case EmailAndId(email, id) => u.email == email && u.id == id
  }

  /** `users.find(q)`, as the position of the first match: nothing before it matches, nothing at all when none is found. */
  function FindIndex(users: seq<User>, q: Query): (r: Option<nat>)
    ensures r.Some? ==> r.value < |users| && Matches(q, users[r.value])
    ensures r.Some? ==> forall j :: 0 <= j < r.value ==> !Matches(q, users[j])
    ensures r.None? <==> forall j :: 0 <= j < |users| ==> !Matches(q, users[j])
  {
    FindFrom(users, q, 0)
  }

  /** The scan behind `FindIndex`, from position `k` on. */
  function FindFrom(users: seq<User>, q: Query, k: nat): (r: Option<nat>)
    requires k <= |users|
    ensures r.Some? ==> k <= r.value < |users| && Matches(q, users[r.value])
    ensures r.Some? ==> forall j :: k <= j < r.value ==> !Matches(q, users[j])
    ensures r.None? <==> forall j :: k <= j < |users| ==> !Matches(q, users[j])
    decreases |users| - k
  {
    if k == |users| then None
    else if Matches(q, users[k]) then Some(k)
    else FindFrom(users, q, k + 1)
  }

  /**
   * `Partial<User>`: the fields a spread `{ ...u, ...updates }` overwrites. A field
   * of an optional member is `Some(None)` when the update sets it to `undefined`.
   */
  datatype UserPatch = UserPatch(
    id: Option<string>,
    firstName: Option<string>,
    lastName: Option<string>,
    email: Option<string>,
    isEmailVerified: Option<bool>,
    loginAttempts: Option<int>,
    lockedUntil: Option<Option<Millis>>,
    privilege: Option<Privilege>,
    status: Option<AccountStatus>,
    role: Option<UserRole>,
    emailResendCount: Option<Option<int>>,
    lastEmailResendAt: Option<Option<Millis>>)

  /** The update that overwrites nothing, `{}`. */
  const NoChange := UserPatch(None, None, None, None, None, None, None, None, None, None, None, None)

  /** `{ ...u, ...p }` */
  function Apply(u: User, p: UserPatch): User {
    User(
      p.id.GetOr(u.id),
      p.firstName.GetOr(u.firstName),
      p.lastName.GetOr(u.lastName),
      p.email.GetOr(u.email),
      p.isEmailVerified.GetOr(u.isEmailVerified),
      p.loginAttempts.GetOr(u.loginAttempts),
      p.lockedUntil.GetOr(u.lockedUntil),
      p.privilege.GetOr(u.privilege),
      p.status.GetOr(u.status),
      p.role.GetOr(u.role),
      p.emailResendCount.GetOr(u.emailResendCount),
      p.lastEmailResendAt.GetOr(u.lastEmailResendAt))
  }

  /** A patch that leaves the lookup keys and the role alone. */
  predicate KeepsIdentity(p: UserPatch) {
    p.id.None? && p.email.None? && p.role.None?
  }

  /**
   * `users.map(u => u.id === id ? { ...u, ...p } : u)`: the list keeps its length
   * and order, every user with that id receives the update and every other user is
   * returned as it was.
   */
  function UpdateWhereId(users: seq<User>, id: string, p: UserPatch): (r: seq<User>)
    ensures |r| == |users|
    ensures forall i :: 0 <= i < |users| && users[i].id == id ==> r[i] == Apply(users[i], p)
    ensures forall i :: 0 <= i < |users| && users[i].id != id ==> r[i] == users[i]
  {
    seq(|users|, i requires 0 <= i < |users| => if users[i].id == id then Apply(users[i], p) else users[i])
  }

  /**
   * An update that keeps ids, e-mails and roles leaves every lookup's answer where
   * it was: the first match is determined by which users match, and none of them
   * changes.
   */
  lemma UpdateKeepsFind(users: seq<User>, id: string, p: UserPatch, q: Query)
    requires KeepsIdentity(p)
    ensures FindIndex(UpdateWhereId(users, id, p), q) == FindIndex(users, q)
  {
    var r := UpdateWhereId(users, id, p);
    forall j | 0 <= j < |users| ensures Matches(q, r[j]) == Matches(q, users[j]) {
    }
  }

  /** At most one user holds the principal-administrator role. */
  ghost predicate AtMostOnePrincipal(users: seq<User>) {
    forall i, j :: 0 <= i < |users| && 0 <= j < |users| && users[i].role == AdminPrincipal && users[j].role == AdminPrincipal ==> i == j
  }

  /** An update that does not touch roles keeps the principal unique. */
  lemma UpdateKeepsPrincipalUnique(users: seq<User>, id: string, p: UserPatch)
    requires p.role.None?
    ensures AtMostOnePrincipal(users) ==> AtMostOnePrincipal(UpdateWhereId(users, id, p))
  {
    var r := UpdateWhereId(users, id, p);
    forall i | 0 <= i < |r| ensures r[i].role == users[i].role {
    }
  }
}
