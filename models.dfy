/** The records of the authentication app (users, sessions, roles, business
    elements, access rules, role assignments), the per-record predicates the
    code relies on, and the read-only queries over the tables. */
module Models {
  import opened Base

  /** A user row. `password` is the stored bcrypt hash text, `""` until a
      password is set (the column's empty default). */
  datatype User = User(
    id: Id,
    email: string,
    firstName: string,
    lastName: string,
    middleName: string,
    password: string,
    isActive: bool,
    isStaff: bool,
    deletedAt: Option<Time>)

  /** A server-side session: the exact token string bound to a user, with its own
      expiry and active flag. */
  datatype Session = Session(
    id: Id,
    user: Id,
    token: string,
    createdAt: Time,
    expiresAt: Time,
    isActive: bool)

  datatype Role = Role(id: Id, name: string, description: string, isDefault: bool)

  datatype BusinessElement = BusinessElement(id: Id, name: string, elementType: string, description: string)

  /** The permission cell of one (role, element) pair: five independent flags. */
  datatype AccessRoleRule = AccessRoleRule(
    id: Id,
    role: Id,
    element: Id,
    readPermission: bool,
    readAllPermission: bool,
    createPermission: bool,
    updatePermission: bool,
    deletePermission: bool)

  datatype UserRole = UserRole(id: Id, user: Id, role: Id, assignedBy: Option<Id>)

  /** The five element types a business element may have. */
  const ElementTypes: seq<string> := ["user", "product", "order", "shop", "access_rule"]

  // ---------------------------------------------------------------------------
  // Sessions: expiry as `is_expired` states it, and freshness as the lookups filter it.

  /** `Session.is_expired`: strictly past its expiry. */
  predicate IsExpired(s: Session, now: Time) {
    s.expiresAt < now
  }

  /** The lookups' filter `is_active=True, expires_at__gt=now`. */
  predicate IsLive(s: Session, now: Time) {
    s.isActive && s.expiresAt > now
  }

  /** A live session is never expired, and an active session that is not expired
      is live exactly when it does not expire at this very instant. */
  lemma LiveVersusExpired(s: Session, now: Time)
    ensures IsLive(s, now) ==> !IsExpired(s, now)
    ensures s.isActive && !IsExpired(s, now) ==> (IsLive(s, now) <==> s.expiresAt != now)
  {
  }

  /** An active session expiring exactly now is neither expired nor accepted. */
  lemma ExpiryBoundaryGap(s: Session, now: Time)
    requires s.isActive && s.expiresAt == now
    ensures !IsExpired(s, now) && !IsLive(s, now)
  {
  }

  // ---------------------------------------------------------------------------
  // Passwords. bcrypt is opaque: a verifier classifies (raw, stored hash) and a
  // hasher produces the stored text for a raw password with a fresh salt.

  /** `bcrypt.checkpw`: a match, a mismatch, or a ValueError on a malformed hash. */
  datatype Verdict = Match | Mismatch | MalformedHash

  type Verifier = (string, string) -> Verdict

  type Hasher = string -> string

  /** `User.check_password`: true only on a match; a malformed or missing hash gives
      false instead of an exception. */
  function CheckPassword(verify: Verifier, u: User, raw: string): (ok: bool)
    ensures ok ==> verify(raw, u.password) == Match
    ensures verify(raw, u.password) == MalformedHash ==> !ok
    ensures verify(raw, u.password) == Mismatch ==> !ok
  {
    match verify(raw, u.password)
    case Match => true
    case Mismatch => false
    case MalformedHash => false
  }

  // ---------------------------------------------------------------------------
  // User construction, as the manager builds the row before saving it.

  /** The keyword arguments `create_user`/`create_superuser` accept besides email and password. */
  datatype ExtraFields = ExtraFields(
    firstName: Option<string>,
    lastName: Option<string>,
    middleName: Option<string>,
    isActive: Option<bool>,
    isStaff: Option<bool>,
    isSuperuser: Option<bool>)

  const NoExtraFields: ExtraFields := ExtraFields(None, None, None, None, None, None)

  function OrElse<T>(o: Option<T>, default: T): T {
    match o
    case Some(v) => v
    case None => default
  }

  /** `self.model(email=email, **extra_fields)` after `is_superuser` was dropped,
      then `set_password` when a non-empty password was given. */
  function NewUser(id: Id, email: string, password: Option<string>, extra: ExtraFields, hash: Hasher): (u: User)
    ensures u.id == id && u.email == email && u.deletedAt == None
    ensures u.isActive == OrElse(extra.isActive, true) && u.isStaff == OrElse(extra.isStaff, false)
    ensures u.firstName == OrElse(extra.firstName, "") && u.lastName == OrElse(extra.lastName, "")
    ensures u.middleName == OrElse(extra.middleName, "")
    ensures password.Some? && password.value != "" ==> u.password == hash(password.value)
    ensures password.None? || password.value == "" ==> u.password == ""
  {
    var hashed := match password
      case Some(p) => if p != "" then hash(p) else ""
      case None => "";
    User(id, email, OrElse(extra.firstName, ""), OrElse(extra.lastName, ""), OrElse(extra.middleName, ""),
         hashed, OrElse(extra.isActive, true), OrElse(extra.isStaff, false), None)
  }

  /** The `is_superuser` keyword never reaches the user row. */
  lemma NewUserIgnoresSuperuser(id: Id, email: string, password: Option<string>, extra: ExtraFields, hash: Hasher, flag: Option<bool>)
    ensures NewUser(id, email, password, extra.(isSuperuser := flag), hash) == NewUser(id, email, password, extra, hash)
  {
  }

  /** `User.delete()` with the default `soft_delete=True`: the row stays, deactivated
      and stamped. */
  function SoftDeleted(u: User, now: Time): (d: User)
    ensures !d.isActive && d.deletedAt == Some(now)
    ensures d.id == u.id && d.email == u.email && d.password == u.password
    ensures d.(isActive := u.isActive, deletedAt := u.deletedAt) == u
  {
    u.(isActive := false, deletedAt := Some(now))
  }

  // ---------------------------------------------------------------------------
  // Uniqueness of the tables (primary keys, `unique=True`, `unique_together`).

  predicate UniqueUserIds(users: seq<User>) {
    forall i, j :: 0 <= i < j < |users| ==> users[i].id != users[j].id
  }

  /** `email = EmailField(unique=True)`. */
  predicate UniqueEmails(users: seq<User>) {
    forall i, j :: 0 <= i < j < |users| ==> users[i].email != users[j].email
  }

  predicate UniqueSessionIds(sessions: seq<Session>) {
    forall i, j :: 0 <= i < j < |sessions| ==> sessions[i].id != sessions[j].id
  }

  predicate UniqueRoleIds(roles: seq<Role>) {
    forall i, j :: 0 <= i < j < |roles| ==> roles[i].id != roles[j].id
  }

  /** `Role.name` is `unique=True`. */
  predicate UniqueRoleNames(roles: seq<Role>) {
    forall i, j :: 0 <= i < j < |roles| ==> roles[i].name != roles[j].name
  }

  predicate UniqueElementIds(elements: seq<BusinessElement>) {
    forall i, j :: 0 <= i < j < |elements| ==> elements[i].id != elements[j].id
  }

  predicate UniqueRuleIds(rules: seq<AccessRoleRule>) {
    forall i, j :: 0 <= i < j < |rules| ==> rules[i].id != rules[j].id
  }

  /** `unique_together = ['role', 'element']` on access rules. */
  predicate UniqueRulePairs(rules: seq<AccessRoleRule>) {
    forall i, j :: 0 <= i < j < |rules| ==> rules[i].role != rules[j].role || rules[i].element != rules[j].element
  }

  predicate UniqueAssignmentIds(assignments: seq<UserRole>) {
    forall i, j :: 0 <= i < j < |assignments| ==> assignments[i].id != assignments[j].id
  }

  /** `unique_together = ['user', 'role']` on role assignments. */
  predicate UniqueAssignments(assignments: seq<UserRole>) {
    forall i, j :: 0 <= i < j < |assignments| ==> assignments[i].user != assignments[j].user || assignments[i].role != assignments[j].role
  }

  /** Under the uniqueness constraint, a (role, element) pair names at most one rule. */
  lemma RuleOfPairIsUnique(rules: seq<AccessRoleRule>, i: nat, j: nat)
    requires UniqueRulePairs(rules)
    requires i < |rules| && j < |rules|
    requires rules[i].role == rules[j].role && rules[i].element == rules[j].element
    ensures i == j
  {
  }

  // ---------------------------------------------------------------------------
  // Read-only queries over the tables.

  /** `User.objects.get(id=id)`, or with `is_active=True` when `activeOnly`. */
  function FindUser(users: seq<User>, id: Id, activeOnly: bool): (r: Option<User>)
    ensures r.Some? ==> r.value in users && r.value.id == id && (activeOnly ==> r.value.isActive)
    ensures r.None? ==> forall u :: u in users && u.id == id ==> activeOnly && !u.isActive
  {
    if users == [] then None
    else if users[0].id == id && (!activeOnly || users[0].isActive) then Some(users[0])
    else FindUser(users[1..], id, activeOnly)
  }

  /** `User.objects.get(email=email, is_active=True)`. */
  function FindActiveUserByEmail(users: seq<User>, email: string): (r: Option<User>)
    ensures r.Some? ==> r.value in users && r.value.email == email && r.value.isActive
    ensures r.None? ==> forall u :: u in users && u.email == email ==> !u.isActive
  {
    if users == [] then None
    else if users[0].email == email && users[0].isActive then Some(users[0])
    else FindActiveUserByEmail(users[1..], email)
  }

  /** With unique ids, the user a lookup finds is the one row carrying that id. */
  lemma FindUserUnique(users: seq<User>, id: Id, activeOnly: bool, u: User)
    requires UniqueUserIds(users)
    requires u in users && u.id == id && (activeOnly ==> u.isActive)
    ensures FindUser(users, id, activeOnly) == Some(u)
  {
    var r := FindUser(users, id, activeOnly);
    assert r.Some?;
    var i :| 0 <= i < |users| && users[i] == u;
    var j :| 0 <= j < |users| && users[j] == r.value;
    assert i == j;
  }

  /** `Role.objects.filter(is_default=True).first()` under the `-created_at`
      ordering: the most recently created default role. The table keeps roles in
      creation order, so that is the last default role in the sequence. */
  function LatestDefaultRole(roles: seq<Role>): (r: Option<Role>)
    ensures r.Some? ==> r.value.isDefault &&
                        (exists i :: 0 <= i < |roles| && roles[i] == r.value &&
                                     forall j :: i < j < |roles| ==> !roles[j].isDefault)
    ensures r.None? <==> forall role :: role in roles ==> !role.isDefault
  {
    if roles == [] then None
    else if roles[|roles| - 1].isDefault then Some(roles[|roles| - 1])
    else
      var r := LatestDefaultRole(roles[..|roles| - 1]);
      assert forall role :: role in roles ==> role in roles[..|roles| - 1] || role == roles[|roles| - 1];
      r
  }
}
