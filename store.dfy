/** The database the app works on: one object holding every table, with the
    invariants the schema enforces (primary keys, unique columns, foreign keys)
    and the row-level operations the code performs on it: the user manager,
    `set_password` + `save`, `delete`, session creation and the
    `update(is_active=False)` revocations, role assignment, and the
    `get_or_create` calls of the seeding command. */
module Store {
  import opened Base
  import opened Models
  import Sessions

  // ---------------------------------------------------------------------------
  // Keys and schema invariants, stated on table values.

  function UserIds(users: seq<User>): set<Id> {
    set u | u in users :: u.id
  }

  function RoleIds(roles: seq<Role>): set<Id> {
    set r | r in roles :: r.id
  }

  function ElementIds(elements: seq<BusinessElement>): set<Id> {
    set e | e in elements :: e.id
  }

  function Emails(users: seq<User>): set<string> {
    set u | u in users :: u.email
  }

  predicate UsersValid(users: seq<User>, next: Id) {
    (forall u :: u in users ==> u.id < next) && UniqueUserIds(users) && UniqueEmails(users)
  }

  /** Session ids are keys, and every session belongs to an existing user. */
  predicate SessionsValid(sessions: seq<Session>, users: seq<User>, next: Id) {
    (forall s :: s in sessions ==> s.id < next && s.user in UserIds(users)) && UniqueSessionIds(sessions)
  }

  predicate RolesValid(roles: seq<Role>, next: Id) {
    (forall r :: r in roles ==> r.id < next) && UniqueRoleIds(roles) && UniqueRoleNames(roles)
  }

  predicate ElementsValid(elements: seq<BusinessElement>, next: Id) {
    (forall e :: e in elements ==> e.id < next) && UniqueElementIds(elements)
  }

  /** Rule ids are keys, a rule references an existing role and element, and
      there is at most one rule per (role, element). */
  predicate RulesValid(rules: seq<AccessRoleRule>, roles: seq<Role>, elements: seq<BusinessElement>, next: Id) {
    (forall r :: r in rules ==> r.id < next && r.role in RoleIds(roles) && r.element in ElementIds(elements)) &&
    UniqueRuleIds(rules) && UniqueRulePairs(rules)
  }

  /** Assignment ids are keys, an assignment references an existing user and role
      (and an existing assigner, if any), and there is at most one per (user, role). */
  predicate AssignmentsValid(assignments: seq<UserRole>, users: seq<User>, roles: seq<Role>, next: Id) {
    (forall a :: a in assignments ==>
       a.id < next && a.user in UserIds(users) && a.role in RoleIds(roles) &&
       (a.assignedBy.Some? ==> a.assignedBy.value in UserIds(users))) &&
    UniqueAssignmentIds(assignments) && UniqueAssignments(assignments)
  }

  // ---------------------------------------------------------------------------
  // Pure queries used by the operations below.

  function UserIndex(users: seq<User>, id: Id): (i: int)
    ensures -1 <= i < |users|
    ensures i >= 0 ==> users[i].id == id
    ensures i < 0 ==> id !in UserIds(users)
  {
    if users == [] then -1
    else if users[|users| - 1].id == id then |users| - 1
    else UserIndex(users[..|users| - 1], id)
  }

  /** `User.objects.get(email=...)` (without the active filter). */
  function FindUserByEmail(users: seq<User>, email: string): (r: Option<User>)
    ensures r.Some? ==> r.value in users && r.value.email == email
    ensures r.None? <==> email !in Emails(users)
  {
    if users == [] then None
    else if users[0].email == email then Some(users[0])
    else
      var r := FindUserByEmail(users[1..], email);
      assert Emails(users) == {users[0].email} + Emails(users[1..]);
      r
  }

  function FindRoleByName(roles: seq<Role>, name: string): (r: Option<Role>)
    ensures r.Some? ==> r.value in roles && r.value.name == name
    ensures r.None? ==> forall role :: role in roles ==> role.name != name
  {
    if roles == [] then None
    else if roles[0].name == name then Some(roles[0])
    else FindRoleByName(roles[1..], name)
  }

  /** The first element with this name and type. */
  function FindElement(elements: seq<BusinessElement>, name: string, elementType: string): (r: Option<BusinessElement>)
    ensures r.Some? ==> r.value in elements && r.value.name == name && r.value.elementType == elementType
    ensures r.None? ==> forall e :: e in elements ==> e.name != name || e.elementType != elementType
  {
    if elements == [] then None
    else if elements[0].name == name && elements[0].elementType == elementType then Some(elements[0])
    else FindElement(elements[1..], name, elementType)
  }

  function FindRule(rules: seq<AccessRoleRule>, role: Id, element: Id): (r: Option<AccessRoleRule>)
    ensures r.Some? ==> r.value in rules && r.value.role == role && r.value.element == element
    ensures r.None? ==> forall rule :: rule in rules ==> rule.role != role || rule.element != element
  {
    if rules == [] then None
    else if rules[0].role == role && rules[0].element == element then Some(rules[0])
    else FindRule(rules[1..], role, element)
  }

  function HasAssignment(assignments: seq<UserRole>, user: Id, role: Id): (b: bool)
    ensures b <==> exists a :: a in assignments && a.user == user && a.role == role
  {
    if assignments == [] then false
    else (assignments[0].user == user && assignments[0].role == role) || HasAssignment(assignments[1..], user, role)
  }

  /** Every session of the user, active or not (`filter(user=...)`). */
  function SessionsOf(sessions: seq<Session>, user: Id): (r: seq<Session>)
    ensures forall s :: s in r <==> s in sessions && s.user == user
  {
    if sessions == [] then []
    else (if sessions[0].user == user then [sessions[0]] else []) + SessionsOf(sessions[1..], user)
  }

  /** Appending a row never changes what a successful lookup finds (each lookup
      returns the first matching row); a lookup that found nothing finds the new
      row exactly when it matches. */
  lemma {:induction false} FindElementAppend(elements: seq<BusinessElement>, e: BusinessElement, name: string, elementType: string)
    ensures FindElement(elements + [e], name, elementType) ==
            if FindElement(elements, name, elementType).Some? then FindElement(elements, name, elementType)
            else if e.name == name && e.elementType == elementType then Some(e) else None
  {
    if elements != [] && (elements[0].name != name || elements[0].elementType != elementType) {
      assert (elements + [e])[1..] == elements[1..] + [e];
      FindElementAppend(elements[1..], e, name, elementType);
    }
  }

  lemma {:induction false} FindRoleByNameAppend(roles: seq<Role>, r: Role, name: string)
    ensures FindRoleByName(roles + [r], name) ==
            if FindRoleByName(roles, name).Some? then FindRoleByName(roles, name)
            else if r.name == name then Some(r) else None
  {
    if roles != [] && roles[0].name != name {
      assert (roles + [r])[1..] == roles[1..] + [r];
      FindRoleByNameAppend(roles[1..], r, name);
    }
  }

  lemma {:induction false} FindRuleAppend(rules: seq<AccessRoleRule>, x: AccessRoleRule, role: Id, element: Id)
    ensures FindRule(rules + [x], role, element) ==
            if FindRule(rules, role, element).Some? then FindRule(rules, role, element)
            else if x.role == role && x.element == element then Some(x) else None
  {
    if rules != [] && (rules[0].role != role || rules[0].element != element) {
      assert (rules + [x])[1..] == rules[1..] + [x];
      FindRuleAppend(rules[1..], x, role, element);
    }
  }

  lemma {:induction false} FindUserByEmailAppend(users: seq<User>, u: User, email: string)
    ensures FindUserByEmail(users + [u], email) ==
            if FindUserByEmail(users, email).Some? then FindUserByEmail(users, email)
            else if u.email == email then Some(u) else None
  {
    if users != [] && users[0].email != email {
      assert (users + [u])[1..] == users[1..] + [u];
      FindUserByEmailAppend(users[1..], u, email);
    }
  }

  lemma {:induction false} SessionsOfAppend(sessions: seq<Session>, s: Session, user: Id)
    ensures SessionsOf(sessions + [s], user) == SessionsOf(sessions, user) + (if s.user == user then [s] else [])
  {
    if sessions != [] {
      assert (sessions + [s])[1..] == sessions[1..] + [s];
      SessionsOfAppend(sessions[1..], s, user);
    }
  }

  // ---------------------------------------------------------------------------
  // Cascades of a hard delete (`on_delete=CASCADE` / `SET_NULL`).

  function WithoutUser(users: seq<User>, id: Id): (r: seq<User>)
    ensures forall u :: u in r <==> u in users && u.id != id
    ensures |r| <= |users|
  {
    if users == [] then []
    else (if users[0].id == id then [] else [users[0]]) + WithoutUser(users[1..], id)
  }

  function SessionsNotOf(sessions: seq<Session>, id: Id): (r: seq<Session>)
    ensures forall s :: s in r <==> s in sessions && s.user != id
    ensures |r| <= |sessions|
  {
    if sessions == [] then []
    else (if sessions[0].user == id then [] else [sessions[0]]) + SessionsNotOf(sessions[1..], id)
  }

  /** The user's own assignments go (CASCADE). */
  function AssignmentsNotOf(assignments: seq<UserRole>, id: Id): (r: seq<UserRole>)
    ensures forall a :: a in r <==> a in assignments && a.user != id
    ensures |r| <= |assignments|
  {
    if assignments == [] then []
    else (if assignments[0].user == id then [] else [assignments[0]]) + AssignmentsNotOf(assignments[1..], id)
  }

  /** Assignments the user made lose their assigner (SET_NULL). */
  function ClearAssigner(assignments: seq<UserRole>, id: Id): (r: seq<UserRole>)
    ensures |r| == |assignments|
    ensures forall i :: 0 <= i < |r| ==>
              r[i] == if assignments[i].assignedBy == Some(id) then assignments[i].(assignedBy := None) else assignments[i]
  {
    if assignments == [] then []
    else
      var a := assignments[0];
      [if a.assignedBy == Some(id) then a.(assignedBy := None) else a] + ClearAssigner(assignments[1..], id)
  }

  function AssignmentsAfterDelete(assignments: seq<UserRole>, id: Id): seq<UserRole> {
    ClearAssigner(AssignmentsNotOf(assignments, id), id)
  }

  lemma UserIdsWithout(users: seq<User>, id: Id)
    ensures UserIds(WithoutUser(users, id)) == UserIds(users) - {id}
  {
    var w := WithoutUser(users, id);
    forall x | x in UserIds(users) - {id} ensures x in UserIds(w) {
      var u :| u in users && u.id == x;
      assert u in w;
    }
  }

  lemma WithoutUserKeepsUniqueness(users: seq<User>, id: Id)
    requires UniqueUserIds(users) && UniqueEmails(users)
    ensures UniqueUserIds(WithoutUser(users, id)) && UniqueEmails(WithoutUser(users, id))
  {
    if users != [] {
      WithoutUserKeepsUniqueness(users[1..], id);
    }
  }

  lemma SessionsNotOfKeepsUniqueness(sessions: seq<Session>, id: Id)
    requires UniqueSessionIds(sessions)
    ensures UniqueSessionIds(SessionsNotOf(sessions, id))
  {
    if sessions != [] {
      SessionsNotOfKeepsUniqueness(sessions[1..], id);
    }
  }

  lemma AssignmentsNotOfKeepsUniqueness(assignments: seq<UserRole>, id: Id)
    requires UniqueAssignmentIds(assignments) && UniqueAssignments(assignments)
    ensures UniqueAssignmentIds(AssignmentsNotOf(assignments, id)) && UniqueAssignments(AssignmentsNotOf(assignments, id))
  {
    if assignments != [] {
      AssignmentsNotOfKeepsUniqueness(assignments[1..], id);
    }
  }

  lemma SessionsNotOfValid(sessions: seq<Session>, users: seq<User>, next: Id, id: Id)
    requires SessionsValid(sessions, users, next)
    ensures SessionsValid(SessionsNotOf(sessions, id), WithoutUser(users, id), next)
  {
    UserIdsWithout(users, id);
    SessionsNotOfKeepsUniqueness(sessions, id);
  }

  lemma AssignmentsAfterDeleteValid(assignments: seq<UserRole>, users: seq<User>, roles: seq<Role>, next: Id, id: Id)
    requires AssignmentsValid(assignments, users, roles, next)
    ensures AssignmentsValid(AssignmentsAfterDelete(assignments, id), WithoutUser(users, id), roles, next)
  {
    UserIdsWithout(users, id);
    AssignmentsNotOfKeepsUniqueness(assignments, id);
    var kept := AssignmentsNotOf(assignments, id);
    var cleared := ClearAssigner(kept, id);
    ClearAssignerKeepsUniqueness(kept, id);
    forall a | a in cleared
      ensures a.id < next && a.user in UserIds(users) - {id} && a.role in RoleIds(roles)
      ensures a.assignedBy.Some? ==> a.assignedBy.value in UserIds(users) - {id}
    {
      var i :| 0 <= i < |cleared| && cleared[i] == a;
      assert kept[i] in kept;
    }
  }

  lemma ClearAssignerKeepsUniqueness(assignments: seq<UserRole>, id: Id)
    requires UniqueAssignmentIds(assignments) && UniqueAssignments(assignments)
    ensures UniqueAssignmentIds(ClearAssigner(assignments, id)) && UniqueAssignments(ClearAssigner(assignments, id))
  {
    var r := ClearAssigner(assignments, id);
    assert forall i :: 0 <= i < |r| ==>
      r[i].id == assignments[i].id && r[i].user == assignments[i].user && r[i].role == assignments[i].role;
  }

  /** A hard delete of one user leaves every schema invariant in place. */
  lemma HardDeleteKeepsValid(users: seq<User>, sessions: seq<Session>, roles: seq<Role>, assignments: seq<UserRole>, next: Id, id: Id)
    requires UsersValid(users, next) && SessionsValid(sessions, users, next) && AssignmentsValid(assignments, users, roles, next)
    ensures UsersValid(WithoutUser(users, id), next)
    ensures SessionsValid(SessionsNotOf(sessions, id), WithoutUser(users, id), next)
    ensures AssignmentsValid(AssignmentsAfterDelete(assignments, id), WithoutUser(users, id), roles, next)
  {
    WithoutUserKeepsUniqueness(users, id);
    SessionsNotOfValid(sessions, users, next, id);
    AssignmentsAfterDeleteValid(assignments, users, roles, next, id);
  }

  /** Rewriting one user row without touching its id or email keeps the user
      invariants and the set of user ids. */
  lemma RowUpdateKeepsUsers(users: seq<User>, next: Id, i: nat, u: User)
    requires UsersValid(users, next)
    requires i < |users| && u.id == users[i].id && u.email == users[i].email
    ensures UsersValid(users[i := u], next)
    ensures UserIds(users[i := u]) == UserIds(users)
  {
    var w := users[i := u];
    assert forall k :: 0 <= k < |w| ==> w[k].id == users[k].id && w[k].email == users[k].email;
    forall x | x in UserIds(users) ensures x in UserIds(w) {
      var k :| 0 <= k < |users| && users[k].id == x;
      assert w[k].id == x;
    }
  }

  /** Rewriting session rows without touching ids or owners keeps the session invariants. */
  lemma SameKeysKeepsSessions(before: seq<Session>, after: seq<Session>, users: seq<User>, next: Id)
    requires SessionsValid(before, users, next)
    requires |after| == |before|
    requires forall k :: 0 <= k < |after| ==> after[k].id == before[k].id && after[k].user == before[k].user
    ensures SessionsValid(after, users, next)
  {
    forall s | s in after ensures s.id < next && s.user in UserIds(users) {
      var k :| 0 <= k < |after| && after[k] == s;
      assert before[k] in before;
    }
  }

  // ---------------------------------------------------------------------------

  /** Why the user manager refuses to create a user. */
  datatype ManagerError =
      /** ValueError: email is required */
    | EmailRequired
      /** ValueError: superuser must have is_staff=True */
    | StaffRequired
      /** the database's unique constraint on email */
    | DuplicateEmail

  // ---------------------------------------------------------------------------
  // `get_or_create`, on table values: the first row matching the lookup is
  // returned, or a row built from the lookup and the defaults is appended under
  // the next identifier.

  /** A lookup's outcome: the table afterwards, the next identifier afterwards,
      the row found or created, and whether it was created. */
  datatype Fetched<T> = Fetched(table: seq<T>, next: Id, row: T, created: bool)

  /** `BusinessElement.objects.get_or_create(name=..., element_type=..., defaults={description})`. */
  function GetOrCreateElement(elements: seq<BusinessElement>, next: Id, name: string, elementType: string,
                              description: string): (r: Fetched<BusinessElement>)
    ensures FindElement(r.table, name, elementType) == Some(r.row)
    ensures r.created <==> FindElement(elements, name, elementType).None?
    ensures !r.created ==> r.table == elements && r.next == next
    ensures r.created ==> r.row == BusinessElement(next, name, elementType, description) &&
                          r.table == elements + [r.row] && r.next == next + 1
    ensures ElementsValid(elements, next) ==> ElementsValid(r.table, r.next)
  {
    var found := FindElement(elements, name, elementType);
    if found.Some? then Fetched(elements, next, found.value, false)
    else
      var e := BusinessElement(next, name, elementType, description);
      FindElementAppend(elements, e, name, elementType);
      Fetched(elements + [e], next + 1, e, true)
  }

  /** `Role.objects.get_or_create(name=..., defaults={description, is_default})`. */
  function GetOrCreateRole(roles: seq<Role>, next: Id, name: string, description: string, isDefault: bool): (r: Fetched<Role>)
    ensures FindRoleByName(r.table, name) == Some(r.row)
    ensures r.created <==> FindRoleByName(roles, name).None?
    ensures !r.created ==> r.table == roles && r.next == next
    ensures r.created ==> r.row == Role(next, name, description, isDefault) && r.table == roles + [r.row] && r.next == next + 1
    ensures RolesValid(roles, next) ==> RolesValid(r.table, r.next)
  {
    var found := FindRoleByName(roles, name);
    if found.Some? then Fetched(roles, next, found.value, false)
    else
      var x := Role(next, name, description, isDefault);
      FindRoleByNameAppend(roles, x, name);
      Fetched(roles + [x], next + 1, x, true)
  }

  /** `AccessRoleRule.objects.get_or_create(role=..., element=..., defaults={the five flags})`. */
  function GetOrCreateRule(rules: seq<AccessRoleRule>, next: Id, role: Id, element: Id,
                           read: bool, readAll: bool, create: bool, update: bool, delete: bool): (r: Fetched<AccessRoleRule>)
    ensures FindRule(r.table, role, element) == Some(r.row)
    ensures r.created <==> FindRule(rules, role, element).None?
    ensures !r.created ==> r.table == rules && r.next == next
    ensures r.created ==> r.row == AccessRoleRule(next, role, element, read, readAll, create, update, delete) &&
                          r.table == rules + [r.row] && r.next == next + 1
    ensures forall roles, elements ::
              (RulesValid(rules, roles, elements, next) && role in RoleIds(roles) && element in ElementIds(elements)) ==>
                RulesValid(r.table, roles, elements, r.next)
  {
    var found := FindRule(rules, role, element);
    if found.Some? then Fetched(rules, next, found.value, false)
    else
      var x := AccessRoleRule(next, role, element, read, readAll, create, update, delete);
      FindRuleAppend(rules, x, role, element);
      Fetched(rules + [x], next + 1, x, true)
  }

  /** `User.objects.get_or_create(email=..., defaults={...})`: a plain insert that
      bypasses the manager, so the new row has no password yet. */
  function GetOrCreateUser(users: seq<User>, next: Id, email: string, firstName: string, lastName: string,
                           isActive: bool, isStaff: bool): (r: Fetched<User>)
    ensures FindUserByEmail(r.table, email) == Some(r.row)
    ensures r.created <==> email !in Emails(users)
    ensures !r.created ==> r.table == users && r.next == next
    ensures r.created ==> r.row == User(next, email, firstName, lastName, "", "", isActive, isStaff, None) &&
                          r.table == users + [r.row] && r.next == next + 1
    ensures UsersValid(users, next) ==> UsersValid(r.table, r.next)
  {
    var found := FindUserByEmail(users, email);
    if found.Some? then Fetched(users, next, found.value, false)
    else
      var u := User(next, email, firstName, lastName, "", "", isActive, isStaff, None);
      FindUserByEmailAppend(users, u, email);
      Fetched(users + [u], next + 1, u, true)
  }

  /** A larger next identifier keeps the catalog tables valid. */
  lemma LaterNextKeepsCatalog(roles: seq<Role>, elements: seq<BusinessElement>, rules: seq<AccessRoleRule>,
                              next: Id, next': Id)
    requires next <= next'
    ensures RolesValid(roles, next) ==> RolesValid(roles, next')
    ensures ElementsValid(elements, next) ==> ElementsValid(elements, next')
    ensures RulesValid(rules, roles, elements, next) ==> RulesValid(rules, roles, elements, next')
  {
  }

  /** Tables that only grow at the end, under a larger next identifier, keep
      every reference into them valid. */
  lemma GrowthKeepsReferences(users: seq<User>, roles: seq<Role>, elements: seq<BusinessElement>, next: Id,
                              users': seq<User>, roles': seq<Role>, elements': seq<BusinessElement>, next': Id,
                              sessions: seq<Session>, rules: seq<AccessRoleRule>, userRoles: seq<UserRole>)
    requires next <= next'
    requires users <= users'
    requires roles <= roles'
    requires elements <= elements'
    ensures SessionsValid(sessions, users, next) ==> SessionsValid(sessions, users', next')
    ensures RulesValid(rules, roles, elements, next) ==> RulesValid(rules, roles', elements', next')
    ensures AssignmentsValid(userRoles, users, roles, next) ==> AssignmentsValid(userRoles, users', roles', next')
  {
    assert forall u :: u in users ==> u in users' by {
      forall u | u in users ensures u in users' {
        var k :| 0 <= k < |users| && users[k] == u;
        assert users'[k] == u;
      }
    }
    assert forall r :: r in roles ==> r in roles' by {
      forall r | r in roles ensures r in roles' {
        var k :| 0 <= k < |roles| && roles[k] == r;
        assert roles'[k] == r;
      }
    }
    assert forall e :: e in elements ==> e in elements' by {
      forall e | e in elements ensures e in elements' {
        var k :| 0 <= k < |elements| && elements[k] == e;
        assert elements'[k] == e;
      }
    }
  }

  class Db {
    var users: seq<User>
    var sessions: seq<Session>
    var roles: seq<Role>
    var elements: seq<BusinessElement>
    var rules: seq<AccessRoleRule>
    var userRoles: seq<UserRole>
    /** The next identifier to hand out; every identifier in use is below it. */
    var nextId: Id

    ghost predicate Valid()
      reads this
    {
      UsersValid(users, nextId) &&
      SessionsValid(sessions, users, nextId) &&
      RolesValid(roles, nextId) &&
      ElementsValid(elements, nextId) &&
      RulesValid(rules, roles, elements, nextId) &&
      AssignmentsValid(userRoles, users, roles, nextId)
    }

    constructor ()
      ensures Valid()
      ensures users == [] && sessions == [] && roles == [] && elements == [] && rules == [] && userRoles == []
    {
      users, sessions, roles, elements, rules, userRoles := [], [], [], [], [], [];
      nextId := 0;
    }

    /** `CustomUserManager.create_user`. */
    method CreateUser(email: string, password: Option<string>, extra: ExtraFields, hash: Hasher)
      returns (r: Result<User, ManagerError>)
      requires Valid()
      modifies this`users, this`nextId
      ensures Valid()
      ensures email == "" ==> r == Failure(EmailRequired)
      ensures email != "" && email in Emails(old(users)) ==> r == Failure(DuplicateEmail)
      ensures r.Failure? ==> users == old(users) && nextId == old(nextId)
      ensures email != "" && email !in Emails(old(users)) ==>
                r == Success(NewUser(old(nextId), email, password, extra, hash)) &&
                users == old(users) + [r.value] && nextId == old(nextId) + 1
    {
      if email == "" {
        return Failure(EmailRequired);
      }
      if FindUserByEmail(users, email).Some? {
        return Failure(DuplicateEmail);
      }
      var u := NewUser(nextId, email, password, extra.(isSuperuser := None), hash);
      NewUserIgnoresSuperuser(nextId, email, password, extra, hash, None);
      users := users + [u];
      nextId := nextId + 1;
      r := Success(u);
    }

    /** `CustomUserManager.create_superuser`: `is_staff` and `is_active` default to
        true, and anything but `is_staff=True` is refused before the email is looked at. */
    method CreateSuperuser(email: string, password: Option<string>, extra: ExtraFields, hash: Hasher)
      returns (r: Result<User, ManagerError>)
      requires Valid()
      modifies this`users, this`nextId
      ensures Valid()
      ensures extra.isStaff.Some? && !extra.isStaff.value ==> r == Failure(StaffRequired)
      ensures r.Failure? ==> users == old(users) && nextId == old(nextId)
      ensures OrElse(extra.isStaff, true) && email != "" && email !in Emails(old(users)) ==>
                r.Success? && users == old(users) + [r.value] &&
                r.value.isStaff && r.value.isActive == OrElse(extra.isActive, true)
    {
      var withDefaults := extra.(isStaff := Some(OrElse(extra.isStaff, true)),
                                 isActive := Some(OrElse(extra.isActive, true)),
                                 isSuperuser := None);
      if withDefaults.isStaff != Some(true) {
        return Failure(StaffRequired);
      }
      r := CreateUser(email, password, withDefaults, hash);
    }

    /** `user.set_password(raw); user.save()`. */
    method SetPassword(id: Id, raw: string, hash: Hasher)
      requires Valid()
      requires id in UserIds(users)
      modifies this`users
      ensures Valid()
      ensures |users| == |old(users)|
      ensures forall i :: 0 <= i < |users| ==>
                users[i] == if old(users)[i].id == id then old(users)[i].(password := hash(raw)) else old(users)[i]
    {
      var i := UserIndex(users, id);
      RowUpdateKeepsUsers(users, nextId, i, users[i].(password := hash(raw)));
      users := users[i := users[i].(password := hash(raw))];
    }

    /** `User.delete(soft_delete)`: the default soft delete deactivates and stamps the
        row and keeps it; a hard delete removes it, together with the user's sessions
        and role assignments, and clears the assigner of assignments the user made. */
    method Delete(id: Id, softDelete: bool, now: Time)
      requires Valid()
      requires id in UserIds(users)
      modifies this`users, this`sessions, this`userRoles
      ensures Valid()
      ensures softDelete ==> sessions == old(sessions) && userRoles == old(userRoles) && |users| == |old(users)|
      ensures softDelete ==> forall i :: 0 <= i < |users| ==>
                users[i] == if old(users)[i].id == id then SoftDeleted(old(users)[i], now) else old(users)[i]
      ensures !softDelete ==> users == WithoutUser(old(users), id) && sessions == SessionsNotOf(old(sessions), id) &&
                              userRoles == AssignmentsAfterDelete(old(userRoles), id)
    {
      if softDelete {
        var i := UserIndex(users, id);
        RowUpdateKeepsUsers(users, nextId, i, SoftDeleted(users[i], now));
        users := users[i := SoftDeleted(users[i], now)];
      } else {
        HardDeleteKeepsValid(users, sessions, roles, userRoles, nextId, id);
        users := WithoutUser(users, id);
        sessions := SessionsNotOf(sessions, id);
        userRoles := AssignmentsAfterDelete(userRoles, id);
      }
    }

    /** `create_session`: insert a new session for an existing user. */
    method InsertSession(user: Id, token: string, now: Time) returns (s: Session)
      requires Valid()
      requires user in UserIds(users)
      modifies this`sessions, this`nextId
      ensures Valid()
      ensures s == Sessions.NewSession(old(nextId), user, token, now)
      ensures sessions == old(sessions) + [s] && nextId == old(nextId) + 1
      ensures forall t :: t in old(sessions) ==> t.id != s.id
    {
      s := Sessions.NewSession(nextId, user, token, now);
      sessions := sessions + [s];
      nextId := nextId + 1;
    }

    /** `Session.objects.filter(...).update(is_active=False)`: deactivates what the
        filter selects and returns the number of rows it selected. */
    method RevokeWhere(f: Sessions.Filter) returns (count: nat)
      requires Valid()
      modifies this`sessions
      ensures Valid()
      ensures sessions == Sessions.Revoke(old(sessions), f)
      ensures count == Sessions.Count(old(sessions), f)
    {
      var table;
      table, count := Sessions.RevokeRows(sessions, f);
      SameKeysKeepsSessions(sessions, table, users, nextId);
      sessions := table;
    }

    /** `UserRoles.objects.create(user=..., role=...)`; the unique (user, role)
        constraint refuses a second assignment of the same role. */
    method AssignRole(user: Id, role: Id, assignedBy: Option<Id>) returns (r: Option<UserRole>)
      requires Valid()
      requires user in UserIds(users) && role in RoleIds(roles)
      requires assignedBy.Some? ==> assignedBy.value in UserIds(users)
      modifies this`userRoles, this`nextId
      ensures Valid()
      ensures r.None? <==> exists a :: a in old(userRoles) && a.user == user && a.role == role
      ensures r.None? ==> userRoles == old(userRoles) && nextId == old(nextId)
      ensures r.Some? ==> r.value == UserRole(old(nextId), user, role, assignedBy) &&
                          userRoles == old(userRoles) + [r.value] && nextId == old(nextId) + 1
    {
      if HasAssignment(userRoles, user, role) {
        return None;
      }
      var a := UserRole(nextId, user, role, assignedBy);
      userRoles := userRoles + [a];
      nextId := nextId + 1;
      r := Some(a);
    }
  }
}
