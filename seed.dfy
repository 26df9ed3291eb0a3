/** The `seed_data` management command: the fixed business elements, roles,
    access-rule table and demo users, created with `get_or_create` so that a
    second run finds everything and changes nothing. */
module Seed {
  import opened Base
  import opened Models
  import Sessions
  import Store
  import Authentication

  // ---------------------------------------------------------------------------
  // The data tables. Element types and role names are the fixed vocabularies
  // of the command; the text the store keeps for each is given by `TypeCode`
  // and `RoleNameOf`.

  datatype ElementType = UserElement | ProductElement | OrderElement | ShopElement | AccessRuleElement

  datatype RoleKey = AdminKey | ManagerKey | UserKey | GuestKey

  /** The `element_type` column's text. */
  function TypeCode(t: ElementType): string {
    match t
    case UserElement => "user"
    case ProductElement => "product"
    case OrderElement => "order"
    case ShopElement => "shop"
    case AccessRuleElement => "access_rule"
  }

  /** The role's `name` column. */
  function RoleNameOf(k: RoleKey): string {
    match k
    case AdminKey => "admin"
    case ManagerKey => "manager"
    case UserKey => "user"
    case GuestKey => "guest"
  }

  datatype ElementSeed = ElementSeed(name: string, elementType: ElementType, description: string)

  datatype RoleSeed = RoleSeed(key: RoleKey, description: string, isDefault: bool)

  /** The five flags of a rule row, in the order read, read_all, create,
      update, delete. */
  datatype Perms = Perms(read: bool, readAll: bool, create: bool, update: bool, delete: bool)

  datatype RuleSeed = RuleSeed(role: RoleKey, element: ElementType, perms: Perms)

  datatype UserSeed = UserSeed(email: string, firstName: string, lastName: string, password: string,
                               isActive: bool, isStaff: bool, role: RoleKey)

  /** `elements_data`: the element types in table order, and each type's row. */
  const ElementOrder: seq<ElementType> := [UserElement, ProductElement, OrderElement, ShopElement, AccessRuleElement]

  function ElementRow(t: ElementType): (row: ElementSeed)
    ensures row.elementType == t
  {
    match t
    case UserElement => ElementSeed("Пользователи", UserElement, "Управдение пользователями системы")
    case ProductElement => ElementSeed("Товары", ProductElement, "Управление товарами")
    case OrderElement => ElementSeed("Заказы", OrderElement, "Управление заказами")
    case ShopElement => ElementSeed("Магазины", ShopElement, "Управление магазинами")
    case AccessRuleElement => ElementSeed("Правила доступа", AccessRuleElement, "Управление правилами доступа")
  }

  /** `roles_data`: the roles in table order, and each role's row. */
  const RoleOrder: seq<RoleKey> := [AdminKey, ManagerKey, UserKey, GuestKey]

  function RoleRow(k: RoleKey): (row: RoleSeed)
    ensures row.key == k
  {
    match k
    case AdminKey => RoleSeed(AdminKey, "Администратор системы", true)
    case ManagerKey => RoleSeed(ManagerKey, "Менеджер", false)
    case UserKey => RoleSeed(UserKey, "Пользователь", true)
    case GuestKey => RoleSeed(GuestKey, "Гость", false)
  }

  const All := Perms(true, true, true, true, true)
  const NoPerms := Perms(false, false, false, false, false)

  /** `rules_data`. */
  const RulesData: seq<RuleSeed> := [
    RuleSeed(AdminKey, UserElement, All),
    RuleSeed(AdminKey, ProductElement, All),
    RuleSeed(AdminKey, OrderElement, All),
    RuleSeed(AdminKey, ShopElement, All),
    RuleSeed(AdminKey, AccessRuleElement, All),

    RuleSeed(ManagerKey, UserElement, Perms(true, true, false, false, false)),
    RuleSeed(ManagerKey, ProductElement, Perms(true, true, true, true, false)),
    RuleSeed(ManagerKey, OrderElement, Perms(true, true, true, true, false)),
    RuleSeed(ManagerKey, ShopElement, Perms(true, true, true, true, false)),
    RuleSeed(ManagerKey, AccessRuleElement, NoPerms),

    RuleSeed(UserKey, UserElement, Perms(true, false, false, true, false)),
    RuleSeed(UserKey, ProductElement, All),
    RuleSeed(UserKey, OrderElement, Perms(true, false, true, true, true)),
    RuleSeed(UserKey, ShopElement, Perms(true, true, false, false, false)),
    RuleSeed(UserKey, AccessRuleElement, NoPerms),

    RuleSeed(GuestKey, UserElement, NoPerms),
    RuleSeed(GuestKey, ProductElement, Perms(false, true, false, false, false)),
    RuleSeed(GuestKey, OrderElement, NoPerms),
    RuleSeed(GuestKey, ShopElement, Perms(false, true, false, false, false)),
    RuleSeed(GuestKey, AccessRuleElement, NoPerms)
  ]

  /** `users_data`. */
  const UsersData: seq<UserSeed> := [
    UserSeed("admin@example.com", "Админ", "Системы", "admin123", true, true, AdminKey),
    UserSeed("manager@example.com", "Менеджер", "Отдела", "manager123", true, false, ManagerKey),
    UserSeed("user@example.com", "Иван", "Петров", "user123", true, false, UserKey),
    UserSeed("guest@example.com", "Гость", "Тестовый", "guest123", true, false, GuestKey)
  ]

  const AdminEmail: string := "admin@example.com"

  predicate AnyPermission(p: Perms) {
    p.read || p.readAll || p.create || p.update || p.delete
  }

  // ---------------------------------------------------------------------------
  // What the tables promise.

  /** The position of an element type in the element table. */
  function TypeIndex(t: ElementType): (k: nat)
    ensures k < |ElementOrder| && ElementOrder[k] == t
  {
    match t
    case UserElement => 0
    case ProductElement => 1
    case OrderElement => 2
    case ShopElement => 3
    case AccessRuleElement => 4
  }

  /** The position of a role in the role table. */
  function RoleIndex(r: RoleKey): (k: nat)
    ensures k < |RoleOrder| && RoleOrder[k] == r
  {
    match r
    case AdminKey => 0
    case ManagerKey => 1
    case UserKey => 2
    case GuestKey => 3
  }

  /** Each table lists every key exactly once. */
  lemma OrdersListEachKeyOnce()
    ensures forall k :: 0 <= k < |ElementOrder| ==> TypeIndex(ElementOrder[k]) == k
    ensures forall k :: 0 <= k < |RoleOrder| ==> RoleIndex(RoleOrder[k]) == k
  {
  }

  /** Where the row of role r on element type t sits in the rule table. */
  function RuleIndex(r: RoleKey, t: ElementType): nat {
    |ElementOrder| * RoleIndex(r) + TypeIndex(t)
  }

  /** Distinct roles have distinct names, as `Role.name` is unique. */
  lemma RoleNamesDistinct()
    ensures forall a, b :: RoleNameOf(a) == RoleNameOf(b) ==> a == b
  {
  }

  /** The rule table is the roles crossed with the elements, both in table
      order. */
  lemma RuleTableShape()
    ensures |RulesData| == |RoleOrder| * |ElementOrder| == 20
    ensures forall k :: 0 <= k < |RulesData| ==>
              RulesData[k].role == RoleOrder[k / 5] && RulesData[k].element == ElementOrder[k % 5]
  {
  }

  /** The rule table names every (role, element type) pair exactly once, as the
      (role, element) uniqueness of rules requires: the row at RuleIndex(r, t)
      is the pair's, and no two rows share a pair. */
  lemma {:induction false} RuleTableIsComplete()
    ensures forall i, j :: 0 <= i < j < |RulesData| ==>
              RulesData[i].role != RulesData[j].role || RulesData[i].element != RulesData[j].element
    ensures forall r, t :: RuleIndex(r, t) < |RulesData| &&
                           RulesData[RuleIndex(r, t)].role == r && RulesData[RuleIndex(r, t)].element == t
    ensures forall k :: 0 <= k < |RulesData| ==> RuleIndex(RulesData[k].role, RulesData[k].element) == k
  {
    RuleTableShape();
    OrdersListEachKeyOnce();
    forall i, j | 0 <= i < j < |RulesData|
      ensures RulesData[i].role != RulesData[j].role || RulesData[i].element != RulesData[j].element
    {
      assert i == 5 * (i / 5) + i % 5 && j == 5 * (j / 5) + j % 5;
      if i / 5 == j / 5 {
        assert i % 5 != j % 5;
        assert TypeIndex(RulesData[i].element) != TypeIndex(RulesData[j].element);
      } else {
        assert RoleIndex(RulesData[i].role) != RoleIndex(RulesData[j].role);
      }
    }
    forall r, t
      ensures RuleIndex(r, t) < |RulesData| && RulesData[RuleIndex(r, t)].role == r && RulesData[RuleIndex(r, t)].element == t
    {
      var k := RuleIndex(r, t);
      assert k / 5 == RoleIndex(r) && k % 5 == TypeIndex(t);
    }
    forall k | 0 <= k < |RulesData| ensures RuleIndex(RulesData[k].role, RulesData[k].element) == k {
      assert RoleIndex(RulesData[k].role) == k / 5 && TypeIndex(RulesData[k].element) == k % 5;
    }
  }

  /** admin holds all five permissions on every element. */
  lemma AdminHoldsEverything()
    ensures forall k :: 0 <= k < |RulesData| && RulesData[k].role == AdminKey ==> RulesData[k].perms == All
  {
  }

  /** Nobody but admin holds any permission on the access rules themselves. */
  lemma OnlyAdminOnAccessRules()
    ensures forall k :: 0 <= k < |RulesData| && RulesData[k].element == AccessRuleElement && AnyPermission(RulesData[k].perms) ==>
              RulesData[k].role == AdminKey
  {
  }

  /** guest may only read all products and all shops. */
  lemma GuestReadsAllProductsAndShopsOnly()
    ensures forall k :: 0 <= k < |RulesData| && RulesData[k].role == GuestKey ==>
              var p := RulesData[k].perms;
              !p.read && !p.create && !p.update && !p.delete &&
              (p.readAll <==> RulesData[k].element == ProductElement || RulesData[k].element == ShopElement)
  {
  }

  /** admin and user are default roles; manager and guest are not. */
  lemma DefaultRoles()
    ensures forall k :: RoleRow(k).isDefault <==> k == AdminKey || k == UserKey
  {
  }

  /** The roles a first run creates on an empty store, in creation order. */
  function FreshRoles(first: Id): (roles: seq<Role>)
    ensures |roles| == |RoleOrder|
    ensures forall k :: 0 <= k < |roles| ==>
              roles[k] == Role(first + k, RoleNameOf(RoleOrder[k]), RoleRow(RoleOrder[k]).description, RoleRow(RoleOrder[k]).isDefault)
  {
    seq(|RoleOrder|, k requires 0 <= k < |RoleOrder| =>
      Role(first + k, RoleNameOf(RoleOrder[k]), RoleRow(RoleOrder[k]).description, RoleRow(RoleOrder[k]).isDefault))
  }

  /** On a freshly seeded store registration's default role (the most recently
      created default role) is user, not admin. */
  lemma {:induction false} RegistrationRoleAfterSeeding(first: Id)
    ensures LatestDefaultRole(FreshRoles(first)).Some?
    ensures LatestDefaultRole(FreshRoles(first)).value.name == "user"
  {
    var roles := FreshRoles(first);
    assert roles[3].name == "guest" && !roles[3].isDefault;
    assert roles[..3][2].isDefault && roles[..3][2].name == "user";
    assert roles[..|roles| - 1] == roles[..3];
    assert LatestDefaultRole(roles[..3]) == Some(roles[2]);
  }

  // ---------------------------------------------------------------------------
  // What "seeded" means for a store.

  /** The element the command keeps for an element type (`elements[element_type]`):
      the first row with the type's name and code. */
  function SeededElement(elements: seq<BusinessElement>, t: ElementType): Option<BusinessElement> {
    Store.FindElement(elements, ElementRow(t).name, TypeCode(t))
  }

  /** The role the command keeps for a role name (`roles[name]`). */
  function SeededRole(roles: seq<Role>, k: RoleKey): Option<Role> {
    Store.FindRoleByName(roles, RoleNameOf(k))
  }

  predicate ElementsSeeded(elements: seq<BusinessElement>) {
    forall t :: SeededElement(elements, t).Some?
  }

  predicate RolesSeeded(roles: seq<Role>) {
    forall k :: SeededRole(roles, k).Some?
  }

  /** Every (role, element) pair has its rule. */
  predicate RulesSeeded(rules: seq<AccessRoleRule>, roles: seq<Role>, elements: seq<BusinessElement>) {
    RolesSeeded(roles) && ElementsSeeded(elements) &&
    forall k, t :: Store.FindRule(rules, SeededRole(roles, k).value.id, SeededElement(elements, t).value.id).Some?
  }

  predicate UsersSeeded(users: seq<User>) {
    EmailsPresent(UsersData, users)
  }

  /** Every data row's email belongs to some user. */
  predicate EmailsPresent(data: seq<UserSeed>, users: seq<User>) {
    forall k :: 0 <= k < |data| ==> data[k].email in Store.Emails(users)
  }

  /** The admin user has exactly one session, active or not. */
  predicate AdminSessionSeeded(users: seq<User>, sessions: seq<Session>) {
    Store.FindUserByEmail(users, AdminEmail).Some? &&
    |Store.SessionsOf(sessions, Store.FindUserByEmail(users, AdminEmail).value.id)| == 1
  }

  predicate IsSeeded(users: seq<User>, sessions: seq<Session>, roles: seq<Role>, elements: seq<BusinessElement>,
                     rules: seq<AccessRoleRule>) {
    RulesSeeded(rules, roles, elements) && UsersSeeded(users) && AdminSessionSeeded(users, sessions)
  }

  /** The rule a row of the table creates, flags in column order. */
  function RuleRow(seed: RuleSeed, id: Id, role: Id, element: Id): (rule: AccessRoleRule)
    ensures rule.id == id && rule.role == role && rule.element == element
    ensures rule.readPermission == seed.perms.read && rule.readAllPermission == seed.perms.readAll
    ensures rule.createPermission == seed.perms.create && rule.updatePermission == seed.perms.update
    ensures rule.deletePermission == seed.perms.delete
  {
    AccessRoleRule(id, role, element, seed.perms.read, seed.perms.readAll, seed.perms.create, seed.perms.update, seed.perms.delete)
  }

  /** A user row as a created seed user ends up: the row's defaults, then the
      hashed password. */
  predicate SeedUserRow(u: User, seed: UserSeed, hash: Hasher) {
    u.email == seed.email && u.firstName == seed.firstName && u.lastName == seed.lastName &&
    u.middleName == "" && u.password == hash(seed.password) &&
    u.isActive == seed.isActive && u.isStaff == seed.isStaff && u.deletedAt == None
  }

  // ---------------------------------------------------------------------------
  // The command, one loop per table. Each loop works on the table's value and
  // the next identifier; `Handle` writes the results back to the store.

  /** `roles[name].id` once the roles are seeded. */
  function RoleId(roles: seq<Role>, k: RoleKey): Id
    requires RolesSeeded(roles)
  {
    SeededRole(roles, k).value.id
  }

  /** `elements[element_type].id` once the elements are seeded. */
  function ElementId(elements: seq<BusinessElement>, t: ElementType): Id
    requires ElementsSeeded(elements)
  {
    SeededElement(elements, t).value.id
  }

  /** What the business-element loop keeps after its first `count` rows,
      started from `elements` and `next`. */
  ghost predicate ElementLoop(elements: seq<BusinessElement>, next: Id, table: seq<BusinessElement>, after: Id,
                              count: nat) {
    Store.ElementsValid(table, after) && next <= after && elements <= table && |table| <= |elements| + count &&
    (forall t :: TypeIndex(t) < count ==> SeededElement(table, t).Some?) &&
    NewElementsFromData(elements, table) &&
    (ElementsSeeded(elements) ==> table == elements && after == next)
  }

  /** Every element row past `elements` was created from a row of the element
      table, with that row's name, type code and description. */
  ghost predicate NewElementsFromData(elements: seq<BusinessElement>, table: seq<BusinessElement>) {
    forall j :: |elements| <= j < |table| ==>
      exists t :: table[j] == BusinessElement(table[j].id, ElementRow(t).name, TypeCode(t), ElementRow(t).description)
  }

  /** Appending the element created from the row of type t keeps
      `NewElementsFromData`. */
  lemma {:induction false} NewElementStep(elements: seq<BusinessElement>, table: seq<BusinessElement>, e: BusinessElement,
                                          t: ElementType)
    requires |elements| <= |table| && NewElementsFromData(elements, table)
    requires e == BusinessElement(e.id, ElementRow(t).name, TypeCode(t), ElementRow(t).description)
    ensures NewElementsFromData(elements, table + [e])
  {
    var table' := table + [e];
    forall j | |elements| <= j < |table'|
      ensures exists x :: table'[j] == BusinessElement(table'[j].id, ElementRow(x).name, TypeCode(x), ElementRow(x).description)
    {
      if j < |table| {
        assert table'[j] == table[j];
      } else {
        assert table'[j] == BusinessElement(table'[j].id, ElementRow(t).name, TypeCode(t), ElementRow(t).description);
      }
    }
  }

  /** One pass of the business-element loop keeps `ElementLoop` for one more row. */
  lemma {:induction false} ElementStep(elements: seq<BusinessElement>, next: Id, table: seq<BusinessElement>, after: Id,
                                       i: nat)
    requires i < |ElementOrder| && ElementLoop(elements, next, table, after, i)
    ensures var row := ElementRow(ElementOrder[i]);
            var r := Store.GetOrCreateElement(table, after, row.name, TypeCode(row.elementType), row.description);
            ElementLoop(elements, next, r.table, r.next, i + 1)
  {
    var row := ElementRow(ElementOrder[i]);
    var r := Store.GetOrCreateElement(table, after, row.name, TypeCode(row.elementType), row.description);
    assert TypeIndex(row.elementType) == i by {
      OrdersListEachKeyOnce();
    }
    if r.created {
      forall t | TypeIndex(t) < i ensures SeededElement(r.table, t).Some? {
        Store.FindElementAppend(table, r.row, ElementRow(t).name, TypeCode(t));
      }
      NewElementStep(elements, table, r.row, row.elementType);
      assert !ElementsSeeded(elements) by {
        assert SeededElement(table, row.elementType).None?;
      }
    }
  }

  /** The business-element loop: each row is fetched by (name, type) or created
      with its description. */
  method SeedElementRows(elements: seq<BusinessElement>, next: Id) returns (table: seq<BusinessElement>, after: Id)
    requires Store.ElementsValid(elements, next)
    ensures Store.ElementsValid(table, after) && next <= after
    ensures elements <= table && |table| <= |elements| + |ElementOrder|
    ensures ElementsSeeded(table)
    ensures NewElementsFromData(elements, table)
    ensures ElementsSeeded(elements) ==> table == elements && after == next
  {
    table, after := elements, next;
    var i := 0;
    while i < |ElementOrder|
      invariant 0 <= i <= |ElementOrder|
      invariant ElementLoop(elements, next, table, after, i)
    {
      ElementStep(elements, next, table, after, i);
      var row := ElementRow(ElementOrder[i]);
      var r := Store.GetOrCreateElement(table, after, row.name, TypeCode(row.elementType), row.description);
      table, after := r.table, r.next;
      i := i + 1;
    }
  }

  /** What the role loop keeps after its first `count` rows, started from
      `roles` and `next`. */
  ghost predicate RoleLoop(roles: seq<Role>, next: Id, table: seq<Role>, after: Id, count: nat) {
    RolesKept(roles, next, table, after, count) && NewRolesFromData(roles, table) &&
    FreshSoFar(roles, next, table, after, count)
  }

  /** Started from an empty table, the loop has created the first `count`
      roles of `FreshRoles`. */
  ghost predicate FreshSoFar(roles: seq<Role>, next: Id, table: seq<Role>, after: Id, count: nat) {
    roles == [] ==> count <= |RoleOrder| && table == FreshRoles(next)[..count] && after == next + count
  }

  /** The table stays valid and only grows, the first `count` roles are
      present, and a seeded table is left alone. */
  ghost predicate RolesKept(roles: seq<Role>, next: Id, table: seq<Role>, after: Id, count: nat) {
    Store.RolesValid(table, after) && next <= after && roles <= table && |table| <= |roles| + count &&
    (forall k :: RoleIndex(k) < count ==> SeededRole(table, k).Some?) &&
    (RolesSeeded(roles) ==> table == roles && after == next)
  }

  /** Every role row past `roles` was created from a row of the role table,
      with that row's name, description and default flag. */
  ghost predicate NewRolesFromData(roles: seq<Role>, table: seq<Role>) {
    forall j :: |roles| <= j < |table| ==>
      exists k :: table[j] == Role(table[j].id, RoleNameOf(k), RoleRow(k).description, RoleRow(k).isDefault)
  }

  /** Appending the role created from the row of role k keeps
      `NewRolesFromData`. */
  lemma {:induction false} NewRoleStep(roles: seq<Role>, table: seq<Role>, x: Role, k: RoleKey)
    requires |roles| <= |table| && NewRolesFromData(roles, table)
    requires x == Role(x.id, RoleNameOf(k), RoleRow(k).description, RoleRow(k).isDefault)
    ensures NewRolesFromData(roles, table + [x])
  {
    var table' := table + [x];
    forall j | |roles| <= j < |table'|
      ensures exists y :: table'[j] == Role(table'[j].id, RoleNameOf(y), RoleRow(y).description, RoleRow(y).isDefault)
    {
      if j < |table| {
        assert table'[j] == table[j];
      } else {
        assert table'[j] == Role(table'[j].id, RoleNameOf(k), RoleRow(k).description, RoleRow(k).isDefault);
      }
    }
  }

  /** Every role the command creates is a default role exactly when it is admin
      or user. */
  lemma {:induction false} CreatedRolesDefaultAsData(roles: seq<Role>, table: seq<Role>)
    requires NewRolesFromData(roles, table)
    ensures forall j :: |roles| <= j < |table| ==> (table[j].isDefault <==> table[j].name in {"admin", "user"})
  {
    forall j | |roles| <= j < |table| ensures table[j].isDefault <==> table[j].name in {"admin", "user"} {
      var k :| table[j] == Role(table[j].id, RoleNameOf(k), RoleRow(k).description, RoleRow(k).isDefault);
      DefaultRoles();
    }
  }

  /** On an empty role table, the role loop's next pass creates the next role
      of `FreshRoles`. */
  lemma {:induction false} FreshRoleStep(roles: seq<Role>, next: Id, table: seq<Role>, after: Id, i: nat)
    requires i < |RoleOrder| && FreshSoFar(roles, next, table, after, i)
    ensures var row := RoleRow(RoleOrder[i]);
            var r := Store.GetOrCreateRole(table, after, RoleNameOf(row.key), row.description, row.isDefault);
            FreshSoFar(roles, next, r.table, r.next, i + 1)
  {
    if roles != [] {
      return;
    }
    var made := FreshRoles(next);
    var row := RoleRow(RoleOrder[i]);
    assert Store.FindRoleByName(table, RoleNameOf(row.key)).None? by {
      forall role | role in table ensures role.name != RoleNameOf(row.key) {
        var m :| 0 <= m < i && table[m] == role;
        RoleNamesDistinct();
        OrdersListEachKeyOnce();
        assert RoleIndex(RoleOrder[m]) != RoleIndex(RoleOrder[i]);
      }
    }
    assert made[..i + 1] == table + [made[i]];
  }

  /** One pass of the role loop keeps `RoleLoop` for one more row. */
  lemma {:induction false} RoleStep(roles: seq<Role>, next: Id, table: seq<Role>, after: Id, i: nat)
    requires i < |RoleOrder| && RoleLoop(roles, next, table, after, i)
    ensures var row := RoleRow(RoleOrder[i]);
            var r := Store.GetOrCreateRole(table, after, RoleNameOf(row.key), row.description, row.isDefault);
            RoleLoop(roles, next, r.table, r.next, i + 1)
  {
    var row := RoleRow(RoleOrder[i]);
    var r := Store.GetOrCreateRole(table, after, RoleNameOf(row.key), row.description, row.isDefault);
    RolesKeptStep(roles, next, table, after, i);
    if r.created {
      NewRoleStep(roles, table, r.row, row.key);
    }
    FreshRoleStep(roles, next, table, after, i);
  }

  /** One pass of the role loop keeps `RolesKept` for one more row. */
  lemma {:induction false} RolesKeptStep(roles: seq<Role>, next: Id, table: seq<Role>, after: Id, i: nat)
    requires i < |RoleOrder| && RolesKept(roles, next, table, after, i)
    ensures var row := RoleRow(RoleOrder[i]);
            var r := Store.GetOrCreateRole(table, after, RoleNameOf(row.key), row.description, row.isDefault);
            RolesKept(roles, next, r.table, r.next, i + 1)
  {
    var row := RoleRow(RoleOrder[i]);
    var r := Store.GetOrCreateRole(table, after, RoleNameOf(row.key), row.description, row.isDefault);
    assert RoleIndex(row.key) == i by {
      OrdersListEachKeyOnce();
    }
    if r.created {
      forall k | RoleIndex(k) < i ensures SeededRole(r.table, k).Some? {
        Store.FindRoleByNameAppend(table, r.row, RoleNameOf(k));
      }
      assert !RolesSeeded(roles) by {
        assert SeededRole(table, row.key).None?;
      }
    }
  }

  /** The role loop: each role is fetched by name or created with its
      description and default flag. */
  method SeedRoleRows(roles: seq<Role>, next: Id) returns (table: seq<Role>, after: Id)
    requires Store.RolesValid(roles, next)
    ensures Store.RolesValid(table, after) && next <= after
    ensures roles <= table && |table| <= |roles| + |RoleOrder|
    ensures RolesSeeded(table)
    ensures NewRolesFromData(roles, table)
    ensures roles == [] ==> table == FreshRoles(next)
    ensures RolesSeeded(roles) ==> table == roles && after == next
  {
    table, after := roles, next;
    var i := 0;
    while i < |RoleOrder|
      invariant 0 <= i <= |RoleOrder|
      invariant RoleLoop(roles, next, table, after, i)
    {
      RoleStep(roles, next, table, after, i);
      var row := RoleRow(RoleOrder[i]);
      var r := Store.GetOrCreateRole(table, after, RoleNameOf(row.key), row.description, row.isDefault);
      table, after := r.table, r.next;
      i := i + 1;
    }
    assert roles == [] ==> FreshRoles(next)[..|RoleOrder|] == FreshRoles(next);
  }

  /** Every rule row past `rules` was created from one of the first `count`
      rows of the rule table, with that row's role, element and flags. */
  ghost predicate NewRulesFromData(rules: seq<AccessRoleRule>, table: seq<AccessRoleRule>, roles: seq<Role>,
                                   elements: seq<BusinessElement>, count: nat)
    requires RolesSeeded(roles) && ElementsSeeded(elements) && count <= |RulesData|
  {
    forall j :: |rules| <= j < |table| ==>
      exists k :: 0 <= k < count &&
                  table[j] == RuleRow(RulesData[k], table[j].id, RoleId(roles, RulesData[k].role),
                                      ElementId(elements, RulesData[k].element))
  }

  /** Every (role, element) pair among the first `count` rows of the rule table
      has its rule in `table`. */
  ghost predicate RulePairsPresent(table: seq<AccessRoleRule>, roles: seq<Role>, elements: seq<BusinessElement>, count: nat)
    requires RolesSeeded(roles) && ElementsSeeded(elements)
  {
    forall r, t :: RuleIndex(r, t) < count ==> Store.FindRule(table, RoleId(roles, r), ElementId(elements, t)).Some?
  }

  /** One step of the rule loop keeps both facts, for one more row. */
  lemma {:induction false} RuleStep(rules: seq<AccessRoleRule>, table: seq<AccessRoleRule>, roles: seq<Role>,
                                    elements: seq<BusinessElement>, i: nat, next: Id, r: Store.Fetched<AccessRoleRule>)
    requires RolesSeeded(roles) && ElementsSeeded(elements) && i < |RulesData| && |rules| <= |table|
    requires NewRulesFromData(rules, table, roles, elements, i) && RulePairsPresent(table, roles, elements, i)
    requires var row := RulesData[i];
             r == Store.GetOrCreateRule(table, next, RoleId(roles, row.role),
                                        ElementId(elements, row.element), row.perms.read, row.perms.readAll,
                                        row.perms.create, row.perms.update, row.perms.delete)
    ensures NewRulesFromData(rules, r.table, roles, elements, i + 1) && RulePairsPresent(r.table, roles, elements, i + 1)
  {
    var row := RulesData[i];
    RuleTableIsComplete();
    forall x, t | RuleIndex(x, t) < i + 1
      ensures Store.FindRule(r.table, RoleId(roles, x), ElementId(elements, t)).Some?
    {
      if RuleIndex(x, t) == i {
        assert x == row.role && t == row.element;
      } else if r.created {
        Store.FindRuleAppend(table, r.row, RoleId(roles, x), ElementId(elements, t));
      }
    }
    if r.created {
      forall j | |rules| <= j < |r.table|
        ensures exists k :: 0 <= k < i + 1 &&
                            r.table[j] == RuleRow(RulesData[k], r.table[j].id, RoleId(roles, RulesData[k].role),
                                                  ElementId(elements, RulesData[k].element))
      {
        if j == |table| {
          assert r.table[j] == RuleRow(RulesData[i], r.table[j].id, RoleId(roles, RulesData[i].role),
                                       ElementId(elements, RulesData[i].element));
        } else {
          assert r.table[j] == table[j];
        }
      }
    }
  }

  /** The rule loop: each row's (role, element) rule is fetched, or created with
      the row's five flags. */
  method SeedRuleRows(rules: seq<AccessRoleRule>, next: Id, roles: seq<Role>, elements: seq<BusinessElement>)
    returns (table: seq<AccessRoleRule>, after: Id)
    requires RolesSeeded(roles) && ElementsSeeded(elements)
    requires Store.RulesValid(rules, roles, elements, next)
    ensures Store.RulesValid(table, roles, elements, after) && next <= after
    ensures rules <= table && |table| <= |rules| + |RulesData|
    ensures RulesSeeded(table, roles, elements)
    ensures NewRulesFromData(rules, table, roles, elements, |RulesData|)
    ensures RulesSeeded(rules, roles, elements) ==> table == rules && after == next
  {
    table, after := rules, next;
    var i := 0;
    while i < |RulesData|
      invariant 0 <= i <= |RulesData|
      invariant Store.RulesValid(table, roles, elements, after) && next <= after
      invariant rules <= table && |table| <= |rules| + i
      invariant RulePairsPresent(table, roles, elements, i)
      invariant NewRulesFromData(rules, table, roles, elements, i)
      invariant RulesSeeded(rules, roles, elements) ==> table == rules && after == next
    {
      var row := RulesData[i];
      var role, element := RoleId(roles, row.role), ElementId(elements, row.element);
      assert role in Store.RoleIds(roles) && element in Store.ElementIds(elements);
      var p := row.perms;
      var r := Store.GetOrCreateRule(table, after, role, element, p.read, p.readAll, p.create, p.update, p.delete);
      RuleStep(rules, table, roles, elements, i, after, r);
      table, after := r.table, r.next;
      i := i + 1;
    }
    RuleTableIsComplete();
    forall x, t ensures Store.FindRule(table, SeededRole(roles, x).value.id, SeededElement(elements, t).value.id).Some? {
      assert RuleIndex(x, t) < |RulesData|;
    }
  }

  /** Every user row past `users` was created from one of the first `count`
      data rows, with that row's role assigned. */
  ghost predicate NewUsersFromData(users: seq<User>, table: seq<User>, assignments: seq<UserRole>, roles: seq<Role>,
                                   hash: Hasher, data: seq<UserSeed>, count: nat)
    requires RolesSeeded(roles) && count <= |data|
  {
    forall j :: |users| <= j < |table| ==>
      exists k :: 0 <= k < count && SeedUserRow(table[j], data[k], hash) &&
                  Store.HasAssignment(assignments, table[j].id, RoleId(roles, data[k].role))
  }

  /** One created user keeps `NewUsersFromData` true for one more data row. */
  lemma NewUsersStep(users: seq<User>, table: seq<User>, assignments: seq<UserRole>, table': seq<User>,
                     assignments': seq<UserRole>, roles: seq<Role>, hash: Hasher, data: seq<UserSeed>, i: nat)
    requires RolesSeeded(roles) && i < |data|
    requires NewUsersFromData(users, table, assignments, roles, hash, data, i)
    requires |users| <= |table| && |table'| == |table| + 1 && table <= table' && assignments <= assignments'
    requires SeedUserRow(table'[|table|], data[i], hash)
    requires Store.HasAssignment(assignments', table'[|table|].id, RoleId(roles, data[i].role))
    ensures NewUsersFromData(users, table', assignments', roles, hash, data, i + 1)
  {
    forall j | |users| <= j < |table'|
      ensures exists k :: 0 <= k < i + 1 && SeedUserRow(table'[j], data[k], hash) &&
                          Store.HasAssignment(assignments', table'[j].id, RoleId(roles, data[k].role))
    {
      if j < |table| {
        var k :| 0 <= k < i && SeedUserRow(table[j], data[k], hash) &&
                 Store.HasAssignment(assignments, table[j].id, RoleId(roles, data[k].role));
        var b :| b in assignments && b.user == table[j].id && b.role == RoleId(roles, data[k].role);
        assert b in assignments';
        assert table'[j] == table[j];
      } else {
        assert SeedUserRow(table'[j], data[i], hash);
      }
    }
  }

  /** The user table, the assignment table and the next identifier, as the
      user loop carries them. */
  datatype UserTables = UserTables(users: seq<User>, assignments: seq<UserRole>, next: Id)

  /** One pass of the user loop: a user whose email is taken is left alone; a
      new one goes in with the row's fields and the hash of its password, and
      gets its one role assignment. */
  function SeedUser(s: UserTables, roles: seq<Role>, row: UserSeed, hash: Hasher): (r: UserTables)
    requires RolesSeeded(roles)
    ensures row.email in Store.Emails(s.users) <==> r == s
    ensures |r.users| - |s.users| == |r.assignments| - |s.assignments| <= 1
  {
    if row.email in Store.Emails(s.users) then s
    else
      var u := User(s.next, row.email, row.firstName, row.lastName, "", hash(row.password), row.isActive, row.isStaff,
                    None);
      UserTables(s.users + [u], s.assignments + [UserRole(s.next + 1, u.id, RoleId(roles, row.role), None)], s.next + 2)
  }

  /** The pass is the source's sequence of calls: `get_or_create` by email with
      the row's defaults; when that creates the user, `set_password` and `save`
      (the created row's password becomes the hash), then
      `UserRoles.objects.create(user=..., role=...)` under the next id. */
  lemma {:induction false} SeedUserIsGetOrCreate(s: UserTables, roles: seq<Role>, row: UserSeed, hash: Hasher)
    requires RolesSeeded(roles)
    ensures var f := Store.GetOrCreateUser(s.users, s.next, row.email, row.firstName, row.lastName, row.isActive,
                                           row.isStaff);
            SeedUser(s, roles, row, hash) ==
              if !f.created then UserTables(f.table, s.assignments, f.next)
              else
                var saved := f.row.(password := hash(row.password));
                UserTables(f.table[|s.users| := saved],
                           s.assignments + [UserRole(f.next, saved.id, RoleId(roles, row.role), None)], f.next + 1)
  {
    var f := Store.GetOrCreateUser(s.users, s.next, row.email, row.firstName, row.lastName, row.isActive, row.isStaff);
    if f.created {
      var saved := f.row.(password := hash(row.password));
      assert f.table[|s.users| := saved] == s.users + [saved];
    }
  }

  /** The tables the user loop carries stay valid and only grow, one assignment
      per user. */
  ghost predicate UserTablesKept(users: seq<User>, userRoles: seq<UserRole>, roles: seq<Role>, next: Id, s: UserTables) {
    Store.UsersValid(s.users, s.next) && Store.AssignmentsValid(s.assignments, s.users, roles, s.next) &&
    next <= s.next && users <= s.users && userRoles <= s.assignments &&
    |s.assignments| - |userRoles| == |s.users| - |users|
  }

  /** The first `count` data rows have their users, and every new user comes
      from one of them. */
  ghost predicate UserRowsPresent(users: seq<User>, roles: seq<Role>, hash: Hasher, data: seq<UserSeed>, s: UserTables,
                                  count: nat)
    requires RolesSeeded(roles) && count <= |data|
  {
    (forall k :: 0 <= k < count ==> data[k].email in Store.Emails(s.users)) &&
    NewUsersFromData(users, s.users, s.assignments, roles, hash, data, count)
  }

  /** What the user loop keeps after its first `count` passes, started from
      `users`, `userRoles` and `next`. */
  ghost predicate UserLoop(users: seq<User>, userRoles: seq<UserRole>, roles: seq<Role>, next: Id, hash: Hasher,
                           data: seq<UserSeed>, s: UserTables, count: nat)
    requires RolesSeeded(roles) && count <= |data|
  {
    UserTablesKept(users, userRoles, roles, next, s) && UserRowsPresent(users, roles, hash, data, s, count) &&
    (EmailsPresent(data, users) ==> s == UserTables(users, userRoles, next))
  }

  /** A new user inserted with one role assignment keeps both tables valid and
      adds exactly its email. */
  lemma AddUserKeepsValid(users: seq<User>, assignments: seq<UserRole>, roles: seq<Role>, next: Id, u: User, role: Id)
    requires Store.UsersValid(users, next) && Store.AssignmentsValid(assignments, users, roles, next)
    requires u.id == next && u.email !in Store.Emails(users) && role in Store.RoleIds(roles)
    ensures Store.UsersValid(users + [u], next + 2)
    ensures Store.AssignmentsValid(assignments + [UserRole(next + 1, u.id, role, None)], users + [u], roles, next + 2)
    ensures Store.HasAssignment(assignments + [UserRole(next + 1, u.id, role, None)], u.id, role)
    ensures Store.Emails(users + [u]) == Store.Emails(users) + {u.email}
  {
    var table := users + [u];
    var a := UserRole(next + 1, u.id, role, None);
    assert Store.UsersValid(table, next + 1);
    Store.GrowthKeepsReferences(users, roles, [], next, table, roles, [], next + 2, [], [], assignments);
    forall b | b in assignments ensures b.user != u.id {
      var owner :| owner in users && owner.id == b.user;
    }
    assert a in assignments + [a];
    assert Store.Emails(table) == Store.Emails(users) + {u.email} by {
      assert forall x :: x in table <==> x in users || x == u;
    }
  }

  /** One pass keeps `UserLoop` for one more data row. */
  lemma {:induction false} SeedUserStep(users: seq<User>, userRoles: seq<UserRole>, roles: seq<Role>, next: Id,
                                        hash: Hasher, data: seq<UserSeed>, s: UserTables, i: nat)
    requires RolesSeeded(roles) && i < |data|
    requires UserLoop(users, userRoles, roles, next, hash, data, s, i)
    ensures UserLoop(users, userRoles, roles, next, hash, data, SeedUser(s, roles, data[i], hash), i + 1)
  {
    if data[i].email in Store.Emails(s.users) {
      ExistingUserStep(users, userRoles, roles, next, hash, data, s, i);
    } else {
      NewUserStep(users, userRoles, roles, next, hash, data, s, i);
    }
  }

  /** The pass for a data row whose email is already taken changes nothing. */
  lemma ExistingUserStep(users: seq<User>, userRoles: seq<UserRole>, roles: seq<Role>, next: Id,
                         hash: Hasher, data: seq<UserSeed>, s: UserTables, i: nat)
    requires RolesSeeded(roles) && i < |data| && data[i].email in Store.Emails(s.users)
    requires UserLoop(users, userRoles, roles, next, hash, data, s, i)
    ensures UserLoop(users, userRoles, roles, next, hash, data, SeedUser(s, roles, data[i], hash), i + 1)
  {
    assert SeedUser(s, roles, data[i], hash) == s;
  }

  /** The pass for a data row with a new email creates that user and its
      assignment. */
  lemma NewUserStep(users: seq<User>, userRoles: seq<UserRole>, roles: seq<Role>, next: Id,
                    hash: Hasher, data: seq<UserSeed>, s: UserTables, i: nat)
    requires RolesSeeded(roles) && i < |data| && data[i].email !in Store.Emails(s.users)
    requires UserLoop(users, userRoles, roles, next, hash, data, s, i)
    ensures UserLoop(users, userRoles, roles, next, hash, data, SeedUser(s, roles, data[i], hash), i + 1)
  {
    NewUserKeepsTables(users, userRoles, roles, next, hash, s, data[i]);
    NewUserKeepsRows(users, roles, hash, data, s, i);
    assert !EmailsPresent(data, users) by {
      assert data[i].email !in Store.Emails(users) by {
        assert forall x :: x in users ==> x in s.users;
      }
    }
  }

  /** A created user and its assignment keep the tables valid. */
  lemma NewUserKeepsTables(users: seq<User>, userRoles: seq<UserRole>, roles: seq<Role>, next: Id, hash: Hasher,
                           s: UserTables, row: UserSeed)
    requires RolesSeeded(roles) && row.email !in Store.Emails(s.users)
    requires UserTablesKept(users, userRoles, roles, next, s)
    ensures UserTablesKept(users, userRoles, roles, next, SeedUser(s, roles, row, hash))
  {
    var u := User(s.next, row.email, row.firstName, row.lastName, "", hash(row.password), row.isActive, row.isStaff, None);
    var role := RoleId(roles, row.role);
    assert role in Store.RoleIds(roles);
    InsertKeepsTables(users, userRoles, roles, next, s, u, role);
  }

  /** Inserting a user and its assignment keeps the tables valid. */
  lemma InsertKeepsTables(users: seq<User>, userRoles: seq<UserRole>, roles: seq<Role>, next: Id, s: UserTables,
                          u: User, role: Id)
    requires UserTablesKept(users, userRoles, roles, next, s)
    requires u.id == s.next && u.email !in Store.Emails(s.users) && role in Store.RoleIds(roles)
    ensures UserTablesKept(users, userRoles, roles, next,
                           UserTables(s.users + [u], s.assignments + [UserRole(s.next + 1, u.id, role, None)], s.next + 2))
  {
    AddUserKeepsValid(s.users, s.assignments, roles, s.next, u, role);
    assert users <= s.users + [u] && userRoles <= s.assignments + [UserRole(s.next + 1, u.id, role, None)];
  }

  /** A created user carries the data rows one further. */
  lemma NewUserKeepsRows(users: seq<User>, roles: seq<Role>, hash: Hasher, data: seq<UserSeed>, s: UserTables, i: nat)
    requires RolesSeeded(roles) && i < |data| && data[i].email !in Store.Emails(s.users)
    requires Store.UsersValid(s.users, s.next) && |users| <= |s.users|
    requires UserRowsPresent(users, roles, hash, data, s, i)
    ensures UserRowsPresent(users, roles, hash, data, SeedUser(s, roles, data[i], hash), i + 1)
  {
    var row := data[i];
    var r := SeedUser(s, roles, row, hash);
    var u := r.users[|s.users|];
    var a := r.assignments[|s.assignments|];
    assert Store.HasAssignment(r.assignments, u.id, RoleId(roles, row.role)) by {
      assert a in r.assignments;
    }
    NewUsersStep(users, s.users, s.assignments, r.users, r.assignments, roles, hash, data, i);
    assert Store.Emails(r.users) == Store.Emails(s.users) + {u.email} by {
      assert forall x :: x in r.users <==> x in s.users || x == u;
    }
  }

  /** The user loop: a user that already exists is left alone; a new one is
      inserted with the row's defaults, then gets its password hashed and saved
      and its one role assignment. */
  method SeedUserRows(users: seq<User>, userRoles: seq<UserRole>, roles: seq<Role>, next: Id, hash: Hasher,
                      data: seq<UserSeed>)
    returns (table: seq<User>, assignments: seq<UserRole>, after: Id)
    requires RolesSeeded(roles)
    requires Store.UsersValid(users, next) && Store.AssignmentsValid(userRoles, users, roles, next)
    ensures Store.UsersValid(table, after) && Store.AssignmentsValid(assignments, table, roles, after) && next <= after
    ensures users <= table && userRoles <= assignments
    ensures EmailsPresent(data, table)
    ensures |assignments| - |userRoles| == |table| - |users|
    ensures NewUsersFromData(users, table, assignments, roles, hash, data, |data|)
    ensures EmailsPresent(data, users) ==> table == users && assignments == userRoles && after == next
  {
    var s := UserTables(users, userRoles, next);
    var i := 0;
    while i < |data|
      invariant 0 <= i <= |data|
      invariant UserLoop(users, userRoles, roles, next, hash, data, s, i)
    {
      SeedUserStep(users, userRoles, roles, next, hash, data, s, i);
      s := SeedUser(s, roles, data[i], hash);
      i := i + 1;
    }
    table, assignments, after := s.users, s.assignments, s.next;
  }

  /** `Session.objects.get_or_create(user=admin, defaults={token, expires_at, is_active})`:
      the admin's one session is kept whatever its state, a session bound to a
      freshly issued token is added when the admin has none, and several sessions
      raise MultipleObjectsReturned (`None`). */
  function AdminSession(users: seq<User>, sessions: seq<Session>, next: Id, encode: Authentication.Encoder, now: Time)
    : (r: Option<Store.Fetched<Session>>)
    requires AdminEmail in Store.Emails(users)
    ensures var admin := Store.FindUserByEmail(users, AdminEmail).value;
            r.None? <==> |Store.SessionsOf(sessions, admin.id)| >= 2
    ensures r.Some? ==> AdminSessionSeeded(users, r.value.table) && r.value.row in r.value.table
    ensures r.Some? && !r.value.created ==> r.value.table == sessions && r.value.next == next
    ensures var admin := Store.FindUserByEmail(users, AdminEmail).value;
            r.Some? && r.value.created ==>
              |Store.SessionsOf(sessions, admin.id)| == 0 && r.value.next == next + 1 &&
              r.value.row == Sessions.NewSession(next, admin.id, Authentication.GenerateToken(encode, admin, now), now) &&
              r.value.table == sessions + [r.value.row]
    ensures AdminSessionSeeded(users, sessions) ==> r.Some? && !r.value.created
    ensures r.Some? && Store.SessionsValid(sessions, users, next) ==>
              next <= r.value.next && Store.SessionsValid(r.value.table, users, r.value.next)
  {
    var admin := Store.FindUserByEmail(users, AdminEmail).value;
    var mine := Store.SessionsOf(sessions, admin.id);
    if |mine| >= 2 then None
    else if |mine| == 1 then Some(Store.Fetched(sessions, next, mine[0], false))
    else
      var s := Sessions.NewSession(next, admin.id, Authentication.GenerateToken(encode, admin, now), now);
      Store.SessionsOfAppend(sessions, s, admin.id);
      assert admin.id in Store.UserIds(users);
      Some(Store.Fetched(sessions + [s], next + 1, s, true))
  }

  /** A store whose users are seeded has the admin. */
  lemma AdminIsSeeded(users: seq<User>)
    requires UsersSeeded(users)
    ensures AdminEmail in Store.Emails(users)
  {
    assert UsersData[0].email == AdminEmail;
  }

  /** The first three steps of the command: elements, roles, then the rules
      that reference them. The catalog ends up seeded, and a seeded catalog is
      left as it is. */
  method SeedCatalog(elements: seq<BusinessElement>, roles: seq<Role>, rules: seq<AccessRoleRule>, next: Id)
    returns (elements': seq<BusinessElement>, roles': seq<Role>, rules': seq<AccessRoleRule>, next': Id)
    requires Store.ElementsValid(elements, next) && Store.RolesValid(roles, next)
    requires Store.RulesValid(rules, roles, elements, next)
    ensures Store.ElementsValid(elements', next') && Store.RolesValid(roles', next')
    ensures Store.RulesValid(rules', roles', elements', next')
    ensures next <= next' && elements <= elements' && roles <= roles' && rules <= rules'
    ensures RulesSeeded(rules', roles', elements')
    ensures NewElementsFromData(elements, elements') && NewRolesFromData(roles, roles')
    ensures NewRulesFromData(rules, rules', roles', elements', |RulesData|)
    ensures roles == [] ==> LatestDefaultRole(roles').Some? && LatestDefaultRole(roles').value.name == "user"
    ensures RulesSeeded(rules, roles, elements) ==>
              elements' == elements && roles' == roles && rules' == rules && next' == next
  {
    var next1, next2;
    elements', next1 := SeedElementRows(elements, next);
    roles', next2 := SeedRoleRows(roles, next1);
    if roles == [] {
      RegistrationRoleAfterSeeding(next1);
    }
    Store.GrowthKeepsReferences([], roles, elements, next, [], roles', elements', next2, [], rules, []);
    rules', next' := SeedRuleRows(rules, next2, roles', elements');
  }

  /** The last two steps of the command: the users with their roles, then the
      admin's session. `seeded` is false when the session step raises
      MultipleObjectsReturned; the users written before it stay. */
  method SeedPeople(users: seq<User>, sessions: seq<Session>, userRoles: seq<UserRole>, roles: seq<Role>, next: Id,
                    hash: Hasher, encode: Authentication.Encoder, now: Time)
    returns (users': seq<User>, sessions': seq<Session>, userRoles': seq<UserRole>, next': Id, seeded: bool)
    requires RolesSeeded(roles)
    requires Store.UsersValid(users, next) && Store.SessionsValid(sessions, users, next)
    requires Store.AssignmentsValid(userRoles, users, roles, next)
    ensures Store.UsersValid(users', next') && Store.SessionsValid(sessions', users', next')
    ensures Store.AssignmentsValid(userRoles', users', roles, next')
    ensures next <= next' && users <= users' && userRoles <= userRoles' && sessions <= sessions'
    ensures |userRoles'| - |userRoles| == |users'| - |users|
    ensures UsersSeeded(users') && NewUsersFromData(users, users', userRoles', roles, hash, UsersData, |UsersData|)
    ensures seeded ==> AdminSessionSeeded(users', sessions')
    ensures !seeded ==> sessions' == sessions
    ensures UsersSeeded(users) && AdminSessionSeeded(users, sessions) ==>
              seeded && users' == users && sessions' == sessions && userRoles' == userRoles && next' == next
  {
    var next4;
    users', userRoles', next4 := SeedUserRows(users, userRoles, roles, next, hash, UsersData);
    Store.GrowthKeepsReferences(users, roles, [], next, users', roles, [], next4, sessions, [], userRoles);
    AdminIsSeeded(users');
    var session := AdminSession(users', sessions, next4, encode, now);
    sessions', next' := sessions, next4;
    if session.Some? {
      sessions', next' := session.value.table, session.value.next;
    }
    seeded := session.Some?;
  }

  datatype SeedOutcome = Seeded | MultipleAdminSessions

  /** What a run of the command does to the tables however it ends: every
      table only grows, the catalog and the users are seeded, every new row
      comes from the data, and on an empty role table registration's default
      role becomes user. */
  ghost predicate SeededFrom(users: seq<User>, sessions: seq<Session>, roles: seq<Role>, elements: seq<BusinessElement>,
                             rules: seq<AccessRoleRule>, userRoles: seq<UserRole>,
                             users': seq<User>, sessions': seq<Session>, roles': seq<Role>,
                             elements': seq<BusinessElement>, rules': seq<AccessRoleRule>, userRoles': seq<UserRole>,
                             hash: Hasher) {
    users <= users' && sessions <= sessions' && roles <= roles' && elements <= elements' && rules <= rules' &&
    userRoles <= userRoles' &&
    RulesSeeded(rules', roles', elements') && UsersSeeded(users') &&
    NewElementsFromData(elements, elements') && NewRolesFromData(roles, roles') &&
    NewRulesFromData(rules, rules', roles', elements', |RulesData|) &&
    NewUsersFromData(users, users', userRoles', roles', hash, UsersData, |UsersData|) &&
    (roles == [] ==> LatestDefaultRole(roles').Some? && LatestDefaultRole(roles').value.name == "user")
  }

  /** `Command.handle`: elements, roles, rules, users, then the admin session,
      each step committed as it goes. A run ending normally leaves the store
      seeded, and a run on a seeded store changes nothing. */
  method Handle(db: Store.Db, hash: Hasher, encode: Authentication.Encoder, now: Time) returns (outcome: SeedOutcome)
    requires db.Valid()
    modifies db`users, db`sessions, db`roles, db`elements, db`rules, db`userRoles, db`nextId
    ensures db.Valid()
    ensures outcome == Seeded ==> IsSeeded(db.users, db.sessions, db.roles, db.elements, db.rules)
    ensures outcome == MultipleAdminSessions ==> db.sessions == old(db.sessions)
    ensures SeededFrom(old(db.users), old(db.sessions), old(db.roles), old(db.elements), old(db.rules), old(db.userRoles),
                       db.users, db.sessions, db.roles, db.elements, db.rules, db.userRoles, hash)
    ensures IsSeeded(old(db.users), old(db.sessions), old(db.roles), old(db.elements), old(db.rules)) ==>
              outcome == Seeded &&
              db.users == old(db.users) && db.sessions == old(db.sessions) && db.roles == old(db.roles) &&
              db.elements == old(db.elements) && db.rules == old(db.rules) && db.userRoles == old(db.userRoles) &&
              db.nextId == old(db.nextId)
  {
    var elements, roles, rules, next3 := SeedCatalog(db.elements, db.roles, db.rules, db.nextId);
    Store.GrowthKeepsReferences(db.users, db.roles, db.elements, db.nextId, db.users, roles, elements, next3,
                                db.sessions, rules, db.userRoles);
    var users, sessions, userRoles, next, seeded :=
      SeedPeople(db.users, db.sessions, db.userRoles, roles, next3, hash, encode, now);
    Store.LaterNextKeepsCatalog(roles, elements, rules, next3, next);
    db.elements, db.roles, db.rules, db.users, db.userRoles, db.sessions, db.nextId :=
      elements, roles, rules, users, userRoles, sessions, next;
    outcome := if seeded then Seeded else MultipleAdminSessions;
  }
}
