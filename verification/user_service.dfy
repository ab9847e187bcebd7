/**
 * User accounts (src/services/user_service.py): lookups, creation, paged
 * listing, partial update and soft (de)activation. Writes go through the
 * database's constraints: a write that would break a unique column or a
 * foreign key is refused at commit and leaves the tables as they were.
 */
module UserService {
  import opened Wrappers
  import opened Uuids
  import opened Collections
  import opened Db
  import opened Http

  function GetUserById(t: Tables, id: Uuid): (r: Option<User>)
    ensures r.Some? ==> r.value in t.users && r.value.id == id
    ensures r.None? <==> id !in UserIds(t)
  {
    FindBy(t.users, UserIdOf, id)
  }

  function GetUserByEmail(t: Tables, email: string): (r: Option<User>)
    ensures r.Some? ==> r.value in t.users && r.value.email == email
    ensures r.None? <==> forall u :: u in t.users ==> u.email != email
  {
    FindBy(t.users, UserEmailOf, email)
  }

  function GetUserByUsername(t: Tables, username: string): (r: Option<User>)
    ensures r.Some? ==> r.value in t.users && r.value.username == username
    ensures r.None? <==> forall u :: u in t.users ==> u.username != username
  {
    FindBy(t.users, UserUsernameOf, username)
  }

  /** In a consistent database each lookup returns THE user holding the key. */
  lemma LookupsFindTheUser(t: Tables, u: User)
    requires Consistent(t) && u in t.users
    ensures GetUserById(t, u.id) == Some(u)
    ensures GetUserByEmail(t, u.email) == Some(u)
    ensures GetUserByUsername(t, u.username) == Some(u)
  {
    FindUnique(t.users, UserIdOf, u);
    FindUnique(t.users, UserEmailOf, u);
    FindUnique(t.users, UserUsernameOf, u);
  }

  /** `check_role_exists`. */
  function CheckRoleExists(t: Tables, roleId: Uuid): (r: bool)
    ensures r <==> roleId in RoleIds(t)
  {
    FindBy(t.roles, RoleIdOf, roleId).Some?
  }

  /**
   * `get_role_by_name` of the user service. The body's `role_name` may be an
   * explicit null; `name == NULL` matches no row, `roles.name` being NOT NULL.
   */
  function GetRoleByName(t: Tables, roleName: Option<string>): (r: Option<Role>)
    ensures r.Some? ==> roleName.Some? && r.value in t.roles && r.value.name == roleName.value
    ensures r.None? <==> roleName.None? || forall role :: role in t.roles ==> role.name != roleName.value
  {
    match roleName
    case None => None
    case Some(name) => FindBy(t.roles, RoleNameOf, name)
  }

  /** The body of POST /users after schema validation. */
  datatype UserCreate = UserCreate(name: string, username: string, email: string, password: string, roleName: Option<string>)

  /** The Pydantic field bounds of UserCreate. */
  predicate UserCreateWellFormed(data: UserCreate) {
    && 1 <= |data.name| <= 150
    && 3 <= |data.username| <= 100
    && 8 <= |data.password| <= 100
  }

  /** The row `create_user` inserts: active, with the given role and creator, holding the digest. */
  function NewUser(id: Uuid, data: UserCreate, roleId: Uuid, createdBy: Uuid, hash: string -> string): User {
    User(id, data.name, data.username, data.email, hash(data.password), roleId, true, Some(Format(createdBy)), None)
  }

  /** Why the database would refuse to insert `u`, if it would. */
  function InsertUserConflict(t: Tables, u: User): (r: Option<DbError>)
    ensures r.None? <==>
      && (forall v :: v in t.users ==> v.email != u.email && v.username != u.username)
      && u.roleId in RoleIds(t)
  {
    if GetUserByEmail(t, u.email).Some? then Some(UniqueViolation("email"))
    else if GetUserByUsername(t, u.username).Some? then Some(UniqueViolation("username"))
    else if u.roleId !in RoleIds(t) then Some(ForeignKeyViolation("role_id"))
    else None
  }

  /** `create_user`; `newId` is the uuid4 the row receives. */
  method CreateUser(db: Store, data: UserCreate, roleId: Uuid, createdBy: Uuid, hash: string -> string, newId: Uuid)
    returns (r: Result<User, DbError>)
    requires db.Valid()
    requires UserCreateWellFormed(data)
    requires newId !in UserIds(db.Snapshot())
    modifies db
    ensures db.Valid()
    ensures r.Ok? <==> InsertUserConflict(old(db.Snapshot()), NewUser(newId, data, roleId, createdBy, hash)).None?
    ensures r.Ok? ==>
      && r.value == NewUser(newId, data, roleId, createdBy, hash)
      && db.Snapshot() == old(db.Snapshot()).(users := old(db.users) + [r.value])
    ensures r.Err? ==> db.Snapshot() == old(db.Snapshot())
  {
    var user := NewUser(newId, data, roleId, createdBy, hash);
    var conflict := InsertUserConflict(db.Snapshot(), user);
    if conflict.Some? {
      return Err(conflict.value);
    }
    ghost var t := db.Snapshot();
    UniqueByAppend(t.users, UserIdOf, user);
    UniqueByAppend(t.users, UserUsernameOf, user);
    UniqueByAppend(t.users, UserEmailOf, user);
    db.users := db.users + [user];
    assert UserIds(db.Snapshot()) == UserIds(t) + {newId};
    r := Ok(user);
  }

  /** The TypeError SQLAlchemy's declarative constructor raises for `password=`, a keyword `User` has no attribute for. */
  const PasswordKeywordError := "'password' is an invalid keyword argument for User"

  /**
   * The constructor call of `create_user` as written: it passes `password=`,
   * a keyword the User model does not declare (the column is
   * `password_hash`), and the declarative constructor refuses it before
   * anything reaches the session.
   */
  function NewUserAsWritten(id: Uuid, data: UserCreate, roleId: Uuid, createdBy: Uuid, hash: string -> string)
    : (r: Result<User, Fault>)
    ensures r.Err? && r.error.TypeError?
  {
    Err(TypeError(PasswordKeywordError))
  }

  /**
   * The discrepancy: a request the database would accept still fails as
   * written, while the repaired constructor stores the digest and the
   * insert succeeds.
   */
  lemma PasswordKeywordFinding(db: Tables, data: UserCreate, roleId: Uuid, createdBy: Uuid, hash: string -> string, newId: Uuid)
    requires InsertUserConflict(db, NewUser(newId, data, roleId, createdBy, hash)).None?
    ensures NewUserAsWritten(newId, data, roleId, createdBy, hash).Err?
    ensures NewUser(newId, data, roleId, createdBy, hash).passwordHash == hash(data.password)
    ensures NewUser(newId, data, roleId, createdBy, hash).roleId in RoleIds(db)
  {
  }

  /** `get_users_paginated`: filter on `is_active` only when given, count, then take the page. */
  function GetUsersPaginated(t: Tables, page: nat, pageSize: nat, isActive: Option<bool>): (r: (seq<User>, nat))
    requires page >= 1 && pageSize >= 1
    ensures forall u :: u in r.0 ==> u in t.users && (isActive.Some? ==> u.isActive == isActive.value)
    ensures isActive.None? ==> r.1 == |t.users|
    ensures r.1 == |ActiveFilter(t.users, isActive)|
    ensures |r.0| <= pageSize
    ensures r.0 == Page(NewestFirst(ActiveFilter(t.users, isActive)), page, pageSize)
  {
    var matching := ActiveFilter(t.users, isActive);
    (Page(NewestFirst(matching), page, pageSize), |matching|)
  }

  /** The users kept by an optional `is_active` filter, in table order. */
  function ActiveFilter(users: seq<User>, isActive: Option<bool>): (r: seq<User>)
    ensures forall u :: u in r <==> u in users && (isActive.Some? ==> u.isActive == isActive.value)
    ensures isActive.None? ==> r == users
  {
    if isActive.None? then users
    else Filter(users, (u: User) => u.isActive == isActive.value)
  }

  // ---- update_user ----------------------------------------------------------

  /** A field of an update body: left out, or sent (possibly as null). */
  datatype Patch<T> = Unset | Sent(value: Option<T>)

  datatype UserUpdate = UserUpdate(name: Patch<string>, username: Patch<string>, email: Patch<string>, isActive: Patch<bool>)

  /** One `(field, value)` item of `model_dump(exclude_unset=True)`. */
  datatype UserField =
    | NameField(name: Option<string>)
    | UsernameField(username: Option<string>)
    | EmailField(email: Option<string>)
    | IsActiveField(isActive: Option<bool>)

  /** `model_dump(exclude_unset=True).items()`: the sent fields, in declaration order. */
  function UserUpdateItems(data: UserUpdate): seq<UserField> {
    NameItems(data.name) + UsernameItems(data.username) + EmailItems(data.email) + IsActiveItems(data.isActive)
  }

  function NameItems(p: Patch<string>): seq<UserField> {
    if p.Sent? then [NameField(p.value)] else []
  }

  function UsernameItems(p: Patch<string>): seq<UserField> {
    if p.Sent? then [UsernameField(p.value)] else []
  }

  function EmailItems(p: Patch<string>): seq<UserField> {
    if p.Sent? then [EmailField(p.value)] else []
  }

  function IsActiveItems(p: Patch<bool>): seq<UserField> {
    if p.Sent? then [IsActiveField(p.value)] else []
  }

  /** One turn of the loop: `if value is not None: setattr(user, field, value)`. */
  function SetUserField(u: User, f: UserField): User {
    match f
    case NameField(v) => if v.Some? then u.(name := v.value) else u
    case UsernameField(v) => if v.Some? then u.(username := v.value) else u
    case EmailField(v) => if v.Some? then u.(email := v.value) else u
    case IsActiveField(v) => if v.Some? then u.(isActive := v.value) else u
  }

  /** The loop's effect after the items `fs`. */
  function SetUserFields(u: User, fs: seq<UserField>): User {
    Steps(u, fs, SetUserField)
  }

  /** A sent, non-null value replaces the field; anything else keeps the old one. */
  function Patched<T>(old_: T, p: Patch<T>): T {
    if p.Sent? && p.value.Some? then p.value.value else old_
  }

  /** What `update_user` promises: only fields sent with a value change. */
  function PatchedUser(u: User, data: UserUpdate): User {
    u.(name := Patched(u.name, data.name),
       username := Patched(u.username, data.username),
       email := Patched(u.email, data.email),
       isActive := Patched(u.isActive, data.isActive))
  }

  lemma ApplyNameItems(u: User, p: Patch<string>)
    ensures SetUserFields(u, NameItems(p)) == u.(name := Patched(u.name, p))
  {
    if p.Sent? { StepsSingle(u, NameField(p.value), SetUserField); }
  }

  lemma ApplyUsernameItems(u: User, p: Patch<string>)
    ensures SetUserFields(u, UsernameItems(p)) == u.(username := Patched(u.username, p))
  {
    if p.Sent? { StepsSingle(u, UsernameField(p.value), SetUserField); }
  }

  lemma ApplyEmailItems(u: User, p: Patch<string>)
    ensures SetUserFields(u, EmailItems(p)) == u.(email := Patched(u.email, p))
  {
    if p.Sent? { StepsSingle(u, EmailField(p.value), SetUserField); }
  }

  lemma ApplyIsActiveItems(u: User, p: Patch<bool>)
    ensures SetUserFields(u, IsActiveItems(p)) == u.(isActive := Patched(u.isActive, p))
  {
    if p.Sent? { StepsSingle(u, IsActiveField(p.value), SetUserField); }
  }

  /** Running the setattr loop over the dumped items yields PatchedUser. */
  lemma SetUserFieldsIsPatch(u: User, data: UserUpdate)
    ensures SetUserFields(u, UserUpdateItems(data)) == PatchedUser(u, data)
  {
    var n, un, e, a := NameItems(data.name), UsernameItems(data.username), EmailItems(data.email), IsActiveItems(data.isActive);
    StepsConcat(u, n + un + e, a, SetUserField);
    StepsConcat(u, n + un, e, SetUserField);
    StepsConcat(u, n, un, SetUserField);
    var u1 := SetUserFields(u, n);
    ApplyNameItems(u, data.name);
    var u2 := SetUserFields(u1, un);
    ApplyUsernameItems(u1, data.username);
    var u3 := SetUserFields(u2, e);
    ApplyEmailItems(u2, data.email);
    ApplyIsActiveItems(u3, data.isActive);
  }

  /** Why the database would refuse to store `u` over the row with its id, if it would. */
  function UpdateUserConflict(t: Tables, u: User): (r: Option<DbError>)
    ensures r.None? <==> forall v :: v in t.users && v.id != u.id ==> v.email != u.email && v.username != u.username
  {
    if exists v :: v in t.users && v.id != u.id && v.email == u.email then Some(UniqueViolation("email"))
    else if exists v :: v in t.users && v.id != u.id && v.username == u.username then Some(UniqueViolation("username"))
    else None
  }

  /** Storing a changed row that keeps its id and role and clashes with no other row keeps the database consistent. */
  lemma ReplaceUserKeepsConsistent(t: Tables, i: nat, u: User)
    requires Consistent(t) && i < |t.users|
    requires u.id == t.users[i].id && u.roleId == t.users[i].roleId
    requires UpdateUserConflict(t, u).None?
    ensures Consistent(t.(users := t.users[i := u]))
    ensures t.users[i := u] == ReplaceBy(t.users, UserIdOf, u)
  {
    var s := t.users;
    var s' := s[i := u];
    UniqueKeyAt(s, UserIdOf, i);
    forall j | 0 <= j < |s| && j != i ensures s[j].email != u.email && s[j].username != u.username {
      assert s[j] in t.users && s[j].id != u.id;
    }
    UniqueByUpdate(s, UserIdOf, i, u);
    UniqueByUpdate(s, UserEmailOf, i, u);
    UniqueByUpdate(s, UserUsernameOf, i, u);
    forall v | v in s' ensures v.roleId in RoleIds(t) {
      var j :| 0 <= j < |s'| && s'[j] == v;
      assert j != i ==> v == s[j];
    }
    assert UserIds(t) <= UserIds(t.(users := s')) by {
      forall x | x in UserIds(t) ensures x in UserIds(t.(users := s')) {
        var v :| v in s && v.id == x;
        var j :| 0 <= j < |s| && s[j] == v;
        assert s'[j].id == x;
      }
    }
    WithUsersConsistent(t, s');
    ReplaceByAt(s, UserIdOf, u, i);
  }

  /** The setattr loop of `update_user`: every sent, non-null field overwrites the row's. */
  method ApplyUpdate(found: User, data: UserUpdate) returns (user: User)
    ensures user == PatchedUser(found, data)
  {
    user := found;
    var items := UserUpdateItems(data);
    var k := 0;
    while k < |items|
      invariant 0 <= k <= |items|
      invariant user == SetUserFields(found, items[..k])
    {
      StepsConcat(found, items[..k], [items[k]], SetUserField);
      StepsSingle(user, items[k], SetUserField);
      assert items[..k + 1] == items[..k] + [items[k]];
      user := SetUserField(user, items[k]);
      k := k + 1;
    }
    assert items[..k] == items;
    SetUserFieldsIsPatch(found, data);
  }

  /** `update_user`: unknown id gives Ok(None) and no change; otherwise the setattr loop, then `updated_by`. */
  method UpdateUser(db: Store, userId: Uuid, data: UserUpdate, updatedBy: Uuid) returns (r: Result<Option<User>, DbError>)
    requires db.Valid()
    modifies db
    ensures db.Valid()
    ensures r == Ok(None) <==> userId !in UserIds(old(db.Snapshot()))
    ensures r.Ok? && r.value.Some? ==>
      && (var before := GetUserById(old(db.Snapshot()), userId);
          before.Some? && r.value.value == PatchedUser(before.value, data).(updatedBy := Some(Format(updatedBy))))
      && db.Snapshot() == old(db.Snapshot()).(users := ReplaceBy(old(db.users), UserIdOf, r.value.value))
    ensures r.Err? || r == Ok(None) ==> db.Snapshot() == old(db.Snapshot())
    ensures userId in UserIds(old(db.Snapshot())) ==>
      var u := PatchedUser(GetUserById(old(db.Snapshot()), userId).value, data).(updatedBy := Some(Format(updatedBy)));
      && (r.Err? <==> UpdateUserConflict(old(db.Snapshot()), u).Some?)
      && (r.Err? ==> Some(r.error) == UpdateUserConflict(old(db.Snapshot()), u))
  {
    var idx := FindIndexBy(db.users, UserIdOf, userId);
    if idx.None? {
      return Ok(None);
    }
    var i := idx.value;
    var user := ApplyUpdate(db.users[i], data);
    user := user.(updatedBy := Some(Format(updatedBy)));
    var conflict := UpdateUserConflict(db.Snapshot(), user);
    if conflict.Some? {
      return Err(conflict.value);
    }
    ReplaceUserKeepsConsistent(db.Snapshot(), i, user);
    db.users := db.users[i := user];
    r := Ok(Some(user));
  }

  // ---- deactivate_user / activate_user ---------------------------------------

  /** The row as `deactivate_user` / `activate_user` leave it. */
  function WithActive(u: User, active: bool, updatedBy: Uuid): User {
    u.(isActive := active, updatedBy := Some(Format(updatedBy)))
  }

  /** Changing only the flag and `updated_by` never clashes with another row. */
  lemma WithActiveNoConflict(t: Tables, i: nat, active: bool, actor: Uuid)
    requires Consistent(t) && i < |t.users|
    ensures UpdateUserConflict(t, WithActive(t.users[i], active, actor)).None?
  {
    var u := WithActive(t.users[i], active, actor);
    UniqueKeyAt(t.users, UserIdOf, i);
    UniqueKeyAt(t.users, UserEmailOf, i);
    UniqueKeyAt(t.users, UserUsernameOf, i);
    forall v | v in t.users && v.id != u.id ensures v.email != u.email && v.username != u.username {
      var j :| 0 <= j < |t.users| && t.users[j] == v;
    }
  }

  /** Shared body of `deactivate_user` (active = false) and `activate_user` (active = true). */
  method SetActive(db: Store, userId: Uuid, active: bool, updatedBy: Uuid) returns (r: Option<User>)
    requires db.Valid()
    modifies db
    ensures db.Valid()
    ensures r.None? <==> userId !in UserIds(old(db.Snapshot()))
    ensures r.None? ==> db.Snapshot() == old(db.Snapshot())
    ensures r.Some? ==>
      && (var before := GetUserById(old(db.Snapshot()), userId);
          before.Some? && r.value == WithActive(before.value, active, updatedBy))
      && db.Snapshot() == old(db.Snapshot()).(users := ReplaceBy(old(db.users), UserIdOf, r.value))
  {
    var idx := FindIndexBy(db.users, UserIdOf, userId);
    if idx.None? {
      return None;
    }
    var i := idx.value;
    var user := WithActive(db.users[i], active, updatedBy);
    WithActiveNoConflict(db.Snapshot(), i, active, updatedBy);
    ReplaceUserKeepsConsistent(db.Snapshot(), i, user);
    db.users := db.users[i := user];
    r := Some(user);
  }

  /** `deactivate_user`: soft delete. */
  method DeactivateUser(db: Store, userId: Uuid, updatedBy: Uuid) returns (r: Option<User>)
    requires db.Valid()
    modifies db
    ensures db.Valid()
    ensures r.None? <==> userId !in UserIds(old(db.Snapshot()))
    ensures r.None? ==> db.Snapshot() == old(db.Snapshot())
    ensures r.Some? ==>
      && (var before := GetUserById(old(db.Snapshot()), userId);
          before.Some? && r.value == WithActive(before.value, false, updatedBy))
      && db.Snapshot() == old(db.Snapshot()).(users := ReplaceBy(old(db.users), UserIdOf, r.value))
  {
    r := SetActive(db, userId, false, updatedBy);
  }

  /** `activate_user`. */
  method ActivateUser(db: Store, userId: Uuid, updatedBy: Uuid) returns (r: Option<User>)
    requires db.Valid()
    modifies db
    ensures db.Valid()
    ensures r.None? <==> userId !in UserIds(old(db.Snapshot()))
    ensures r.None? ==> db.Snapshot() == old(db.Snapshot())
    ensures r.Some? ==>
      && (var before := GetUserById(old(db.Snapshot()), userId);
          before.Some? && r.value == WithActive(before.value, true, updatedBy))
      && db.Snapshot() == old(db.Snapshot()).(users := ReplaceBy(old(db.users), UserIdOf, r.value))
  {
    r := SetActive(db, userId, true, updatedBy);
  }

  /**
   * Deactivating and then activating a user is one activation: the user is
   * active again and differs from the original row at most in `updated_by`.
   */
  lemma DeactivateThenActivate(users: seq<User>, u: User, a: Uuid, b: Uuid)
    ensures WithActive(WithActive(u, false, a), true, b) == WithActive(u, true, b)
    ensures ReplaceBy(ReplaceBy(users, UserIdOf, WithActive(u, false, a)), UserIdOf, WithActive(u, true, b))
         == ReplaceBy(users, UserIdOf, WithActive(u, true, b))
    ensures u.isActive ==> WithActive(u, true, b) == u.(updatedBy := Some(Format(b)))
  {
    ReplaceByTwice(users, UserIdOf, WithActive(u, false, a), WithActive(u, true, b));
  }

  // ---- calculate_total_pages ------------------------------------------------

  /** `ceil(total / page_size) if total > 0 else 1`, in exact integer arithmetic. */
  function CalculateTotalPages(total: nat, pageSize: nat): (pages: nat)
    requires pageSize >= 1
    ensures pages >= 1
    ensures total == 0 ==> pages == 1
    ensures total > 0 ==> (pages - 1) * pageSize < total <= pages * pageSize
  {
    if total > 0 then (total + pageSize - 1) / pageSize else 1
  }

  lemma MulMonotone(x: int, y: int, k: nat)
    requires x <= y
    ensures x * k <= y * k
  {
    assert y * k - x * k == (y - x) * k;
  }

  /** A page whose first record exists is within the page count. */
  lemma PageOfRecordCounted(n: nat, size: nat, q: nat)
    requires size >= 1 && q * size < n
    ensures q + 1 <= CalculateTotalPages(n, size)
  {
    var a := n + size - 1;
    assert a >= q * size + size;
    var d := a / size;
    assert a == d * size + a % size;
    if d < q + 1 {
      MulMonotone(d, q, size);
      assert false;
    }
  }

  /**
   * Every record of a listing lies on one of the pages the count announces:
   * the record at position `pos` of page `page` is shown there.
   */
  lemma EveryRecordOnAPage<T>(s: seq<T>, size: nat, page: nat, pos: nat)
    requires size >= 1 && page >= 1 && pos < size && Offset(page, size) + pos < |s|
    ensures page <= CalculateTotalPages(|s|, size)
    ensures pos < |Page(s, page, size)| && Page(s, page, size)[pos] == s[Offset(page, size) + pos]
  {
    PageOfRecordCounted(|s|, size, page - 1);
  }

  /** A page past the count is empty. */
  lemma PagesPastTheCountAreEmpty<T>(s: seq<T>, size: nat, page: nat)
    requires size >= 1 && page > CalculateTotalPages(|s|, size)
    ensures Page(s, page, size) == []
  {
    var pages := CalculateTotalPages(|s|, size);
    assert pages <= page - 1;
    assert pages * size <= (page - 1) * size;
  }
}
