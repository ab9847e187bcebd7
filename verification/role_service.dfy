/**
 * Roles (src/services/role_service.py): lookups, creation, the list ordered
 * by name, replace-style permission assignment and the users of a role.
 */
module RoleService {
  import opened Wrappers
  import opened Uuids
  import opened Collections
  import opened Db
  import UserService

  /** `get_role_by_id`. */
  function GetRoleById(t: Tables, id: Uuid): (r: Option<Role>)
    ensures r.Some? ==> r.value in t.roles && r.value.id == id
    ensures r.None? <==> id !in RoleIds(t)
  {
    FindBy(t.roles, RoleIdOf, id)
  }

  /** `get_role_by_name`. */
  function GetRoleByName(t: Tables, name: string): (r: Option<Role>)
    ensures r.Some? ==> r.value in t.roles && r.value.name == name
    ensures r.None? <==> forall role :: role in t.roles ==> role.name != name
  {
    FindBy(t.roles, RoleNameOf, name)
  }

  /** In a consistent database both lookups return THE role holding the key. */
  lemma RoleLookupsFindTheRole(t: Tables, role: Role)
    requires Consistent(t) && role in t.roles
    ensures GetRoleById(t, role.id) == Some(role)
    ensures GetRoleByName(t, role.name) == Some(role)
  {
    FindUnique(t.roles, RoleIdOf, role);
    FindUnique(t.roles, RoleNameOf, role);
  }

  /**
   * `create_role`: a role with no permissions; `newId` is the uuid4 the row
   * receives. A taken name is refused by the unique index at commit.
   */
  method CreateRole(db: Store, name: string, newId: Uuid) returns (r: Result<Role, DbError>)
    requires db.Valid()
    requires newId !in RoleIds(db.Snapshot())
    modifies db
    ensures db.Valid()
    ensures r.Ok? <==> GetRoleByName(old(db.Snapshot()), name).None?
    ensures r.Ok? ==>
      && r.value == Role(newId, name, {})
      && db.Snapshot() == old(db.Snapshot()).(roles := old(db.roles) + [r.value])
    ensures r.Err? ==> r.error == UniqueViolation("name") && db.Snapshot() == old(db.Snapshot())
  {
    if GetRoleByName(db.Snapshot(), name).Some? {
      return Err(UniqueViolation("name"));
    }
    var role := Role(newId, name, {});
    ghost var t := db.Snapshot();
    UniqueByAppend(t.roles, RoleIdOf, role);
    UniqueByAppend(t.roles, RoleNameOf, role);
    db.roles := db.roles + [role];
    assert RoleIds(db.Snapshot()) == RoleIds(t) + {newId};
    r := Ok(role);
  }

  /** `get_all_roles`: every role, ordered by name. */
  function GetAllRoles(t: Tables): (r: seq<Role>)
    ensures SortedBy(r, RoleNameOf)
    ensures multiset(r) == multiset(t.roles)
  {
    SortByName(t.roles, RoleNameOf)
  }

  // ---- assign_permissions_to_role ------------------------------------------

  /** The rows of `permission_role` a list of permissions gives a role. */
  function PermissionIdSet(ps: seq<Permission>): set<Uuid> {
    set p | p in ps :: p.id
  }

  /** The role table after `role.permissions = permissions` on the role with id `roleId`. */
  function AssignedRoles(roles: seq<Role>, roleId: Uuid, ids: set<Uuid>): (r: seq<Role>)
    ensures |r| == |roles|
    ensures forall i :: 0 <= i < |roles| ==>
      r[i] == if roles[i].id == roleId then roles[i].(permissions := ids) else roles[i]
  {
    seq(|roles|, i requires 0 <= i < |roles| => if roles[i].id == roleId then roles[i].(permissions := ids) else roles[i])
  }

  /**
   * Assignment replaces, it does not add: afterwards the role holds exactly
   * the given permissions whatever it held before, and every other role and
   * every other table is as it was.
   */
  lemma AssignmentReplaces(t: Tables, role: Role, ids: set<Uuid>)
    requires Consistent(t) && role in t.roles && ids <= PermissionIds(t)
    ensures GetRoleById(t.(roles := AssignedRoles(t.roles, role.id, ids)), role.id) == Some(role.(permissions := ids))
    ensures forall other :: other in t.roles && other.id != role.id ==> other in AssignedRoles(t.roles, role.id, ids)
    ensures Consistent(t.(roles := AssignedRoles(t.roles, role.id, ids)))
  {
    AssignKeepsConsistent(t, role.id, ids);
    var roles' := AssignedRoles(t.roles, role.id, ids);
    var i :| 0 <= i < |t.roles| && t.roles[i] == role;
    assert roles'[i] == role.(permissions := ids);
    FindUnique(roles', RoleIdOf, roles'[i]);
    forall other | other in t.roles && other.id != role.id ensures other in roles' {
      var j :| 0 <= j < |t.roles| && t.roles[j] == other;
      assert roles'[j] == other;
    }
  }

  /** Assigning permissions that exist keeps every key and reference intact. */
  lemma AssignKeepsConsistent(t: Tables, roleId: Uuid, ids: set<Uuid>)
    requires Consistent(t) && ids <= PermissionIds(t)
    ensures Consistent(t.(roles := AssignedRoles(t.roles, roleId, ids)))
  {
    var s := t.roles;
    var s' := AssignedRoles(s, roleId, ids);
    forall i, j | 0 <= i < j < |s'| ensures s'[i].id != s'[j].id && s'[i].name != s'[j].name {
      assert !(RoleIdOf(s[i]) == RoleIdOf(s[j]));
      assert !(RoleNameOf(s[i]) == RoleNameOf(s[j]));
    }
    assert UniqueBy(s', RoleIdOf) && UniqueBy(s', RoleNameOf);
    forall role | role in s' ensures role.permissions <= PermissionIds(t) {
      var i :| 0 <= i < |s'| && s'[i] == role;
      assert s[i] in t.roles;
    }
    assert RoleIds(t) <= RoleIds(t.(roles := s')) by {
      forall x | x in RoleIds(t) ensures x in RoleIds(t.(roles := s')) {
        var role :| role in s && role.id == x;
        var i :| 0 <= i < |s| && s[i] == role;
        assert s'[i].id == x;
      }
    }
    WithRolesConsistent(t, s');
  }

  /** Assigning the same permissions twice leaves the state of one assignment. */
  lemma AssignIdempotent(roles: seq<Role>, roleId: Uuid, ids: set<Uuid>)
    ensures AssignedRoles(AssignedRoles(roles, roleId, ids), roleId, ids) == AssignedRoles(roles, roleId, ids)
  {
    var once := AssignedRoles(roles, roleId, ids);
    var twice := AssignedRoles(once, roleId, ids);
    forall i | 0 <= i < |roles| ensures twice[i] == once[i] {
      assert once[i].id == roles[i].id;
    }
  }

  /**
   * `assign_permissions_to_role`: an unknown role id gives None and changes
   * nothing; otherwise the role's permission set becomes exactly the ids of
   * `permissions`, which the callers have loaded from the store.
   */
  method AssignPermissionsToRole(db: Store, roleId: Uuid, permissions: seq<Permission>) returns (r: Option<Role>)
    requires db.Valid()
    requires forall p :: p in permissions ==> p in db.permissions
    modifies db
    ensures db.Valid()
    ensures r.None? <==> roleId !in RoleIds(old(db.Snapshot()))
    ensures r.None? ==> db.Snapshot() == old(db.Snapshot())
    ensures r.Some? ==>
      && (var before := GetRoleById(old(db.Snapshot()), roleId);
          before.Some? && r.value == before.value.(permissions := PermissionIdSet(permissions)))
      && db.Snapshot() == old(db.Snapshot()).(roles := AssignedRoles(old(db.roles), roleId, PermissionIdSet(permissions)))
  {
    var role := GetRoleById(db.Snapshot(), roleId);
    if role.None? {
      return None;
    }
    var ids := PermissionIdSet(permissions);
    assert ids <= PermissionIds(db.Snapshot());
    AssignKeepsConsistent(db.Snapshot(), roleId, ids);
    db.roles := AssignedRoles(db.roles, roleId, ids);
    r := Some(role.value.(permissions := ids));
  }

  // ---- users of a role -----------------------------------------------------

  /** `filter(User.role_id == role_id)`, in table order. */
  function UsersWithRole(users: seq<User>, roleId: Uuid): (r: seq<User>)
    ensures forall u :: u in r <==> u in users && u.roleId == roleId
  {
    Filter(users, (u: User) => u.roleId == roleId)
  }

  /** `get_users_by_role_name`: ([], 0) for an unknown name, else the role's users and their count. */
  function GetUsersByRoleName(t: Tables, roleName: string): (r: (seq<User>, nat))
    ensures r.1 == |r.0|
    ensures GetRoleByName(t, roleName).None? ==> r == ([], 0)
    ensures GetRoleByName(t, roleName).Some? ==>
      forall u :: u in r.0 <==> u in t.users && u.roleId == GetRoleByName(t, roleName).value.id
  {
    match GetRoleByName(t, roleName)
    case None => ([], 0)
    case Some(role) =>
      var users := UsersWithRole(t.users, role.id);
      (users, |users|)
  }

  /**
   * `get_users_by_role`: the role's users, filtered on `is_active` only when
   * given, counted before paging, newest first, one page of them.
   */
  function GetUsersByRole(t: Tables, roleId: Uuid, page: nat, pageSize: nat, isActive: Option<bool>): (r: (seq<User>, nat))
    requires page >= 1 && pageSize >= 1
    ensures forall u :: u in r.0 ==> u in t.users && u.roleId == roleId && (isActive.Some? ==> u.isActive == isActive.value)
    ensures |r.0| <= pageSize
    ensures r.1 == |UserService.ActiveFilter(UsersWithRole(t.users, roleId), isActive)|
    ensures r.0 == Page(NewestFirst(UserService.ActiveFilter(UsersWithRole(t.users, roleId), isActive)), page, pageSize)
  {
    var matching := UserService.ActiveFilter(UsersWithRole(t.users, roleId), isActive);
    assert forall u :: u in NewestFirst(matching) ==> u in matching by {
      forall u | u in NewestFirst(matching) ensures u in matching {
        var i :| 0 <= i < |matching| && NewestFirst(matching)[i] == u;
      }
    }
    (Page(NewestFirst(matching), page, pageSize), |matching|)
  }
}
