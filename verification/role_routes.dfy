/**
 * The role endpoints (src/api/routes/role.py), all behind the administrator
 * gate: creation with its duplicate check, a role with its permissions,
 * replace-style assignment by permission names, and the users of a role.
 *
 * As written, src/api/routes/role.py imports `AssignPermissionsRequest`
 * from the role schemas, which do not define it, so the module fails to
 * load (RoleRoutesImportAsWritten). The routes here model the module with
 * that import taken from the permission schemas, where the class lives.
 */
module RoleRoutes {
  import opened Wrappers
  import opened Uuids
  import opened Collections
  import opened Db
  import opened Http
  import opened PermissionService
  import opened RoleService
  import UserService
  import UserRoutes

  const RoleNotFound := "Rol no encontrado"

  function RoleExists(name: string): string {
    "El rol '" + name + "' ya existe"
  }

  function RoleUnknown(name: string): string {
    "El rol '" + name + "' no existe"
  }

  // ---- Loading the module ------------------------------------------------------

  /** What `from m import a, b, ...` does: binds every name, or raises ImportError. */
  datatype ImportOutcome = Imported | ImportError(name: string)

  /**
   * The names are bound left to right, and the first one the module does
   * not define raises ImportError naming it.
   */
  function ImportNames(defined: set<string>, names: seq<string>): (r: ImportOutcome)
    ensures r.Imported? <==> forall i :: 0 <= i < |names| ==> names[i] in defined
    ensures r.ImportError? ==>
      exists i :: 0 <= i < |names| && names[i] == r.name && r.name !in defined
        && forall j :: 0 <= j < i ==> names[j] in defined
  {
    if names == [] then Imported
    else if names[0] !in defined then ImportError(names[0])
    else
      var rest := ImportNames(defined, names[1..]);
      FirstMissingShifts(defined, names, rest);
      rest
  }

  /** A first missing name of the tail is a first missing name of the whole list when its head is defined. */
  lemma FirstMissingShifts(defined: set<string>, names: seq<string>, rest: ImportOutcome)
    requires names != [] && names[0] in defined
    requires rest.ImportError? ==>
      exists i :: 0 <= i < |names[1..]| && names[1..][i] == rest.name && rest.name !in defined
        && forall j :: 0 <= j < i ==> names[1..][j] in defined
    ensures rest.ImportError? ==>
      exists i :: 0 <= i < |names| && names[i] == rest.name && rest.name !in defined
        && forall j :: 0 <= j < i ==> names[j] in defined
  {
    if rest.ImportError? {
      var i :| 0 <= i < |names[1..]| && names[1..][i] == rest.name && rest.name !in defined
        && forall j :: 0 <= j < i ==> names[1..][j] in defined;
      forall j | 0 <= j < i + 1
        ensures names[j] in defined
      {
        if j > 0 { assert names[j] == names[1..][j - 1]; }
      }
      assert names[i + 1] == rest.name;
    }
  }

  /** The names src/schemas/role.py binds at module level: its imports and its classes. */
  const RoleSchemaNames: set<string> :=
    {"datetime", "Optional", "List", "UUID", "BaseModel", "Field", "PermissionResponse",
     "RoleBase", "RoleCreate", "RoleResponse", "RoleWithPermissionsResponse", "RoleListResponse",
     "UpdatePermissionsRequest"}

  /** The names src/schemas/permission.py binds at module level: its imports and its classes. */
  const PermissionSchemaNames: set<string> :=
    {"datetime", "Optional", "List", "UUID", "BaseModel", "Field",
     "PermissionBase", "PermissionCreate", "PermissionResponse", "PermissionListResponse",
     "AssignPermissionsRequest"}

  /** The names the role routes import from `src.schemas.role`, in the order written. */
  const RoleRouteSchemaImports: seq<string> :=
    ["RoleCreate", "RoleResponse", "RoleWithPermissionsResponse", "RoleListResponse", "AssignPermissionsRequest"]

  /**
   * As written, loading the role routes raises ImportError: the request
   * body of the assignment route is defined by the permission schemas.
   */
  lemma RoleRoutesImportAsWritten()
    ensures ImportNames(RoleSchemaNames, RoleRouteSchemaImports) == ImportError("AssignPermissionsRequest")
    ensures ImportNames(PermissionSchemaNames, RoleRouteSchemaImports).ImportError?
  {
    assert RoleRouteSchemaImports[1..] == ["RoleResponse", "RoleWithPermissionsResponse", "RoleListResponse", "AssignPermissionsRequest"];
    assert RoleRouteSchemaImports[1..][1..] == ["RoleWithPermissionsResponse", "RoleListResponse", "AssignPermissionsRequest"];
    assert RoleRouteSchemaImports[1..][1..][1..] == ["RoleListResponse", "AssignPermissionsRequest"];
    assert RoleRouteSchemaImports[1..][1..][1..][1..] == ["AssignPermissionsRequest"];
    assert RoleRouteSchemaImports[0] !in PermissionSchemaNames;
  }

  /**
   * Importing `AssignPermissionsRequest` from the permission schemas and the
   * other four names from the role schemas loads the module; the routes
   * below model it so loaded.
   */
  lemma RoleRoutesImportCorrected()
    ensures ImportNames(RoleSchemaNames, RoleRouteSchemaImports[..4]) == Imported
    ensures ImportNames(PermissionSchemaNames, RoleRouteSchemaImports[4..]) == Imported
  {
    assert forall i :: 0 <= i < 4 ==> RoleRouteSchemaImports[..4][i] in RoleSchemaNames;
    assert RoleRouteSchemaImports[4..] == ["AssignPermissionsRequest"];
  }

  // ---- POST /roles -------------------------------------------------------------

  /** POST /roles: 400 when the name is taken, otherwise the new role without permissions. */
  method CreateRoleRoute(db: Store, name: string, newId: Uuid) returns (r: Result<Role, HttpError>)
    requires db.Valid()
    requires newId !in RoleIds(db.Snapshot())
    modifies db
    ensures db.Valid()
    ensures r.Err? <==> GetRoleByName(old(db.Snapshot()), name).Some?
    ensures r.Err? ==> r.error == HttpException(BadRequest, RoleExists(name)) && db.Snapshot() == old(db.Snapshot())
    ensures r.Ok? ==>
      && r.value == Role(newId, name, {})
      && db.Snapshot() == old(db.Snapshot()).(roles := old(db.roles) + [r.value])
  {
    if GetRoleByName(db.Snapshot(), name).Some? {
      return Err(HttpException(BadRequest, RoleExists(name)));
    }
    var created := CreateRole(db, name, newId);
    r := match created
      case Ok(role) => Ok(role)
      case Err(e) => Err(ServerError(IntegrityError(e)));
  }

  /** GET /roles: every role ordered by name, and how many there are. */
  function ListRolesRoute(t: Tables): (r: (seq<Role>, nat))
    ensures SortedBy(r.0, RoleNameOf) && multiset(r.0) == multiset(t.roles)
    ensures r.1 == |t.roles|
  {
    var roles := GetAllRoles(t);
    (roles, |roles|)
  }

  // ---- GET /roles/{id} ---------------------------------------------------------

  /** A role as the response shows it: the row and the permissions it holds. */
  datatype RoleWithPermissions = RoleWithPermissions(role: Role, permissions: seq<Permission>)

  function PermissionsOf(t: Tables, role: Role): (r: seq<Permission>)
    ensures forall p :: p in r <==> p in t.permissions && p.id in role.permissions
  {
    Filter(t.permissions, (p: Permission) => p.id in role.permissions)
  }

  /** GET /roles/{id}: 404 for an unknown id, otherwise the role with its permissions. */
  function GetRoleWithPermissions(t: Tables, roleId: Uuid): (r: Result<RoleWithPermissions, HttpError>)
    ensures r.Err? <==> roleId !in RoleIds(t)
    ensures r.Err? ==> r.error == HttpException(NotFound, RoleNotFound)
    ensures r.Ok? ==> r.value.role in t.roles && r.value.role.id == roleId
    ensures r.Ok? ==> forall p :: p in r.value.permissions <==> p in t.permissions && p.id in r.value.role.permissions
  {
    match GetRoleById(t, roleId)
    case None => Err(HttpException(NotFound, RoleNotFound))
    case Some(role) => Ok(RoleWithPermissions(role, PermissionsOf(t, role)))
  }

  /** In a consistent database a role's permission ids are exactly the ids of the permissions shown with it. */
  lemma RolePermissionsShown(t: Tables, roleId: Uuid)
    requires Consistent(t) && roleId in RoleIds(t)
    ensures var r := GetRoleWithPermissions(t, roleId).value;
      PermissionIdSet(r.permissions) == r.role.permissions
  {
    var r := GetRoleWithPermissions(t, roleId).value;
    forall id | id in r.role.permissions ensures id in PermissionIdSet(r.permissions) {
      assert id in PermissionIds(t);
      var p :| p in t.permissions && p.id == id;
      assert p in r.permissions;
    }
  }

  // ---- POST /roles/{id}/permissions --------------------------------------------

  /** `set(permission_names)`. */
  function NameSet(names: seq<string>): set<string> {
    set n | n in names
  }

  /** `set(permission_names) - {p.name for p in permissions}`. */
  function MissingNames(names: seq<string>, found: seq<Permission>): set<string> {
    NameSet(names) - NamesOf(found)
  }

  /** The names reported missing are exactly the requested names that name no stored permission. */
  lemma MissingNamesAreUnknown(t: Tables, names: seq<string>)
    requires Consistent(t)
    ensures MissingNames(names, GetPermissionsByNames(t, names)) == NameSet(names) - PermissionNames(t)
  {
    PermissionsByNamesFound(t, names);
  }

  /**
   * The request is read as a set: two name lists with the same names, in any
   * order and with any repetitions, find the same permissions and miss the
   * same names.
   */
  lemma DuplicateNamesHarmless(t: Tables, names: seq<string>, names': seq<string>)
    requires NameSet(names) == NameSet(names')
    ensures GetPermissionsByNames(t, names) == GetPermissionsByNames(t, names')
    ensures MissingNames(names, GetPermissionsByNames(t, names)) == MissingNames(names', GetPermissionsByNames(t, names'))
  {
    forall p | p in t.permissions ensures (p.name in names) == (p.name in names') {
      assert (p.name in names) == (p.name in NameSet(names));
      assert (p.name in names') == (p.name in NameSet(names'));
    }
    FilterCongruent(t.permissions, (p: Permission) => p.name in names, (p: Permission) => p.name in names');
  }

  /** When nothing is missing, the permissions found carry exactly the requested names. */
  lemma NothingMissingFindsAll(names: seq<string>, found: seq<Permission>)
    requires forall p :: p in found ==> p.name in names
    requires MissingNames(names, found) == {}
    ensures NamesOf(found) == NameSet(names)
  {
    assert forall n :: n in names ==> n in NamesOf(found) by {
      forall n | n in names ensures n in NamesOf(found) {
        assert n !in MissingNames(names, found);
      }
    }
  }

  /**
   * POST /roles/{id}/permissions. An unknown role gets 404 before any
   * permission is looked up; a name that names no permission gets 400
   * listing every such name, and nothing is assigned; otherwise the role's
   * permissions become exactly the permissions named.
   */
  method AssignPermissionsRoute(db: Store, roleId: Uuid, names: seq<string>) returns (r: Result<Role, HttpError>)
    requires db.Valid()
    requires |names| >= 1
    modifies db
    ensures db.Valid()
    ensures roleId !in RoleIds(old(db.Snapshot())) ==> r == Err(HttpException(NotFound, RoleNotFound))
    ensures roleId in RoleIds(old(db.Snapshot())) ==>
      var missing := NameSet(names) - PermissionNames(old(db.Snapshot()));
      missing != {} ==> r == Err(PermissionsNotFound(missing))
    ensures r.Err? ==> db.Snapshot() == old(db.Snapshot())
    ensures r.Ok? <==> roleId in RoleIds(old(db.Snapshot())) && NameSet(names) <= PermissionNames(old(db.Snapshot()))
    ensures r.Ok? ==>
      var ids := PermissionIdSet(GetPermissionsByNames(old(db.Snapshot()), names));
      && r.value == GetRoleById(old(db.Snapshot()), roleId).value.(permissions := ids)
      && db.Snapshot() == old(db.Snapshot()).(roles := AssignedRoles(old(db.roles), roleId, ids))
  {
    ghost var t := db.Snapshot();
    var role := GetRoleById(db.Snapshot(), roleId);
    if role.None? {
      return Err(HttpException(NotFound, RoleNotFound));
    }
    var permissions := GetPermissionsByNames(db.Snapshot(), names);
    var missing := MissingNames(names, permissions);
    MissingNamesAreUnknown(t, names);
    assert missing == NameSet(names) - PermissionNames(t);
    if missing != {} {
      return Err(PermissionsNotFound(missing));
    }
    forall n | n in NameSet(names) ensures n in PermissionNames(t) {
      assert n !in missing;
    }
    var updated := AssignPermissionsToRole(db, roleId, permissions);
    r := match updated
      case Some(role) => Ok(role)
      case None => Err(HttpException(NotFound, RoleNotFound));
  }

  /** The permission ids a successful assignment stores are exactly those of the requested names. */
  lemma AssignedIdsAreNamed(t: Tables, names: seq<string>)
    requires Consistent(t)
    requires NameSet(names) <= PermissionNames(t)
    ensures forall p :: p in t.permissions ==>
      (p.id in PermissionIdSet(GetPermissionsByNames(t, names)) <==> p.name in names)
  {
    var found := GetPermissionsByNames(t, names);
    forall p | p in t.permissions && p.id in PermissionIdSet(found) ensures p.name in names {
      var q :| q in found && q.id == p.id;
      FindUnique(t.permissions, PermissionIdOf, p);
      FindUnique(t.permissions, PermissionIdOf, q);
    }
  }

  // ---- GET /roles/{name}/users -------------------------------------------------

  /**
   * GET /roles/{name}/users: 404 naming the role when it does not exist,
   * otherwise one page of its users (active only unless the client says
   * otherwise), the total and the page count.
   */
  function UsersByRoleRoute(t: Tables, roleName: string, page: nat, pageSize: nat, isActive: Option<bool>)
    : (r: Result<UserRoutes.UserListResponse, HttpError>)
    requires UserRoutes.PageQueryValid(page, pageSize)
    ensures r.Err? <==> GetRoleByName(t, roleName).None?
    ensures r.Err? ==> r.error == HttpException(NotFound, RoleUnknown(roleName))
    ensures r.Ok? ==>
      var roleId := GetRoleByName(t, roleName).value.id;
      var matching := UserService.ActiveFilter(UsersWithRole(t.users, roleId), isActive);
      && r.value.items == Page(NewestFirst(matching), page, pageSize)
      && r.value.total == |matching|
      && r.value.page == page && r.value.pageSize == pageSize
      && r.value.totalPages == UserService.CalculateTotalPages(|matching|, pageSize)
    ensures r.Ok? ==> forall u :: u in r.value.items ==>
      u in t.users && u.roleId == GetRoleByName(t, roleName).value.id && (isActive.Some? ==> u.isActive == isActive.value)
  {
    match GetRoleByName(t, roleName)
    case None => Err(HttpException(NotFound, RoleUnknown(roleName)))
    case Some(role) =>
      var (users, total) := GetUsersByRole(t, role.id, page, pageSize, isActive);
      Ok(UserRoutes.UserListResponse(users, total, page, pageSize, UserService.CalculateTotalPages(total, pageSize)))
  }
}
