/**
 * Permissions (src/services/permission_service.py): lookup by name,
 * creation, the list ordered by name and the lookup of a list of names.
 */
module PermissionService {
  import opened Wrappers
  import opened Uuids
  import opened Collections
  import opened Db

  /** `get_permission_by_name`. */
  function GetPermissionByName(t: Tables, name: string): (r: Option<Permission>)
    ensures r.Some? ==> r.value in t.permissions && r.value.name == name
    ensures r.None? <==> forall p :: p in t.permissions ==> p.name != name
  {
    FindBy(t.permissions, PermissionNameOf, name)
  }

  /** In a consistent database the name lookup returns THE permission of that name. */
  lemma GetPermissionByNameFinds(t: Tables, p: Permission)
    requires Consistent(t) && p in t.permissions
    ensures GetPermissionByName(t, p.name) == Some(p)
  {
    FindUnique(t.permissions, PermissionNameOf, p);
  }

  /**
   * `create_permission`; `newId` is the uuid4 the row receives. A taken
   * name is refused by the unique index on `permissions.name` at commit.
   */
  method CreatePermission(db: Store, name: string, newId: Uuid) returns (r: Result<Permission, DbError>)
    requires db.Valid()
    requires newId !in PermissionIds(db.Snapshot())
    modifies db
    ensures db.Valid()
    ensures r.Ok? <==> GetPermissionByName(old(db.Snapshot()), name).None?
    ensures r.Ok? ==>
      && r.value == Permission(newId, name)
      && db.Snapshot() == old(db.Snapshot()).(permissions := old(db.permissions) + [r.value])
    ensures r.Err? ==> r.error == UniqueViolation("name") && db.Snapshot() == old(db.Snapshot())
  {
    if GetPermissionByName(db.Snapshot(), name).Some? {
      return Err(UniqueViolation("name"));
    }
    var permission := Permission(newId, name);
    ghost var t := db.Snapshot();
    UniqueByAppend(t.permissions, PermissionIdOf, permission);
    UniqueByAppend(t.permissions, PermissionNameOf, permission);
    db.permissions := db.permissions + [permission];
    assert PermissionIds(db.Snapshot()) == PermissionIds(t) + {newId};
    r := Ok(permission);
  }

  /** `get_all_permissions`: every permission, ordered by name. */
  function GetAllPermissions(t: Tables): (r: seq<Permission>)
    ensures SortedBy(r, PermissionNameOf)
    ensures multiset(r) == multiset(t.permissions)
  {
    SortByName(t.permissions, PermissionNameOf)
  }

  /** `get_permissions_by_names`: `filter(Permission.name.in_(names))`, in table order. */
  function GetPermissionsByNames(t: Tables, names: seq<string>): (r: seq<Permission>)
    ensures forall p :: p in r <==> p in t.permissions && p.name in names
    ensures |r| <= |t.permissions|
  {
    Filter(t.permissions, (p: Permission) => p.name in names)
  }

  /** The names of a list of permissions: `{p.name for p in permissions}`. */
  function NamesOf(ps: seq<Permission>): set<string> {
    set p | p in ps :: p.name
  }

  /** The names that name a stored permission. */
  function PermissionNames(t: Tables): set<string> {
    NamesOf(t.permissions)
  }

  /**
   * The names found are exactly the requested names that name a stored
   * permission: unknown names are dropped, and no permission is listed twice.
   */
  lemma PermissionsByNamesFound(t: Tables, names: seq<string>)
    requires Consistent(t)
    ensures NamesOf(GetPermissionsByNames(t, names)) == (set n | n in names) * PermissionNames(t)
    ensures UniqueBy(GetPermissionsByNames(t, names), PermissionNameOf)
  {
    var r := GetPermissionsByNames(t, names);
    forall n | n in (set n | n in names) * PermissionNames(t) ensures n in NamesOf(r) {
      var p :| p in t.permissions && p.name == n;
      assert p in r;
    }
    FilterUnique(t.permissions, (p: Permission) => p.name in names, PermissionNameOf);
  }
}
