/**
 * The bootstrap of an empty or partly filled database (src/db/seed.py):
 * the six permissions, the roles "admin" and "user" with their permission
 * sets, and the administrator account. Everything already present is
 * reused; the two roles' permission sets are overwritten on every run.
 * The whole run is one transaction: a refused insert at commit rolls it
 * back entirely.
 */
module Seed {
  import opened Wrappers
  import opened Uuids
  import opened Collections
  import opened Db
  import opened Http
  import RoleService
  import PermissionService
  import UserService

  const SeedPermissionNames: seq<string> :=
    ["create_task", "update_task", "delete_task", "view_task", "manage_users", "manage_roles"]
  const UserRolePermissionNames: seq<string> := ["view_task", "create_task"]

  /** `roles_data`, in its insertion order. */
  const RolesData: seq<(string, seq<string>)> :=
    [("admin", SeedPermissionNames), ("user", UserRolePermissionNames)]

  const AdminEmail := "admin@test.com"
  const AdminUsername := "admin"
  const AdminName := "Administrador"
  const AdminPassword := "Admin123*"

  /**
   * The uuid4 values the run may draw: `ids[i]` for the i-th permission name
   * (i < 6), `ids[6 + j]` for the j-th role, `ids[8]` for the administrator.
   * A value is only used when that row has to be created.
   */
  predicate SeedIdsFresh(t: Tables, ids: seq<Uuid>) {
    && |ids| == 9
    && (forall i, j :: 0 <= i < j < 6 ==> ids[i] != ids[j])
    && (forall i :: 0 <= i < 6 ==> ids[i] !in PermissionIds(t))
    && ids[6] != ids[7] && ids[6] !in RoleIds(t) && ids[7] !in RoleIds(t)
    && ids[8] !in UserIds(t)
  }

  // ---- permissions ---------------------------------------------------------

  /** The permission table after the first `|names|` turns of the first loop. */
  function SeedPermissions(perms: seq<Permission>, names: seq<string>, ids: seq<Uuid>): seq<Permission>
    requires |names| <= |ids|
    decreases |names|
  {
    if names == [] then perms
    else
      var k := |names| - 1;
      var before := SeedPermissions(perms, names[..k], ids);
      if FindBy(before, PermissionNameOf, names[k]).Some? then before
      else before + [Permission(ids[k], names[k])]
  }

  /** The first loop keeps every stored permission in place and leaves one for every name. */
  lemma {:induction false} SeedPermissionsKeeps(perms: seq<Permission>, names: seq<string>, ids: seq<Uuid>)
    requires |names| <= |ids|
    ensures var r := SeedPermissions(perms, names, ids);
      && |perms| <= |r| && r[..|perms|] == perms
      && forall n :: n in names ==> FindBy(r, PermissionNameOf, n).Some?
  {
    if names != [] {
      var k := |names| - 1;
      SeedPermissionsKeeps(perms, names[..k], ids);
      var before := SeedPermissions(perms, names[..k], ids);
      assert forall n :: n in names ==> n in names[..k] || n == names[k];
      if FindBy(before, PermissionNameOf, names[k]).None? {
        var x := Permission(ids[k], names[k]);
        var r := before + [x];
        assert r[..|before|] == before;
        assert r[..|perms|] == before[..|perms|];
        forall n | n in names ensures FindBy(r, PermissionNameOf, n).Some? {
          if n in names[..k] {
            assert FindBy(before, PermissionNameOf, n).value in r;
          } else {
            assert x in r;
          }
        }
      }
    }
  }

  /** The first loop adds only rows carrying the ids of its turns. */
  lemma {:induction false} SeedPermissionsAdded(perms: seq<Permission>, names: seq<string>, ids: seq<Uuid>)
    requires |names| <= |ids|
    ensures forall p :: p in SeedPermissions(perms, names, ids) ==> p in perms || p.id in ids[..|names|]
  {
    if names != [] {
      var k := |names| - 1;
      SeedPermissionsAdded(perms, names[..k], ids);
      var before := SeedPermissions(perms, names[..k], ids);
      assert forall p :: p in before ==> p in perms || p.id in ids[..|names|] by {
        assert forall v :: v in ids[..k] ==> v in ids[..|names|];
      }
      if FindBy(before, PermissionNameOf, names[k]).None? {
        var x := Permission(ids[k], names[k]);
        assert x.id in ids[..|names|];
        assert forall p :: p in before + [x] ==> p in before || p == x;
      }
    }
  }

  /** The turn for `names[i]`: the name is looked up among the rows so far and added when missing. */
  lemma SeedPermissionsStep(perms: seq<Permission>, names: seq<string>, ids: seq<Uuid>, i: nat)
    requires i < |names| <= |ids|
    ensures var before := SeedPermissions(perms, names[..i], ids);
      SeedPermissions(perms, names[..i + 1], ids)
        == if FindBy(before, PermissionNameOf, names[i]).Some? then before else before + [Permission(ids[i], names[i])]
    ensures forall n :: n in names[..i + 1] <==> n in names[..i] || n == names[i]
  {
    assert names[..i + 1][..i] == names[..i];
    assert names[..i + 1] == names[..i] + [names[i]];
  }

  /** With fresh, distinct ids the first loop keeps ids and names unique. */
  lemma {:induction false} SeedPermissionsUnique(perms: seq<Permission>, names: seq<string>, ids: seq<Uuid>)
    requires |names| <= |ids|
    requires UniqueBy(perms, PermissionIdOf) && UniqueBy(perms, PermissionNameOf)
    requires forall i :: 0 <= i < |names| ==> forall p :: p in perms ==> p.id != ids[i]
    requires forall i, j :: 0 <= i < j < |names| ==> ids[i] != ids[j]
    ensures UniqueBy(SeedPermissions(perms, names, ids), PermissionIdOf)
    ensures UniqueBy(SeedPermissions(perms, names, ids), PermissionNameOf)
  {
    if names != [] {
      var k := |names| - 1;
      SeedPermissionsUnique(perms, names[..k], ids);
      var before := SeedPermissions(perms, names[..k], ids);
      if FindBy(before, PermissionNameOf, names[k]).None? {
        var x := Permission(ids[k], names[k]);
        assert SeedPermissions(perms, names, ids) == before + [x];
        SeedPermissionsAdded(perms, names[..k], ids);
        assert ids[k] !in ids[..k];
        forall y | y in before ensures PermissionIdOf(y) != PermissionIdOf(x) {
          if y !in perms {
            assert y.id in ids[..k];
          }
        }
        UniqueByAppend(before, PermissionIdOf, x);
        UniqueByAppend(before, PermissionNameOf, x);
      } else {
        assert SeedPermissions(perms, names, ids) == before;
      }
    }
  }

  /** When every name is already stored, the first loop adds nothing. */
  lemma {:induction false} SeedPermissionsPresent(perms: seq<Permission>, names: seq<string>, ids: seq<Uuid>)
    requires |names| <= |ids|
    requires forall n :: n in names ==> FindBy(perms, PermissionNameOf, n).Some?
    ensures SeedPermissions(perms, names, ids) == perms
  {
    if names != [] {
      var k := |names| - 1;
      assert forall n :: n in names[..k] ==> n in names;
      SeedPermissionsPresent(perms, names[..k], ids);
      assert names[k] in names;
    }
  }

  // ---- roles ---------------------------------------------------------------

  /** The ids of the stored permissions named in `names`: `[permissions[p] for p in perms]`. */
  function NamedIds(perms: seq<Permission>, names: seq<string>): set<Uuid> {
    set p | p in perms && p.name in names :: p.id
  }

  lemma NamedIdsStored(perms: seq<Permission>, names: seq<string>)
    ensures NamedIds(perms, names) <= RoleService.PermissionIdSet(perms)
  {
  }

  /** The id of the role named `name`, or `id` when it has to be created. */
  function RoleIdFor(roles: seq<Role>, name: string, id: Uuid): Uuid {
    match FindBy(roles, RoleNameOf, name)
    case Some(role) => role.id
    case None => id
  }

  /** `filter_by(name=...).first()`, else a new `Role(name=...)` added. */
  function FoundOrCreated(roles: seq<Role>, name: string, id: Uuid): seq<Role> {
    if FindBy(roles, RoleNameOf, name).Some? then roles else roles + [Role(id, name, {})]
  }

  /** One turn of the second loop: find or create the role, then overwrite its permissions. */
  function SeedRole(roles: seq<Role>, perms: seq<Permission>, name: string, permNames: seq<string>, id: Uuid): seq<Role> {
    RoleService.AssignedRoles(FoundOrCreated(roles, name, id), RoleIdFor(roles, name, id), NamedIds(perms, permNames))
  }

  /** The role table after the first `n` turns of the second loop. */
  function SeedRoles(roles: seq<Role>, perms: seq<Permission>, n: nat, ids: seq<Uuid>): seq<Role>
    requires n <= |RolesData| && |ids| == 9
  {
    if n == 0 then roles
    else SeedRole(SeedRoles(roles, perms, n - 1, ids), perms, RolesData[n - 1].0, RolesData[n - 1].1, ids[6 + n - 1])
  }

  function RoleIdSet(roles: seq<Role>): set<Uuid> {
    set r | r in roles :: r.id
  }

  /** Finding or creating keeps every role, adds at most the new one, and puts the role named `name` at `i0`. */
  lemma FoundOrCreatedFacts(roles: seq<Role>, name: string, id: Uuid) returns (i0: nat)
    requires UniqueBy(roles, RoleIdOf) && UniqueBy(roles, RoleNameOf)
    requires id !in RoleIdSet(roles)
    ensures var r := FoundOrCreated(roles, name, id);
      && UniqueBy(r, RoleIdOf) && UniqueBy(r, RoleNameOf)
      && i0 < |r| && r[i0].id == RoleIdFor(roles, name, id) && r[i0].name == name
      && (forall i :: 0 <= i < |r| && i != i0 ==> r[i] in roles)
      && |roles| <= |r| && r[..|roles|] == roles
      && RoleIdSet(r) == RoleIdSet(roles) + {RoleIdFor(roles, name, id)}
  {
    var found := FindBy(roles, RoleNameOf, name);
    if found.Some? {
      i0 :| 0 <= i0 < |roles| && roles[i0] == found.value;
      assert found.value.id in RoleIdSet(roles);
    } else {
      AppendedRoleFacts(roles, Role(id, name, {}));
      i0 := |roles|;
    }
  }

  /** Adding a role of a fresh id and name keeps ids and names unique and every earlier role in place. */
  lemma AppendedRoleFacts(roles: seq<Role>, x: Role)
    requires UniqueBy(roles, RoleIdOf) && UniqueBy(roles, RoleNameOf)
    requires x.id !in RoleIdSet(roles) && forall y :: y in roles ==> y.name != x.name
    ensures var r := roles + [x];
      && UniqueBy(r, RoleIdOf) && UniqueBy(r, RoleNameOf)
      && (forall i :: 0 <= i < |roles| ==> r[i] in roles)
      && r[..|roles|] == roles
      && RoleIdSet(r) == RoleIdSet(roles) + {x.id}
  {
    forall y | y in roles ensures RoleIdOf(y) != RoleIdOf(x) && RoleNameOf(y) != RoleNameOf(x) {
      assert y.id in RoleIdSet(roles);
    }
    UniqueByAppend(roles, RoleIdOf, x);
    UniqueByAppend(roles, RoleNameOf, x);
    var r := roles + [x];
    assert r[..|roles|] == roles;
    RoleIdSetAppend(roles, x);
  }

  lemma RoleIdSetAppend(roles: seq<Role>, x: Role)
    ensures RoleIdSet(roles + [x]) == RoleIdSet(roles) + {x.id}
  {
    assert forall v :: v in roles + [x] ==> v in roles || v == x;
    assert x in roles + [x];
  }

  /** Overwriting the permissions of the role at `i0` touches no other position, id or name. */
  lemma AssignedAt(roles: seq<Role>, i0: nat, ids: set<Uuid>)
    requires UniqueBy(roles, RoleIdOf) && UniqueBy(roles, RoleNameOf) && i0 < |roles|
    ensures var r := RoleService.AssignedRoles(roles, roles[i0].id, ids);
      && UniqueBy(r, RoleIdOf) && UniqueBy(r, RoleNameOf)
      && r[i0] == roles[i0].(permissions := ids)
      && (forall i :: 0 <= i < |roles| && i != i0 ==> r[i] == roles[i])
      && RoleIdSet(r) == RoleIdSet(roles)
  {
    UniqueKeyAt(roles, RoleIdOf, i0);
    var r := RoleService.AssignedRoles(roles, roles[i0].id, ids);
    forall i, j | 0 <= i < j < |r| ensures r[i].id != r[j].id && r[i].name != r[j].name {
      assert !(RoleIdOf(roles[i]) == RoleIdOf(roles[j]));
      assert !(RoleNameOf(roles[i]) == RoleNameOf(roles[j]));
    }
    assert RoleIdSet(r) == RoleIdSet(roles) by {
      forall v | v in RoleIdSet(r) ensures v in RoleIdSet(roles) {
        var x :| x in r && x.id == v;
        var i :| 0 <= i < |r| && r[i] == x;
        assert roles[i].id == v;
      }
      forall v | v in RoleIdSet(roles) ensures v in RoleIdSet(r) {
        var x :| x in roles && x.id == v;
        var i :| 0 <= i < |roles| && roles[i] == x;
        assert r[i].id == v;
      }
    }
  }

  /**
   * One turn of the second loop, given unique ids and names and a fresh id:
   * the role named `name` ends with exactly the named permissions, and ids
   * and names stay unique.
   */
  lemma SeedRoleFacts(roles: seq<Role>, perms: seq<Permission>, name: string, permNames: seq<string>, id: Uuid)
    requires UniqueBy(roles, RoleIdOf) && UniqueBy(roles, RoleNameOf)
    requires id !in RoleIdSet(roles)
    ensures var r := SeedRole(roles, perms, name, permNames, id);
      && UniqueBy(r, RoleIdOf) && UniqueBy(r, RoleNameOf)
      && Role(RoleIdFor(roles, name, id), name, NamedIds(perms, permNames)) in r
      && RoleIdSet(r) == RoleIdSet(roles) + {RoleIdFor(roles, name, id)}
  {
    var roles1 := FoundOrCreated(roles, name, id);
    var i0 := FoundOrCreatedFacts(roles, name, id);
    AssignedAt(roles1, i0, NamedIds(perms, permNames));
    var r := SeedRole(roles, perms, name, permNames, id);
    assert r[i0] == Role(RoleIdFor(roles, name, id), name, NamedIds(perms, permNames));
  }

  /** One turn of the second loop keeps every role of another name as it was. */
  lemma SeedRoleKeepsOthers(roles: seq<Role>, perms: seq<Permission>, name: string, permNames: seq<string>, id: Uuid)
    requires UniqueBy(roles, RoleIdOf) && UniqueBy(roles, RoleNameOf)
    requires id !in RoleIdSet(roles)
    ensures forall x :: x in roles && x.name != name ==> x in SeedRole(roles, perms, name, permNames, id)
  {
    var roles1 := FoundOrCreated(roles, name, id);
    var i0 := FoundOrCreatedFacts(roles, name, id);
    AssignedAt(roles1, i0, NamedIds(perms, permNames));
    var r := SeedRole(roles, perms, name, permNames, id);
    forall x | x in roles && x.name != name ensures x in r {
      var i :| 0 <= i < |roles| && roles[i] == x;
      assert roles1[i] == x && i != i0;
      assert r[i] == x;
    }
  }

  /** After one turn of the second loop every role is one that was there or the role named `name` with its new permissions. */
  lemma SeedRoleOnlyNamed(roles: seq<Role>, perms: seq<Permission>, name: string, permNames: seq<string>, id: Uuid)
    requires UniqueBy(roles, RoleIdOf) && UniqueBy(roles, RoleNameOf)
    requires id !in RoleIdSet(roles)
    ensures forall x :: x in SeedRole(roles, perms, name, permNames, id) ==>
      x in roles || x == Role(RoleIdFor(roles, name, id), name, NamedIds(perms, permNames))
  {
    var roles1 := FoundOrCreated(roles, name, id);
    var i0 := FoundOrCreatedFacts(roles, name, id);
    AssignedAt(roles1, i0, NamedIds(perms, permNames));
    var r := SeedRole(roles, perms, name, permNames, id);
    forall x | x in r ensures x in roles || x == r[i0] {
      var i :| 0 <= i < |r| && r[i] == x;
      if i != i0 { assert r[i] == roles1[i]; }
    }
  }

  /** A turn on a role that already holds exactly the named permissions changes nothing. */
  lemma SeedRolePresent(roles: seq<Role>, perms: seq<Permission>, role: Role, permNames: seq<string>, id: Uuid)
    requires UniqueBy(roles, RoleIdOf) && UniqueBy(roles, RoleNameOf)
    requires role in roles && role.permissions == NamedIds(perms, permNames)
    ensures RoleIdFor(roles, role.name, id) == role.id
    ensures SeedRole(roles, perms, role.name, permNames, id) == roles
  {
    FindUnique(roles, RoleNameOf, role);
    var r := SeedRole(roles, perms, role.name, permNames, id);
    var i0 :| 0 <= i0 < |roles| && roles[i0] == role;
    UniqueKeyAt(roles, RoleIdOf, i0);
    forall i | 0 <= i < |roles| ensures r[i] == roles[i] {
    }
  }

  // ---- the administrator ---------------------------------------------------

  /** The account the seed creates: active, in the "admin" role, holding the digest of the fixed password. */
  function AdminAccount(id: Uuid, adminRoleId: Uuid, hash: string -> string): User {
    User(id, AdminName, AdminUsername, AdminEmail, hash(AdminPassword), adminRoleId, true, None, None)
  }

  /**
   * The final step: keep an existing account with the administrator's email,
   * else add the account; a taken username makes the commit fail.
   */
  function SeedAdmin(t: Tables, adminRoleId: Uuid, hash: string -> string, id: Uuid): (r: Result<Tables, DbError>)
    ensures UserService.GetUserByEmail(t, AdminEmail).Some? ==> r == Ok(t)
    ensures UserService.GetUserByEmail(t, AdminEmail).None? ==>
      if UserService.GetUserByUsername(t, AdminUsername).Some? then r == Err(UniqueViolation("username"))
      else r == Ok(t.(users := t.users + [AdminAccount(id, adminRoleId, hash)]))
  {
    if UserService.GetUserByEmail(t, AdminEmail).Some? then Ok(t)
    else if UserService.GetUserByUsername(t, AdminUsername).Some? then Err(UniqueViolation("username"))
    else Ok(t.(users := t.users + [AdminAccount(id, adminRoleId, hash)]))
  }

  // ---- the whole run -------------------------------------------------------

  /** The tables after the permission and role loops (the second `flush`). */
  function SeedTables(t: Tables, ids: seq<Uuid>): Tables
    requires |ids| == 9
  {
    var perms := SeedPermissions(t.permissions, SeedPermissionNames, ids);
    t.(permissions := perms, roles := SeedRoles(t.roles, perms, 2, ids))
  }

  /** The state `seed_initial_data` commits, or why the commit is refused. */
  function SeedResult(t: Tables, hash: string -> string, ids: seq<Uuid>): Result<Tables, DbError>
    requires |ids| == 9
  {
    SeedAdmin(SeedTables(t, ids), RoleIdFor(t.roles, "admin", ids[6]), hash, ids[8])
  }

  /** The two turns of the second loop, written out. */
  lemma SeedRolesUnfold(roles: seq<Role>, perms: seq<Permission>, ids: seq<Uuid>)
    requires |ids| == 9
    ensures SeedRoles(roles, perms, 2, ids)
         == SeedRole(SeedRole(roles, perms, "admin", SeedPermissionNames, ids[6]), perms, "user", UserRolePermissionNames, ids[7])
  {
    assert RolesData[0] == ("admin", SeedPermissionNames);
    assert RolesData[1] == ("user", UserRolePermissionNames);
    assert SeedRoles(roles, perms, 0, ids) == roles;
    assert SeedRoles(roles, perms, 1, ids) == SeedRole(roles, perms, "admin", SeedPermissionNames, ids[6]);
  }

  /** What the permission loop leaves behind: every name stored once, nothing dropped. */
  lemma SeedPermissionsPhase(t: Tables, ids: seq<Uuid>)
    requires Consistent(t) && SeedIdsFresh(t, ids)
    ensures var perms := SeedPermissions(t.permissions, SeedPermissionNames, ids);
      && UniqueBy(perms, PermissionIdOf) && UniqueBy(perms, PermissionNameOf)
      && PermissionIds(t) <= RoleService.PermissionIdSet(perms)
  {
    var perms := SeedPermissions(t.permissions, SeedPermissionNames, ids);
    SeedPermissionsUnique(t.permissions, SeedPermissionNames, ids);
    SeedPermissionsKeeps(t.permissions, SeedPermissionNames, ids);
    forall p | p in t.permissions ensures p.id in RoleService.PermissionIdSet(perms) {
      var i :| 0 <= i < |t.permissions| && t.permissions[i] == p;
      assert perms[i] == p;
    }
  }

  /** What the role loop leaves behind: both roles with exactly their permissions, the others kept. */
  lemma SeedRolesPhase(roles: seq<Role>, perms: seq<Permission>, ids: seq<Uuid>)
    requires UniqueBy(roles, RoleIdOf) && UniqueBy(roles, RoleNameOf)
    requires |ids| == 9 && ids[6] != ids[7] && ids[6] !in RoleIdSet(roles) && ids[7] !in RoleIdSet(roles)
    ensures var r := SeedRoles(roles, perms, 2, ids);
      && UniqueBy(r, RoleIdOf) && UniqueBy(r, RoleNameOf)
      && Role(RoleIdFor(roles, "admin", ids[6]), "admin", NamedIds(perms, SeedPermissionNames)) in r
      && Role(RoleIdFor(SeedRoles(roles, perms, 1, ids), "user", ids[7]), "user", NamedIds(perms, UserRolePermissionNames)) in r
      && RoleIdSet(roles) <= RoleIdSet(r)
      && (forall x :: x in r ==> x in roles || x.permissions <= RoleService.PermissionIdSet(perms))
      && (forall x :: x in roles && x.name != "admin" && x.name != "user" ==> x in r)
  {
    var roles1 := SeedRole(roles, perms, "admin", SeedPermissionNames, ids[6]);
    SeedRoleFacts(roles, perms, "admin", SeedPermissionNames, ids[6]);
    SeedRoleKeepsOthers(roles, perms, "admin", SeedPermissionNames, ids[6]);
    SeedRoleOnlyNamed(roles, perms, "admin", SeedPermissionNames, ids[6]);
    assert ids[7] !in RoleIdSet(roles1);
    var roles2 := SeedRole(roles1, perms, "user", UserRolePermissionNames, ids[7]);
    SeedRoleFacts(roles1, perms, "user", UserRolePermissionNames, ids[7]);
    SeedRoleKeepsOthers(roles1, perms, "user", UserRolePermissionNames, ids[7]);
    SeedRoleOnlyNamed(roles1, perms, "user", UserRolePermissionNames, ids[7]);
    SeedRolesUnfold(roles, perms, ids);
    var a := RoleIdFor(roles, "admin", ids[6]);
    var adminRole := Role(a, "admin", NamedIds(perms, SeedPermissionNames));
    assert adminRole in roles1 && adminRole.name != "user";
    var userRole := Role(RoleIdFor(roles1, "user", ids[7]), "user", NamedIds(perms, UserRolePermissionNames));
    assert userRole in roles2;
    NamedIdsStored(perms, SeedPermissionNames);
    NamedIdsStored(perms, UserRolePermissionNames);
    forall x | x in roles2 ensures x in roles || x.permissions <= RoleService.PermissionIdSet(perms) {
      assert x in roles1 || x.permissions == NamedIds(perms, UserRolePermissionNames);
    }
    forall x | x in roles && x.name != "admin" && x.name != "user" ensures x in roles2 {
      assert x in roles1;
    }
  }

  /** Replacing the permission and role tables by ones with these properties keeps the database consistent. */
  lemma ReplacedTablesConsistent(t: Tables, perms: seq<Permission>, roles: seq<Role>)
    requires Consistent(t)
    requires UniqueBy(perms, PermissionIdOf) && UniqueBy(perms, PermissionNameOf)
    requires UniqueBy(roles, RoleIdOf) && UniqueBy(roles, RoleNameOf)
    requires PermissionIds(t) <= RoleService.PermissionIdSet(perms)
    requires RoleIds(t) <= RoleIdSet(roles)
    requires forall x :: x in roles ==> x in t.roles || x.permissions <= RoleService.PermissionIdSet(perms)
    ensures Consistent(t.(permissions := perms, roles := roles))
  {
    var t2 := t.(permissions := perms, roles := roles);
    assert RoleIds(t2) == RoleIdSet(roles);
    assert PermissionIds(t2) == RoleService.PermissionIdSet(perms);
    assert UserIds(t2) == UserIds(t) && TagIds(t2) == TagIds(t);
  }

  /** The two loops keep the database consistent, and the "admin" role they leave is stored. */
  lemma SeedTablesConsistent(t: Tables, ids: seq<Uuid>)
    requires Consistent(t) && SeedIdsFresh(t, ids)
    ensures Consistent(SeedTables(t, ids))
  {
    var perms := SeedPermissions(t.permissions, SeedPermissionNames, ids);
    var roles := SeedRoles(t.roles, perms, 2, ids);
    SeedPermissionsPhase(t, ids);
    assert RoleIdSet(t.roles) == RoleIds(t);
    SeedRolesPhase(t.roles, perms, ids);
    ReplacedTablesConsistent(t, perms, roles);
    assert SeedTables(t, ids) == t.(permissions := perms, roles := roles);
  }

  /** The loops leave the "admin" role stored under the id the administrator will reference. */
  lemma SeedAdminRoleStored(t: Tables, ids: seq<Uuid>)
    requires Consistent(t) && SeedIdsFresh(t, ids)
    ensures RoleIdFor(t.roles, "admin", ids[6]) in RoleIds(SeedTables(t, ids))
  {
    var perms := SeedPermissions(t.permissions, SeedPermissionNames, ids);
    var roles := SeedRoles(t.roles, perms, 2, ids);
    assert RoleIdSet(t.roles) == RoleIds(t);
    SeedRolesPhase(t.roles, perms, ids);
    var a := RoleIdFor(t.roles, "admin", ids[6]);
    assert Role(a, "admin", NamedIds(perms, SeedPermissionNames)) in roles;
    assert RoleIds(SeedTables(t, ids)) == RoleIdSet(roles);
  }

  /** Adding the administrator keeps the database consistent. */
  lemma SeedAdminConsistent(t: Tables, adminRoleId: Uuid, hash: string -> string, id: Uuid)
    requires Consistent(t) && adminRoleId in RoleIds(t) && id !in UserIds(t)
    requires SeedAdmin(t, adminRoleId, hash, id).Ok?
    ensures Consistent(SeedAdmin(t, adminRoleId, hash, id).value)
  {
    if UserService.GetUserByEmail(t, AdminEmail).None? {
      var admin := AdminAccount(id, adminRoleId, hash);
      UniqueByAppend(t.users, UserIdOf, admin);
      UniqueByAppend(t.users, UserEmailOf, admin);
      UniqueByAppend(t.users, UserUsernameOf, admin);
      var t3 := t.(users := t.users + [admin]);
      assert UserIds(t3) == UserIds(t) + {admin.id};
    }
  }

  /** A run that commits leaves a consistent database. */
  lemma SeedKeepsConsistent(t: Tables, hash: string -> string, ids: seq<Uuid>)
    requires Consistent(t) && SeedIdsFresh(t, ids)
    requires SeedResult(t, hash, ids).Ok?
    ensures Consistent(SeedResult(t, hash, ids).value)
  {
    SeedAdminReady(t, ids);
    SeedAdminConsistent(SeedTables(t, ids), RoleIdFor(t.roles, "admin", ids[6]), hash, ids[8]);
  }

  /** The id the "user" role has after the second loop. */
  function UserRoleId(t: Tables, ids: seq<Uuid>): Uuid
    requires |ids| == 9
  {
    var perms := SeedPermissions(t.permissions, SeedPermissionNames, ids);
    RoleIdFor(SeedRoles(t.roles, perms, 1, ids), "user", ids[7])
  }

  /** After the two loops: the six permissions are stored, and each role holds exactly its named permissions. */
  lemma SeedTablesOutcome(t: Tables, ids: seq<Uuid>)
    requires Consistent(t) && SeedIdsFresh(t, ids)
    ensures var t2 := SeedTables(t, ids);
      && (forall n :: n in SeedPermissionNames ==> PermissionService.GetPermissionByName(t2, n).Some?)
      && RoleService.GetRoleByName(t2, "admin")
         == Some(Role(RoleIdFor(t.roles, "admin", ids[6]), "admin", NamedIds(t2.permissions, SeedPermissionNames)))
      && RoleService.GetRoleByName(t2, "user")
         == Some(Role(UserRoleId(t, ids), "user", NamedIds(t2.permissions, UserRolePermissionNames)))
      && t2.users == t.users && t2.tasks == t.tasks && t2.tags == t.tags
      && t.permissions <= t2.permissions
  {
    var perms := SeedPermissions(t.permissions, SeedPermissionNames, ids);
    var roles := SeedRoles(t.roles, perms, 2, ids);
    SeedPermissionsKeeps(t.permissions, SeedPermissionNames, ids);
    assert RoleIdSet(t.roles) == RoleIds(t);
    SeedRolesPhase(t.roles, perms, ids);
    FindUnique(roles, RoleNameOf, Role(RoleIdFor(t.roles, "admin", ids[6]), "admin", NamedIds(perms, SeedPermissionNames)));
    FindUnique(roles, RoleNameOf, Role(UserRoleId(t, ids), "user", NamedIds(perms, UserRolePermissionNames)));
    assert SeedTables(t, ids) == t.(permissions := perms, roles := roles);
  }

  /**
   * The administrator step as written: it builds the account with
   * `User(..., password=...)`, a keyword `User` has no attribute for, so when
   * no account has the administrator's email the constructor raises
   * TypeError before anything is added. The caller closes the session
   * without a commit, so nothing of the run is kept.
   */
  function SeedAdminAsWritten(t: Tables): (r: Result<Tables, Fault>)
    ensures r.Err? <==> UserService.GetUserByEmail(t, AdminEmail).None?
    ensures r.Err? ==> r.error == TypeError(UserService.PasswordKeywordError)
    ensures r.Ok? ==> r.value == t
  {
    if UserService.GetUserByEmail(t, AdminEmail).Some? then Ok(t)
    else Err(TypeError(UserService.PasswordKeywordError))
  }

  /**
   * `seed_initial_data` as written: the two loops, then the administrator
   * step above. It fails exactly when the administrator's email is free,
   * and otherwise commits the loops' tables with the users untouched.
   */
  function SeedResultAsWritten(t: Tables, ids: seq<Uuid>): (r: Result<Tables, Fault>)
    requires |ids| == 9
    ensures r.Err? <==> UserService.GetUserByEmail(t, AdminEmail).None?
    ensures r.Ok? ==> r.value == SeedTables(t, ids) && r.value.users == t.users
  {
    assert SeedTables(t, ids).users == t.users;
    SeedAdminAsWritten(SeedTables(t, ids))
  }

  /**
   * The discrepancy: on a database where neither the administrator's email
   * nor the username "admin" is taken, the run as written raises TypeError
   * and keeps nothing, while the repaired run commits and stores the new
   * administrator.
   */
  lemma SeedPasswordKeywordFinding(t: Tables, hash: string -> string, ids: seq<Uuid>)
    requires Consistent(t) && SeedIdsFresh(t, ids)
    requires UserService.GetUserByEmail(t, AdminEmail).None? && UserService.GetUserByUsername(t, AdminUsername).None?
    ensures SeedResultAsWritten(t, ids) == Err(TypeError(UserService.PasswordKeywordError))
    ensures SeedResult(t, hash, ids).Ok?
    ensures UserService.GetUserByEmail(SeedResult(t, hash, ids).value, AdminEmail)
         == Some(AdminAccount(ids[8], RoleIdFor(t.roles, "admin", ids[6]), hash))
  {
    SeedRefused(t, hash, ids);
    SeedAccountOutcome(t, hash, ids);
  }

  /** The very first run, on an empty database, fails as written whatever ids it draws. */
  lemma FirstSeedFailsAsWritten(ids: seq<Uuid>)
    requires |ids| == 9
    ensures SeedResultAsWritten(Empty, ids) == Err(TypeError(UserService.PasswordKeywordError))
  {
    assert UserService.GetUserByEmail(Empty, AdminEmail).None?;
  }

  /** `seed_initial_data` is refused exactly when the administrator's email is free but the username "admin" is taken. */
  lemma SeedRefused(t: Tables, hash: string -> string, ids: seq<Uuid>)
    requires |ids| == 9
    ensures SeedResult(t, hash, ids).Err? <==>
      UserService.GetUserByEmail(t, AdminEmail).None? && UserService.GetUserByUsername(t, AdminUsername).Some?
    ensures SeedResult(t, hash, ids).Err? ==> SeedResult(t, hash, ids).error == UniqueViolation("username")
  {
    assert SeedTables(t, ids).users == t.users;
  }

  /**
   * After a committed run the catalog is in place: every seed permission
   * exists, and the two roles hold exactly the permissions their lists name.
   */
  lemma SeedCatalogOutcome(t: Tables, hash: string -> string, ids: seq<Uuid>)
    requires Consistent(t) && SeedIdsFresh(t, ids)
    requires SeedResult(t, hash, ids).Ok?
    ensures var t1 := SeedResult(t, hash, ids).value;
      && (forall n :: n in SeedPermissionNames ==> PermissionService.GetPermissionByName(t1, n).Some?)
      && RoleService.GetRoleByName(t1, "admin")
         == Some(Role(RoleIdFor(t.roles, "admin", ids[6]), "admin", NamedIds(t1.permissions, SeedPermissionNames)))
      && RoleService.GetRoleByName(t1, "user")
         == Some(Role(UserRoleId(t, ids), "user", NamedIds(t1.permissions, UserRolePermissionNames)))
  {
    SeedTablesOutcome(t, ids);
    SeedTablesConsistent(t, ids);
    SeedAdminRoleStored(t, ids);
    var t2 := SeedTables(t, ids);
    var a := RoleIdFor(t.roles, "admin", ids[6]);
    SeedAdminOutcome(t2, a, hash, ids[8]);
    var t1 := SeedResult(t, hash, ids).value;
    assert t1.permissions == t2.permissions && t1.roles == t2.roles;
    assert RoleService.GetRoleByName(t1, "admin") == RoleService.GetRoleByName(t2, "admin");
    assert RoleService.GetRoleByName(t1, "user") == RoleService.GetRoleByName(t2, "user");
    forall n | n in SeedPermissionNames ensures PermissionService.GetPermissionByName(t1, n).Some? {
      assert PermissionService.GetPermissionByName(t1, n) == PermissionService.GetPermissionByName(t2, n);
    }
  }

  /**
   * After a committed run an account has the administrator's email: the new
   * administrator, active and in the "admin" role, when there was none.
   */
  lemma SeedAccountOutcome(t: Tables, hash: string -> string, ids: seq<Uuid>)
    requires Consistent(t) && SeedIdsFresh(t, ids)
    requires SeedResult(t, hash, ids).Ok?
    ensures var t1 := SeedResult(t, hash, ids).value;
      && UserService.GetUserByEmail(t1, AdminEmail).Some?
      && (UserService.GetUserByEmail(t, AdminEmail).None? ==>
            UserService.GetUserByEmail(t1, AdminEmail) == Some(AdminAccount(ids[8], RoleIdFor(t.roles, "admin", ids[6]), hash)))
  {
    var t2 := SeedTables(t, ids);
    var a := RoleIdFor(t.roles, "admin", ids[6]);
    SeedAdminReady(t, ids);
    SeedAdminOutcome(t2, a, hash, ids[8]);
  }

  /** After the two loops the administrator step finds a consistent database, the "admin" role stored and the users as they were. */
  lemma SeedAdminReady(t: Tables, ids: seq<Uuid>)
    requires Consistent(t) && SeedIdsFresh(t, ids)
    ensures var t2 := SeedTables(t, ids);
      && Consistent(t2) && RoleIdFor(t.roles, "admin", ids[6]) in RoleIds(t2) && ids[8] !in UserIds(t2)
      && t2.users == t.users && t2.tasks == t.tasks && t2.tags == t.tags && t.permissions <= t2.permissions
  {
    SeedTablesConsistent(t, ids);
    SeedAdminRoleStored(t, ids);
    SeedPermissionsKeeps(t.permissions, SeedPermissionNames, ids);
  }

  /** The seed only adds: no user or permission row is removed, and tasks and tags are untouched. */
  lemma SeedOnlyAdds(t: Tables, hash: string -> string, ids: seq<Uuid>)
    requires Consistent(t) && SeedIdsFresh(t, ids)
    requires SeedResult(t, hash, ids).Ok?
    ensures var t1 := SeedResult(t, hash, ids).value;
      t.users <= t1.users && t.permissions <= t1.permissions && t1.tasks == t.tasks && t1.tags == t.tags
  {
    SeedAdminReady(t, ids);
    SeedAdminOutcome(SeedTables(t, ids), RoleIdFor(t.roles, "admin", ids[6]), hash, ids[8]);
  }

  /** The administrator step only ever adds the account, and afterwards an account has the administrator's email. */
  lemma SeedAdminOutcome(t: Tables, adminRoleId: Uuid, hash: string -> string, id: Uuid)
    requires Consistent(t) && adminRoleId in RoleIds(t) && id !in UserIds(t)
    requires SeedAdmin(t, adminRoleId, hash, id).Ok?
    ensures var t1 := SeedAdmin(t, adminRoleId, hash, id).value;
      && t1.permissions == t.permissions && t1.roles == t.roles && t1.tasks == t.tasks && t1.tags == t.tags
      && t.users <= t1.users
      && UserService.GetUserByEmail(t1, AdminEmail).Some?
      && (UserService.GetUserByEmail(t, AdminEmail).None? ==>
            UserService.GetUserByEmail(t1, AdminEmail) == Some(AdminAccount(id, adminRoleId, hash)))
  {
    SeedAdminConsistent(t, adminRoleId, hash, id);
    var t1 := SeedAdmin(t, adminRoleId, hash, id).value;
    if UserService.GetUserByEmail(t, AdminEmail).None? {
      var admin := AdminAccount(id, adminRoleId, hash);
      assert t1.users == t.users + [admin];
      FindUnique(t1.users, UserEmailOf, admin);
    }
  }

  /** Running the seed on the state a run committed commits that same state again, whatever ids it may draw. */
  lemma SeedIdempotent(t: Tables, hash: string -> string, ids: seq<Uuid>, hash2: string -> string, ids2: seq<Uuid>)
    requires Consistent(t) && SeedIdsFresh(t, ids)
    requires SeedResult(t, hash, ids).Ok?
    requires |ids2| == 9
    ensures SeedResult(SeedResult(t, hash, ids).value, hash2, ids2) == SeedResult(t, hash, ids)
  {
    var t1 := SeedResult(t, hash, ids).value;
    SeedCatalogOutcome(t, hash, ids);
    SeedKeepsConsistent(t, hash, ids);
    SeedAccountOutcome(t, hash, ids);
    SeedTablesFixed(t1, ids2);
  }

  /** On a database that already holds the catalog the two loops change nothing. */
  lemma SeedTablesFixed(t: Tables, ids: seq<Uuid>)
    requires |ids| == 9 && Consistent(t)
    requires forall n :: n in SeedPermissionNames ==> PermissionService.GetPermissionByName(t, n).Some?
    requires RoleService.GetRoleByName(t, "admin").Some?
    requires RoleService.GetRoleByName(t, "admin").value.permissions == NamedIds(t.permissions, SeedPermissionNames)
    requires RoleService.GetRoleByName(t, "user").Some?
    requires RoleService.GetRoleByName(t, "user").value.permissions == NamedIds(t.permissions, UserRolePermissionNames)
    ensures SeedTables(t, ids) == t
  {
    var perms := t.permissions;
    SeedPermissionsPresent(perms, SeedPermissionNames, ids);
    var adminRole := RoleService.GetRoleByName(t, "admin").value;
    var userRole := RoleService.GetRoleByName(t, "user").value;
    SeedRolePresent(t.roles, perms, adminRole, SeedPermissionNames, ids[6]);
    SeedRolePresent(t.roles, perms, userRole, UserRolePermissionNames, ids[7]);
    SeedRolesUnfold(t.roles, perms, ids);
  }

  // ---- the imperative run --------------------------------------------------

  /**
   * `[permissions[p] for p in perms]` read through the dict the first loop
   * fills gives the same ids as looking the names up in the table.
   */
  lemma DictIdsAreNamedIds(perms: seq<Permission>, permissions: map<string, Permission>, permNames: seq<string>)
    requires UniqueBy(perms, PermissionNameOf)
    requires forall n :: n in permNames ==> n in permissions
    requires forall n :: n in permissions ==> permissions[n] in perms && permissions[n].name == n
    ensures (set n | n in permNames :: permissions[n].id) == NamedIds(perms, permNames)
  {
    forall p | p in perms && p.name in permNames ensures p.id in (set n | n in permNames :: permissions[n].id) {
      FindUnique(perms, PermissionNameOf, p);
      FindUnique(perms, PermissionNameOf, permissions[p.name]);
    }
  }

  /**
   * The first loop of `seed_initial_data` over the names `names`: find or
   * add each permission and remember it in the `permissions` dict. Only the
   * permission table changes.
   */
  method SeedPermissionLoop(db: Store, names: seq<string>, ids: seq<Uuid>) returns (permissions: map<string, Permission>)
    requires |names| <= |ids|
    modifies db
    ensures db.Snapshot() == old(db.Snapshot()).(permissions := SeedPermissions(old(db.permissions), names, ids))
    ensures forall n :: n in permissions <==> n in names
    ensures forall n :: n in permissions ==> permissions[n] in db.permissions && permissions[n].name == n
  {
    ghost var t := db.Snapshot();
    permissions := map[];
    var i := 0;
    while i < |names|
      invariant 0 <= i <= |names|
      invariant db.permissions == SeedPermissions(t.permissions, names[..i], ids)
      invariant db.users == t.users && db.roles == t.roles && db.tasks == t.tasks && db.tags == t.tags
      invariant forall n :: n in permissions <==> n in names[..i]
      invariant forall n :: n in permissions ==> permissions[n] in db.permissions && permissions[n].name == n
    {
      var name := names[i];
      SeedPermissionsStep(t.permissions, names, ids, i);
      var permission := FindBy(db.permissions, PermissionNameOf, name);
      var p: Permission;
      if permission.None? {
        p := Permission(ids[i], name);
        assert forall q :: q in db.permissions ==> q in db.permissions + [p];
        db.permissions := db.permissions + [p];
      } else {
        p := permission.value;
      }
      permissions := permissions[name := p];
      i := i + 1;
    }
    assert names[..i] == names;
  }

  /**
   * One turn of the second loop: find or add the role `roleName`, overwrite
   * its permissions with the ids read from the `permissions` dict, and give
   * back its id. Only the role table changes.
   */
  method SeedRoleTurn(db: Store, permissions: map<string, Permission>, roleName: string, permNames: seq<string>, id: Uuid)
    returns (roleId: Uuid)
    requires UniqueBy(db.permissions, PermissionNameOf)
    requires forall n :: n in permNames ==> n in permissions
    requires forall n :: n in permissions ==> permissions[n] in db.permissions && permissions[n].name == n
    modifies db
    ensures db.Snapshot() == old(db.Snapshot()).(roles := SeedRole(old(db.roles), db.permissions, roleName, permNames, id))
    ensures roleId == RoleIdFor(old(db.roles), roleName, id)
  {
    var found := FindBy(db.roles, RoleNameOf, roleName);
    if found.None? {
      roleId := id;
      db.roles := db.roles + [Role(roleId, roleName, {})];
    } else {
      roleId := found.value.id;
    }
    var permIds := set n | n in permNames :: permissions[n].id;
    DictIdsAreNamedIds(db.permissions, permissions, permNames);
    db.roles := RoleService.AssignedRoles(db.roles, roleId, permIds);
  }

  /**
   * The second loop of `seed_initial_data`: one turn per entry of
   * `roles_data`, remembering each role's id in the `roles` dict. Only the
   * role table changes.
   */
  method SeedRoleLoop(db: Store, permissions: map<string, Permission>, ids: seq<Uuid>) returns (roles: map<string, Uuid>)
    requires |ids| == 9
    requires UniqueBy(db.permissions, PermissionNameOf)
    requires forall n :: n in permissions <==> n in SeedPermissionNames
    requires forall n :: n in permissions ==> permissions[n] in db.permissions && permissions[n].name == n
    modifies db
    ensures db.Snapshot() == old(db.Snapshot()).(roles := SeedRoles(old(db.roles), db.permissions, 2, ids))
    ensures "admin" in roles && roles["admin"] == RoleIdFor(old(db.roles), "admin", ids[6])
  {
    ghost var t := db.Snapshot();
    roles := map[];
    var j := 0;
    while j < |RolesData|
      invariant 0 <= j <= |RolesData|
      invariant db.roles == SeedRoles(t.roles, t.permissions, j, ids)
      invariant db.users == t.users && db.permissions == t.permissions && db.tasks == t.tasks && db.tags == t.tags
      invariant j >= 1 ==> "admin" in roles && roles["admin"] == RoleIdFor(t.roles, "admin", ids[6])
    {
      var roleName := RolesData[j].0;
      var permNames := RolesData[j].1;
      assert j == 1 ==> roleName != "admin";
      var roleId := SeedRoleTurn(db, permissions, roleName, permNames, ids[6 + j]);
      roles := roles[roleName := roleId];
      j := j + 1;
    }
  }

  /**
   * The administrator step of `seed_initial_data`, up to the commit: add
   * the account unless one has the administrator's email. When the commit
   * would be refused nothing is added.
   */
  method SeedAdminStep(db: Store, adminRoleId: Uuid, hash: string -> string, id: Uuid) returns (r: Result<(), DbError>)
    modifies db
    ensures r.Ok? <==> SeedAdmin(old(db.Snapshot()), adminRoleId, hash, id).Ok?
    ensures r.Ok? ==> db.Snapshot() == SeedAdmin(old(db.Snapshot()), adminRoleId, hash, id).value
    ensures r.Err? ==> r.error == SeedAdmin(old(db.Snapshot()), adminRoleId, hash, id).error && db.Snapshot() == old(db.Snapshot())
  {
    var admin := FindBy(db.users, UserEmailOf, AdminEmail);
    if admin.None? {
      if FindBy(db.users, UserUsernameOf, AdminUsername).Some? {
        return Err(UniqueViolation("username"));
      }
      db.users := db.users + [AdminAccount(id, adminRoleId, hash)];
    }
    r := Ok(());
  }

  /**
   * `seed_initial_data`: the permission loop, the role loop and the
   * administrator, in one transaction. `ids` are the uuid4 values the run
   * may draw and `hash` stands for `hash_password`. A refused commit rolls
   * every change of the run back.
   */
  method SeedInitialData(db: Store, hash: string -> string, ids: seq<Uuid>) returns (r: Result<(), DbError>)
    requires db.Valid() && SeedIdsFresh(db.Snapshot(), ids)
    modifies db
    ensures db.Valid()
    ensures r.Ok? <==> SeedResult(old(db.Snapshot()), hash, ids).Ok?
    ensures r.Ok? ==> db.Snapshot() == SeedResult(old(db.Snapshot()), hash, ids).value
    ensures r.Err? ==> r.error == SeedResult(old(db.Snapshot()), hash, ids).error && db.Snapshot() == old(db.Snapshot())
  {
    var saved := db.Snapshot();
    ghost var t := saved;
    ghost var perms := SeedPermissions(t.permissions, SeedPermissionNames, ids);
    ghost var t2 := SeedTables(t, ids);
    assert t2 == t.(permissions := perms, roles := SeedRoles(t.roles, perms, 2, ids));
    var permissions := SeedPermissionLoop(db, SeedPermissionNames, ids);
    assert db.permissions == perms;
    SeedPermissionsPhase(t, ids);
    var roles := SeedRoleLoop(db, permissions, ids);
    assert db.Snapshot() == t2;
    ghost var a := RoleIdFor(t.roles, "admin", ids[6]);
    assert SeedResult(t, hash, ids) == SeedAdmin(t2, a, hash, ids[8]);
    r := SeedAdminStep(db, roles["admin"], hash, ids[8]);
    if r.Err? {
      db.Rollback(saved);
    } else {
      SeedKeepsConsistent(t, hash, ids);
    }
  }
}
