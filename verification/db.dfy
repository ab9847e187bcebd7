/**
 * The persistent state: the five tables of the schema (users, roles,
 * permissions, tasks, tags) and the two association tables (permission_role,
 * task_tag), held in memory. Each table is a sequence of records in the
 * order they were inserted; an association is stored on the owning record
 * as a set of ids, as its composite primary key makes it a set.
 */
module Db {
  import opened Wrappers
  import opened Uuids
  import opened Collections

  datatype TaskStatus = Pending | InProgress | Completed
  datatype TaskPriority = Low | Medium | High

  /** The enum's string value ("pending", ...). */
  function StatusText(s: TaskStatus): string {
    match s
    case Pending => "pending"
    case InProgress => "in_progress"
    case Completed => "completed"
  }

  function PriorityText(p: TaskPriority): string {
    match p
    case Low => "low"
    case Medium => "medium"
    case High => "high"
  }

  /** `TaskStatus(text)`: the member with that value, or None for the ValueError. */
  function ParseStatus(text: string): (r: Option<TaskStatus>)
    ensures r.None? ==> forall s :: StatusText(s) != text
    ensures r.Some? ==> StatusText(r.value) == text
  {
    if text == "pending" then Some(Pending)
    else if text == "in_progress" then Some(InProgress)
    else if text == "completed" then Some(Completed)
    else None
  }

  function ParsePriority(text: string): (r: Option<TaskPriority>)
    ensures r.None? ==> forall p :: PriorityText(p) != text
    ensures r.Some? ==> PriorityText(r.value) == text
  {
    if text == "low" then Some(Low)
    else if text == "medium" then Some(Medium)
    else if text == "high" then Some(High)
    else None
  }

  /** A row of `users`; the password is only ever held as its digest. */
  datatype User = User(
    id: Uuid,
    name: string,
    username: string,
    email: string,
    passwordHash: string,
    roleId: Uuid,
    isActive: bool,
    createdBy: Option<string>,
    updatedBy: Option<string>)

  /** A row of `roles` with its rows of `permission_role`. */
  datatype Role = Role(id: Uuid, name: string, permissions: set<Uuid>)

  datatype Permission = Permission(id: Uuid, name: string)

  /** A row of `tasks` with its rows of `task_tag`. */
  datatype Task = Task(
    id: Uuid,
    title: string,
    description: Option<string>,
    status: TaskStatus,
    priority: TaskPriority,
    userId: Uuid,
    tags: set<Uuid>)

  datatype Tag = Tag(id: Uuid, name: string, createdBy: Option<string>)

  datatype Tables = Tables(
    users: seq<User>,
    roles: seq<Role>,
    permissions: seq<Permission>,
    tasks: seq<Task>,
    tags: seq<Tag>)

  /** Why the database refuses a write at commit (an IntegrityError). */
  datatype DbError = UniqueViolation(column: string) | ForeignKeyViolation(column: string)

  function UserIds(t: Tables): set<Uuid> { set u | u in t.users :: u.id }
  function RoleIds(t: Tables): set<Uuid> { set r | r in t.roles :: r.id }
  function PermissionIds(t: Tables): set<Uuid> { set p | p in t.permissions :: p.id }
  function TaskIds(t: Tables): set<Uuid> { set k | k in t.tasks :: k.id }
  function TagIds(t: Tables): set<Uuid> { set g | g in t.tags :: g.id }

  // The indexed columns, as key functions for lookups and uniqueness.
  function UserIdOf(u: User): Uuid { u.id }
  function UserEmailOf(u: User): string { u.email }
  function UserUsernameOf(u: User): string { u.username }
  function RoleIdOf(r: Role): Uuid { r.id }
  function RoleNameOf(r: Role): string { r.name }
  function PermissionIdOf(p: Permission): Uuid { p.id }
  function PermissionNameOf(p: Permission): string { p.name }
  function TaskIdOf(k: Task): Uuid { k.id }
  function TagIdOf(g: Tag): Uuid { g.id }
  function TagNameOf(g: Tag): string { g.name }

  /** Primary keys and the `unique=True` columns. */
  ghost predicate KeysUnique(t: Tables) {
    && UniqueBy(t.users, UserIdOf)
    && UniqueBy(t.users, UserUsernameOf)
    && UniqueBy(t.users, UserEmailOf)
    && UniqueBy(t.roles, RoleIdOf)
    && UniqueBy(t.roles, RoleNameOf)
    && UniqueBy(t.permissions, PermissionIdOf)
    && UniqueBy(t.permissions, PermissionNameOf)
    && UniqueBy(t.tasks, TaskIdOf)
    && UniqueBy(t.tags, TagIdOf)
    && UniqueBy(t.tags, TagNameOf)
  }

  /** The foreign keys: users.role_id, permission_role, tasks.user_id, task_tag. */
  ghost predicate ReferencesResolve(t: Tables) {
    && (forall u :: u in t.users ==> u.roleId in RoleIds(t))
    && (forall r :: r in t.roles ==> r.permissions <= PermissionIds(t))
    && (forall k :: k in t.tasks ==> k.userId in UserIds(t))
    && (forall k :: k in t.tasks ==> k.tags <= TagIds(t))
  }

  /** What the database's constraints guarantee of every committed state. */
  ghost predicate Consistent(t: Tables) {
    KeysUnique(t) && ReferencesResolve(t)
  }

  const Empty := Tables([], [], [], [], [])

  lemma EmptyConsistent()
    ensures Consistent(Empty)
  {
  }

  /** A new task table keeps the database consistent when its ids are unique and its references resolve. */
  lemma WithTasksConsistent(t: Tables, tasks: seq<Task>)
    requires Consistent(t)
    requires UniqueBy(tasks, TaskIdOf)
    requires forall k :: k in tasks ==> k.userId in UserIds(t) && k.tags <= TagIds(t)
    ensures Consistent(t.(tasks := tasks))
  {
    var t' := t.(tasks := tasks);
    assert UserIds(t') == UserIds(t) && TagIds(t') == TagIds(t);
    assert RoleIds(t') == RoleIds(t) && PermissionIds(t') == PermissionIds(t);
  }

  /**
   * A new user table keeps the database consistent when its keys are
   * unique, its roles exist and it keeps every user id a task refers to.
   */
  lemma WithUsersConsistent(t: Tables, users: seq<User>)
    requires Consistent(t)
    requires UniqueBy(users, UserIdOf) && UniqueBy(users, UserEmailOf) && UniqueBy(users, UserUsernameOf)
    requires forall u :: u in users ==> u.roleId in RoleIds(t)
    requires UserIds(t) <= UserIds(t.(users := users))
    ensures Consistent(t.(users := users))
  {
    var t' := t.(users := users);
    assert RoleIds(t') == RoleIds(t) && TagIds(t') == TagIds(t) && PermissionIds(t') == PermissionIds(t);
  }

  /**
   * A new role table keeps the database consistent when its keys are
   * unique, its permissions exist and it keeps every role id a user refers to.
   */
  lemma WithRolesConsistent(t: Tables, roles: seq<Role>)
    requires Consistent(t)
    requires UniqueBy(roles, RoleIdOf) && UniqueBy(roles, RoleNameOf)
    requires forall r :: r in roles ==> r.permissions <= PermissionIds(t)
    requires RoleIds(t) <= RoleIds(t.(roles := roles))
    ensures Consistent(t.(roles := roles))
  {
    var t' := t.(roles := roles);
    assert UserIds(t') == UserIds(t) && TagIds(t') == TagIds(t) && PermissionIds(t') == PermissionIds(t);
  }

  /** The live database session: one field per table. */
  class Store {
    var users: seq<User>
    var roles: seq<Role>
    var permissions: seq<Permission>
    var tasks: seq<Task>
    var tags: seq<Tag>

    function Snapshot(): Tables
      reads this
    {
      Tables(users, roles, permissions, tasks, tags)
    }

    ghost predicate Valid()
      reads this
    {
      Consistent(Snapshot())
    }

    constructor ()
      ensures Snapshot() == Empty && Valid()
    {
      users, roles, permissions, tasks, tags := [], [], [], [], [];
    }

    /** `rollback()`: every table goes back to the state `saved` the transaction began with. */
    method Rollback(saved: Tables)
      modifies this
      ensures Snapshot() == saved
    {
      users, roles, permissions, tasks, tags := saved.users, saved.roles, saved.permissions, saved.tasks, saved.tags;
    }
  }
}
