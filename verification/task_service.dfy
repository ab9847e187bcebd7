/**
 * Tasks (src/services/task_service.py). Every task belongs to one user and
 * every read, change and removal is scoped to that owner: a task id alone
 * never reaches another user's task. Tags are attached by name.
 */
module TaskService {
  import opened Wrappers
  import opened Uuids
  import opened Collections
  import opened Db
  import opened Http
  import UserService

  // ---- tags by name --------------------------------------------------------

  /** `query(Tag).filter(Tag.name.in_(names)).all()`, as the ids stored in `task_tag`. */
  function TagsNamed(tags: seq<Tag>, names: seq<string>): (r: set<Uuid>)
    ensures forall id :: id in r <==> exists g :: g in tags && g.name in names && g.id == id
  {
    set g | g in tags && g.name in names :: g.id
  }

  /** The tags `create_task` attaches: the named ones when `tag_names` is a non-empty list, else none. */
  function CreateTagIds(tags: seq<Tag>, tagNames: Option<seq<string>>): set<Uuid> {
    if Truthy(tagNames) then TagsNamed(tags, tagNames.value) else {}
  }

  /**
   * The truthiness guard of `create_task` changes nothing: an empty or
   * missing list attaches no tag, and so would the query on no names.
   * Unknown names are dropped and every attached tag is stored.
   */
  lemma CreateTagIdsAreNamed(t: Tables, tagNames: Option<seq<string>>)
    ensures CreateTagIds(t.tags, tagNames) == TagsNamed(t.tags, tagNames.GetOr([]))
    ensures CreateTagIds(t.tags, tagNames) <= TagIds(t)
  {
    if !Truthy(tagNames) {
      NoNamesNoTags(t.tags);
    }
  }

  lemma NoNamesNoTags(tags: seq<Tag>)
    ensures TagsNamed(tags, []) == {}
  {
  }

  // ---- create_task -----------------------------------------------------------

  /** The body of POST /tasks after schema validation; status and priority are already enum members. */
  datatype TaskCreate = TaskCreate(
    title: string,
    description: Option<string>,
    status: TaskStatus,
    priority: TaskPriority,
    tagNames: Option<seq<string>>)

  /** The Pydantic field bounds of TaskCreate. */
  predicate TaskCreateWellFormed(data: TaskCreate) {
    && 1 <= |data.title| <= 200
    && (data.description.Some? ==> |data.description.value| <= 2000)
  }

  /** The row `create_task` inserts for owner `userId`. */
  function NewTask(id: Uuid, data: TaskCreate, userId: Uuid, tags: seq<Tag>): Task {
    Task(id, data.title, data.description, data.status, data.priority, userId, CreateTagIds(tags, data.tagNames))
  }

  /**
   * `create_task`; `newId` is the uuid4 the row receives. An owner that is
   * no stored user is refused by the foreign key on `tasks.user_id`.
   */
  method CreateTask(db: Store, data: TaskCreate, userId: Uuid, newId: Uuid) returns (r: Result<Task, DbError>)
    requires db.Valid()
    requires TaskCreateWellFormed(data)
    requires newId !in TaskIds(db.Snapshot())
    modifies db
    ensures db.Valid()
    ensures r.Ok? <==> userId in UserIds(old(db.Snapshot()))
    ensures r.Err? ==> r.error == ForeignKeyViolation("user_id") && db.Snapshot() == old(db.Snapshot())
    ensures r.Ok? ==>
      && r.value == NewTask(newId, data, userId, old(db.tags))
      && db.Snapshot() == old(db.Snapshot()).(tasks := old(db.tasks) + [r.value])
  {
    var tagIds: set<Uuid> := {};
    if Truthy(data.tagNames) {
      tagIds := TagsNamed(db.tags, data.tagNames.value);
    }
    var task := Task(newId, data.title, data.description, data.status, data.priority, userId, tagIds);
    if userId !in UserIds(db.Snapshot()) {
      return Err(ForeignKeyViolation("user_id"));
    }
    ghost var t := db.Snapshot();
    CreateTagIdsAreNamed(t, data.tagNames);
    UniqueByAppend(t.tasks, TaskIdOf, task);
    db.tasks := db.tasks + [task];
    r := Ok(task);
  }

  // ---- get_task_by_id ----------------------------------------------------------

  /** The two columns `get_task_by_id` filters on. */
  function TaskKeyOf(k: Task): (Uuid, Uuid) {
    (k.id, k.userId)
  }

  /** `get_task_by_id`: the task with that id, only when `userId` owns it. */
  function GetTaskById(t: Tables, taskId: Uuid, userId: Uuid): (r: Option<Task>)
    ensures r.Some? ==> r.value in t.tasks && r.value.id == taskId && r.value.userId == userId
    ensures r.None? <==> forall k :: k in t.tasks ==> !(k.id == taskId && k.userId == userId)
  {
    FindBy(t.tasks, TaskKeyOf, (taskId, userId))
  }

  /**
   * The lookup is scoped to the owner: in a consistent database the owner
   * finds the task, and any other user finds nothing under its id.
   */
  lemma TaskVisibleOnlyToOwner(t: Tables, k: Task, other: Uuid)
    requires Consistent(t) && k in t.tasks && other != k.userId
    ensures GetTaskById(t, k.id, k.userId) == Some(k)
    ensures GetTaskById(t, k.id, other).None?
  {
    assert UniqueBy(t.tasks, TaskKeyOf) by {
      forall a, b | 0 <= a < b < |t.tasks| ensures TaskKeyOf(t.tasks[a]) != TaskKeyOf(t.tasks[b]) {
        assert TaskIdOf(t.tasks[a]) != TaskIdOf(t.tasks[b]);
      }
    }
    FindUnique(t.tasks, TaskKeyOf, k);
    forall j | j in t.tasks && j.id == k.id ensures j.userId == k.userId {
      FindUnique(t.tasks, TaskIdOf, j);
      FindUnique(t.tasks, TaskIdOf, k);
    }
  }

  // ---- get_tasks_paginated -----------------------------------------------------

  /** The text of a ValueError raised by an Enum call on a value it does not hold. */
  function NotAValid(value: string, enumName: string): string {
    "'" + value + "' is not a valid " + enumName
  }

  /** `if status: ... TaskStatus(status)`: no filter for a missing or empty text, a ValueError for an unknown one. */
  function StatusFilter(status: Option<string>): (r: Result<Option<TaskStatus>, Fault>)
    ensures !Truthy(status) ==> r == Ok(None)
    ensures Truthy(status) ==> (r.Err? <==> forall s :: StatusText(s) != status.value)
    ensures r.Ok? && r.value.Some? ==> Truthy(status) && StatusText(r.value.value) == status.value
    ensures r.Err? ==> r.error == ValueError(NotAValid(status.value, "TaskStatus"))
  {
    if !Truthy(status) then Ok(None)
    else match ParseStatus(status.value)
      case None => Err(ValueError(NotAValid(status.value, "TaskStatus")))
      case Some(s) => Ok(Some(s))
  }

  /** `if priority: ... TaskPriority(priority)`. */
  function PriorityFilter(priority: Option<string>): (r: Result<Option<TaskPriority>, Fault>)
    ensures !Truthy(priority) ==> r == Ok(None)
    ensures Truthy(priority) ==> (r.Err? <==> forall p :: PriorityText(p) != priority.value)
    ensures r.Ok? && r.value.Some? ==> Truthy(priority) && PriorityText(r.value.value) == priority.value
    ensures r.Err? ==> r.error == ValueError(NotAValid(priority.value, "TaskPriority"))
  {
    if !Truthy(priority) then Ok(None)
    else match ParsePriority(priority.value)
      case None => Err(ValueError(NotAValid(priority.value, "TaskPriority")))
      case Some(p) => Ok(Some(p))
  }

  /** Does task `k` pass the listing's filters? */
  predicate Listed(k: Task, userId: Uuid, status: Option<TaskStatus>, priority: Option<TaskPriority>) {
    && k.userId == userId
    && (status.Some? ==> k.status == status.value)
    && (priority.Some? ==> k.priority == priority.value)
  }

  /** The user's tasks that pass the filters, in table order. */
  function ListedTasks(tasks: seq<Task>, userId: Uuid, status: Option<TaskStatus>, priority: Option<TaskPriority>)
    : (r: seq<Task>)
    ensures forall k :: k in r <==> k in tasks && Listed(k, userId, status, priority)
  {
    Filter(tasks, (k: Task) => Listed(k, userId, status, priority))
  }

  /**
   * `get_tasks_paginated`: the status text is converted first, then the
   * priority text; an unknown one raises. Otherwise the user's tasks that
   * pass the filters are counted, then one page of them is taken, newest first.
   */
  function GetTasksPaginated(t: Tables, userId: Uuid, page: nat, pageSize: nat, status: Option<string>, priority: Option<string>)
    : (r: Result<(seq<Task>, nat), Fault>)
    requires page >= 1 && pageSize >= 1
    ensures StatusFilter(status).Err? ==> r == Err(StatusFilter(status).error)
    ensures StatusFilter(status).Ok? && PriorityFilter(priority).Err? ==> r == Err(PriorityFilter(priority).error)
    ensures r.Err? <==> StatusFilter(status).Err? || PriorityFilter(priority).Err?
    ensures r.Ok? ==>
      var matching := ListedTasks(t.tasks, userId, StatusFilter(status).value, PriorityFilter(priority).value);
      && r.value.0 == Page(NewestFirst(matching), page, pageSize)
      && r.value.1 == |matching|
    ensures r.Ok? ==> |r.value.0| <= pageSize && forall k :: k in r.value.0 ==>
      && k in t.tasks && k.userId == userId
      && (Truthy(status) ==> StatusText(k.status) == status.value)
      && (Truthy(priority) ==> PriorityText(k.priority) == priority.value)
  {
    match StatusFilter(status)
    case Err(e) => Err(e)
    case Ok(s) =>
      match PriorityFilter(priority)
      case Err(e) => Err(e)
      case Ok(p) =>
        var matching := ListedTasks(t.tasks, userId, s, p);
        PageOfNewestWithin(matching, page, pageSize);
        Ok((Page(NewestFirst(matching), page, pageSize), |matching|))
  }

  /** Without filters the total counts every task the user owns, and none of anyone else's. */
  lemma UnfilteredTotalCountsOwnTasks(t: Tables, userId: Uuid, page: nat, pageSize: nat)
    requires page >= 1 && pageSize >= 1
    ensures GetTasksPaginated(t, userId, page, pageSize, None, None)
         == Ok((Page(NewestFirst(Filter(t.tasks, (k: Task) => k.userId == userId)), page, pageSize),
                |Filter(t.tasks, (k: Task) => k.userId == userId)|))
  {
    FilterCongruent(t.tasks, (k: Task) => Listed(k, userId, None, None), (k: Task) => k.userId == userId);
  }

  /** With both filters understood, a page of the listing is a page of the matching tasks, newest first. */
  lemma ListingPage(t: Tables, userId: Uuid, page: nat, pageSize: nat, status: Option<string>, priority: Option<string>)
    requires page >= 1 && pageSize >= 1
    requires StatusFilter(status).Ok? && PriorityFilter(priority).Ok?
    ensures var matching := ListedTasks(t.tasks, userId, StatusFilter(status).value, PriorityFilter(priority).value);
      GetTasksPaginated(t, userId, page, pageSize, status, priority) == Ok((Page(NewestFirst(matching), page, pageSize), |matching|))
  {
  }

  /**
   * The listing and `calculate_total_pages` agree: a position of the
   * listing below the total is shown, at that place, on a page the count
   * announces.
   */
  lemma TaskPagesCoverListing(t: Tables, userId: Uuid, pageSize: nat, status: Option<string>, priority: Option<string>, page: nat, pos: nat)
    requires pageSize >= 1 && page >= 1 && pos < pageSize
    requires GetTasksPaginated(t, userId, 1, pageSize, status, priority).Ok?
    requires Offset(page, pageSize) + pos < GetTasksPaginated(t, userId, 1, pageSize, status, priority).value.1
    ensures page <= UserService.CalculateTotalPages(GetTasksPaginated(t, userId, 1, pageSize, status, priority).value.1, pageSize)
    ensures pos < |GetTasksPaginated(t, userId, page, pageSize, status, priority).value.0|
  {
    var matching := ListedTasks(t.tasks, userId, StatusFilter(status).value, PriorityFilter(priority).value);
    ListingPage(t, userId, 1, pageSize, status, priority);
    ListingPage(t, userId, page, pageSize, status, priority);
    UserService.EveryRecordOnAPage(NewestFirst(matching), pageSize, page, pos);
  }

  /** A page past the count `calculate_total_pages` gives lists nothing but still reports the total. */
  lemma TaskPagesPastCountEmpty(t: Tables, userId: Uuid, pageSize: nat, status: Option<string>, priority: Option<string>)
    requires pageSize >= 1
    requires GetTasksPaginated(t, userId, 1, pageSize, status, priority).Ok?
    ensures var total := GetTasksPaginated(t, userId, 1, pageSize, status, priority).value.1;
      GetTasksPaginated(t, userId, UserService.CalculateTotalPages(total, pageSize) + 1, pageSize, status, priority)
        == Ok(([], total))
  {
    var matching := ListedTasks(t.tasks, userId, StatusFilter(status).value, PriorityFilter(priority).value);
    ListingPage(t, userId, 1, pageSize, status, priority);
    var last := UserService.CalculateTotalPages(|matching|, pageSize) + 1;
    ListingPage(t, userId, last, pageSize, status, priority);
    UserService.PagesPastTheCountAreEmpty(NewestFirst(matching), pageSize, last);
  }

  // ---- update_task -------------------------------------------------------------

  /** The body of PATCH /tasks/{id}: every field optional, and sent or not. */
  datatype TaskUpdate = TaskUpdate(
    title: UserService.Patch<string>,
    description: UserService.Patch<string>,
    status: UserService.Patch<TaskStatus>,
    priority: UserService.Patch<TaskPriority>,
    tagNames: UserService.Patch<seq<string>>)

  /** One `(field, value)` item of `model_dump(exclude_unset=True)`. */
  datatype TaskField =
    | TitleField(title: Option<string>)
    | DescriptionField(description: Option<string>)
    | StatusField(status: Option<TaskStatus>)
    | PriorityField(priority: Option<TaskPriority>)
    | TagNamesField(tagNames: Option<seq<string>>)

  /** The sent fields, in declaration order. */
  function TaskUpdateItems(data: TaskUpdate): seq<TaskField> {
    TitleItems(data.title) + DescriptionItems(data.description) + StatusItems(data.status)
    + PriorityItems(data.priority) + TagNamesItems(data.tagNames)
  }

  function TitleItems(p: UserService.Patch<string>): seq<TaskField> {
    if p.Sent? then [TitleField(p.value)] else []
  }

  function DescriptionItems(p: UserService.Patch<string>): seq<TaskField> {
    if p.Sent? then [DescriptionField(p.value)] else []
  }

  function StatusItems(p: UserService.Patch<TaskStatus>): seq<TaskField> {
    if p.Sent? then [StatusField(p.value)] else []
  }

  function PriorityItems(p: UserService.Patch<TaskPriority>): seq<TaskField> {
    if p.Sent? then [PriorityField(p.value)] else []
  }

  function TagNamesItems(p: UserService.Patch<seq<string>>): seq<TaskField> {
    if p.Sent? then [TagNamesField(p.value)] else []
  }

  /**
   * One turn of the loop: a non-null `tag_names` replaces the tags with the
   * stored tags of those names; any other non-null value is set; null is skipped.
   */
  function SetTaskField(tags: seq<Tag>): (Task, TaskField) -> Task {
    (k: Task, f: TaskField) =>
      match f
      case TitleField(v) => if v.Some? then k.(title := v.value) else k
      case DescriptionField(v) => if v.Some? then k.(description := Some(v.value)) else k
      case StatusField(v) => if v.Some? then k.(status := v.value) else k
      case PriorityField(v) => if v.Some? then k.(priority := v.value) else k
      case TagNamesField(v) => if v.Some? then k.(tags := TagsNamed(tags, v.value)) else k
  }

  /** A sent, non-null value replaces the field; anything else keeps the old one. */
  function Sent<T>(p: UserService.Patch<T>): Option<T> {
    if p.Sent? then p.value else None
  }

  /** What `update_task` promises: only fields sent with a value change, and named tags replace the old ones. */
  function PatchedTask(tags: seq<Tag>, k: Task, data: TaskUpdate): Task {
    k.(title := Sent(data.title).GetOr(k.title),
       description := if Sent(data.description).Some? then Sent(data.description) else k.description,
       status := Sent(data.status).GetOr(k.status),
       priority := Sent(data.priority).GetOr(k.priority),
       tags := if Sent(data.tagNames).Some? then TagsNamed(tags, Sent(data.tagNames).value) else k.tags)
  }

  lemma ApplyTitleItems(tags: seq<Tag>, k: Task, p: UserService.Patch<string>)
    ensures Steps(k, TitleItems(p), SetTaskField(tags)) == k.(title := Sent(p).GetOr(k.title))
  {
    if p.Sent? { StepsSingle(k, TitleField(p.value), SetTaskField(tags)); }
  }

  lemma ApplyDescriptionItems(tags: seq<Tag>, k: Task, p: UserService.Patch<string>)
    ensures Steps(k, DescriptionItems(p), SetTaskField(tags))
         == k.(description := if Sent(p).Some? then Sent(p) else k.description)
  {
    if p.Sent? { StepsSingle(k, DescriptionField(p.value), SetTaskField(tags)); }
  }

  lemma ApplyStatusItems(tags: seq<Tag>, k: Task, p: UserService.Patch<TaskStatus>)
    ensures Steps(k, StatusItems(p), SetTaskField(tags)) == k.(status := Sent(p).GetOr(k.status))
  {
    if p.Sent? { StepsSingle(k, StatusField(p.value), SetTaskField(tags)); }
  }

  lemma ApplyPriorityItems(tags: seq<Tag>, k: Task, p: UserService.Patch<TaskPriority>)
    ensures Steps(k, PriorityItems(p), SetTaskField(tags)) == k.(priority := Sent(p).GetOr(k.priority))
  {
    if p.Sent? { StepsSingle(k, PriorityField(p.value), SetTaskField(tags)); }
  }

  lemma ApplyTagNamesItems(tags: seq<Tag>, k: Task, p: UserService.Patch<seq<string>>)
    ensures Steps(k, TagNamesItems(p), SetTaskField(tags))
         == k.(tags := if Sent(p).Some? then TagsNamed(tags, Sent(p).value) else k.tags)
  {
    if p.Sent? { StepsSingle(k, TagNamesField(p.value), SetTaskField(tags)); }
  }

  /** Running the setattr loop over the dumped items yields PatchedTask. */
  lemma SetTaskFieldsIsPatch(tags: seq<Tag>, k: Task, data: TaskUpdate)
    ensures Steps(k, TaskUpdateItems(data), SetTaskField(tags)) == PatchedTask(tags, k, data)
  {
    var step := SetTaskField(tags);
    var a, b, c, d, e := TitleItems(data.title), DescriptionItems(data.description), StatusItems(data.status),
      PriorityItems(data.priority), TagNamesItems(data.tagNames);
    StepsConcat(k, a + b + c + d, e, step);
    StepsConcat(k, a + b + c, d, step);
    StepsConcat(k, a + b, c, step);
    StepsConcat(k, a, b, step);
    var k1 := Steps(k, a, step);
    ApplyTitleItems(tags, k, data.title);
    var k2 := Steps(k1, b, step);
    ApplyDescriptionItems(tags, k1, data.description);
    var k3 := Steps(k2, c, step);
    ApplyStatusItems(tags, k2, data.status);
    var k4 := Steps(k3, d, step);
    ApplyPriorityItems(tags, k3, data.priority);
    ApplyTagNamesItems(tags, k4, data.tagNames);
  }

  /**
   * What an update can and cannot do: id and owner never change, a field
   * left out or sent as null keeps its value (so a description cannot be
   * cleared), an empty `tag_names` list removes every tag, and the tags
   * stay stored tags.
   */
  lemma PatchedTaskFacts(t: Tables, k: Task, data: TaskUpdate)
    requires k.tags <= TagIds(t)
    ensures var k' := PatchedTask(t.tags, k, data);
      && k'.id == k.id && k'.userId == k.userId
      && (Sent(data.title).None? ==> k'.title == k.title)
      && (Sent(data.description).None? ==> k'.description == k.description)
      && (Sent(data.status).None? ==> k'.status == k.status)
      && (Sent(data.priority).None? ==> k'.priority == k.priority)
      && (Sent(data.tagNames).None? ==> k'.tags == k.tags)
      && (data.tagNames == UserService.Sent(Some([])) ==> k'.tags == {})
      && k'.tags <= TagIds(t)
  {
    NoNamesNoTags(t.tags);
  }

  /** Sending the same update twice leaves the task as one update does. */
  lemma UpdateIdempotent(tags: seq<Tag>, k: Task, data: TaskUpdate)
    ensures PatchedTask(tags, PatchedTask(tags, k, data), data) == PatchedTask(tags, k, data)
  {
  }

  /** The setattr loop of `update_task`. */
  method ApplyTaskUpdate(tags: seq<Tag>, found: Task, data: TaskUpdate) returns (task: Task)
    ensures task == PatchedTask(tags, found, data)
  {
    task := found;
    var items := TaskUpdateItems(data);
    var step := SetTaskField(tags);
    var i := 0;
    while i < |items|
      invariant 0 <= i <= |items|
      invariant task == Steps(found, items[..i], step)
    {
      StepsConcat(found, items[..i], [items[i]], step);
      StepsSingle(task, items[i], step);
      assert items[..i + 1] == items[..i] + [items[i]];
      task := step(task, items[i]);
      i := i + 1;
    }
    assert items[..i] == items;
    SetTaskFieldsIsPatch(tags, found, data);
  }

  /** Storing a changed task that keeps its id and owner and holds stored tags keeps the database consistent. */
  lemma ReplaceTaskKeepsConsistent(t: Tables, i: nat, k: Task)
    requires Consistent(t) && i < |t.tasks|
    requires k.id == t.tasks[i].id && k.userId == t.tasks[i].userId && k.tags <= TagIds(t)
    ensures Consistent(t.(tasks := t.tasks[i := k]))
    ensures t.tasks[i := k] == ReplaceBy(t.tasks, TaskIdOf, k)
  {
    UniqueKeyAt(t.tasks, TaskIdOf, i);
    UniqueByUpdate(t.tasks, TaskIdOf, i, k);
    forall x | x in t.tasks[i := k] ensures x.userId in UserIds(t) && x.tags <= TagIds(t) {
      var j :| 0 <= j < |t.tasks| && t.tasks[i := k][j] == x;
      assert j != i ==> x == t.tasks[j];
    }
    WithTasksConsistent(t, t.tasks[i := k]);
    ReplaceByAt(t.tasks, TaskIdOf, k, i);
  }

  /**
   * `update_task`: a task that is missing or owned by someone else gives
   * None and changes nothing; otherwise the setattr loop runs on it.
   */
  method UpdateTask(db: Store, taskId: Uuid, userId: Uuid, data: TaskUpdate) returns (r: Option<Task>)
    requires db.Valid()
    modifies db
    ensures db.Valid()
    ensures r.None? <==> GetTaskById(old(db.Snapshot()), taskId, userId).None?
    ensures r.None? ==> db.Snapshot() == old(db.Snapshot())
    ensures r.Some? ==>
      && r.value == PatchedTask(old(db.tags), GetTaskById(old(db.Snapshot()), taskId, userId).value, data)
      && db.Snapshot() == old(db.Snapshot()).(tasks := ReplaceBy(old(db.tasks), TaskIdOf, r.value))
  {
    var idx := FindIndexBy(db.tasks, TaskKeyOf, (taskId, userId));
    if idx.None? {
      return None;
    }
    var i := idx.value;
    var task := ApplyTaskUpdate(db.tags, db.tasks[i], data);
    PatchedTaskFacts(db.Snapshot(), db.tasks[i], data);
    ReplaceTaskKeepsConsistent(db.Snapshot(), i, task);
    db.tasks := db.tasks[i := task];
    r := Some(task);
  }

  // ---- delete_task -------------------------------------------------------------

  /** Removing a task keeps the database consistent: no row refers to a task. */
  lemma RemoveTaskKeepsConsistent(t: Tables, i: nat)
    requires Consistent(t) && i < |t.tasks|
    ensures Consistent(t.(tasks := t.tasks[..i] + t.tasks[i + 1..]))
  {
    UniqueByRemove(t.tasks, TaskIdOf, i);
    WithTasksConsistent(t, t.tasks[..i] + t.tasks[i + 1..]);
  }

  /**
   * `delete_task`: False, and nothing removed, for a task that is missing
   * or owned by someone else; otherwise True, and exactly that task is gone.
   */
  method DeleteTask(db: Store, taskId: Uuid, userId: Uuid) returns (deleted: bool)
    requires db.Valid()
    modifies db
    ensures db.Valid()
    ensures deleted <==> GetTaskById(old(db.Snapshot()), taskId, userId).Some?
    ensures !deleted ==> db.Snapshot() == old(db.Snapshot())
    ensures deleted ==> db.Snapshot() == old(db.Snapshot()).(tasks := RemoveBy(old(db.tasks), TaskIdOf, taskId))
    ensures deleted ==> forall k :: k in db.tasks <==> k in old(db.tasks) && k.id != taskId
  {
    var idx := FindIndexBy(db.tasks, TaskKeyOf, (taskId, userId));
    if idx.None? {
      return false;
    }
    var i := idx.value;
    RemoveByAt(db.tasks, TaskIdOf, i);
    RemoveTaskKeepsConsistent(db.Snapshot(), i);
    db.tasks := db.tasks[..i] + db.tasks[i + 1..];
    deleted := true;
  }
}
