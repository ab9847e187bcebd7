/**
 * Tags (src/services/tag_service.py): lookups, creation with the creator
 * recorded, the list ordered by name, and the tasks of one owner that carry
 * a tag.
 */
module TagService {
  import opened Wrappers
  import opened Uuids
  import opened Collections
  import opened Db
  import TaskService

  /** `get_tag_by_id`. */
  function GetTagById(t: Tables, id: Uuid): (r: Option<Tag>)
    ensures r.Some? ==> r.value in t.tags && r.value.id == id
    ensures r.None? <==> id !in TagIds(t)
  {
    FindBy(t.tags, TagIdOf, id)
  }

  /** `get_tag_by_name`. */
  function GetTagByName(t: Tables, name: string): (r: Option<Tag>)
    ensures r.Some? ==> r.value in t.tags && r.value.name == name
    ensures r.None? <==> forall g :: g in t.tags ==> g.name != name
  {
    FindBy(t.tags, TagNameOf, name)
  }

  /** In a consistent database both lookups return THE tag holding the key. */
  lemma TagLookupsFindTheTag(t: Tables, g: Tag)
    requires Consistent(t) && g in t.tags
    ensures GetTagById(t, g.id) == Some(g)
    ensures GetTagByName(t, g.name) == Some(g)
  {
    FindUnique(t.tags, TagIdOf, g);
    FindUnique(t.tags, TagNameOf, g);
  }

  /**
   * `create_tag`: a tag recording its creator as text; `newId` is the uuid4
   * the row receives. A taken name is refused by the unique index on
   * `tags.name` at commit.
   */
  method CreateTag(db: Store, name: string, createdBy: Uuid, newId: Uuid) returns (r: Result<Tag, DbError>)
    requires db.Valid()
    requires newId !in TagIds(db.Snapshot())
    modifies db
    ensures db.Valid()
    ensures r.Ok? <==> GetTagByName(old(db.Snapshot()), name).None?
    ensures r.Ok? ==>
      && r.value == Tag(newId, name, Some(Format(createdBy)))
      && db.Snapshot() == old(db.Snapshot()).(tags := old(db.tags) + [r.value])
    ensures r.Err? ==> r.error == UniqueViolation("name") && db.Snapshot() == old(db.Snapshot())
  {
    if GetTagByName(db.Snapshot(), name).Some? {
      return Err(UniqueViolation("name"));
    }
    var tag := Tag(newId, name, Some(Format(createdBy)));
    ghost var t := db.Snapshot();
    UniqueByAppend(t.tags, TagIdOf, tag);
    UniqueByAppend(t.tags, TagNameOf, tag);
    db.tags := db.tags + [tag];
    assert TagIds(db.Snapshot()) == TagIds(t) + {newId};
    r := Ok(tag);
  }

  /** A created tag is found by its name afterwards. */
  lemma CreatedTagFound(t: Tables, name: string, createdBy: Uuid, newId: Uuid)
    requires Consistent(t) && GetTagByName(t, name).None?
    ensures GetTagByName(t.(tags := t.tags + [Tag(newId, name, Some(Format(createdBy)))]), name)
         == Some(Tag(newId, name, Some(Format(createdBy))))
  {
    var g := Tag(newId, name, Some(Format(createdBy)));
    UniqueByAppend(t.tags, TagNameOf, g);
    FindUnique(t.tags + [g], TagNameOf, g);
  }

  /** `get_all_tags`: every tag ordered by name, and how many there are. */
  function GetAllTags(t: Tables): (r: (seq<Tag>, nat))
    ensures SortedBy(r.0, TagNameOf)
    ensures multiset(r.0) == multiset(t.tags)
    ensures r.1 == |r.0| == |t.tags|
  {
    var tags := SortByName(t.tags, TagNameOf);
    (tags, |tags|)
  }

  /** `[task for task in tag.tasks if task.user_id == user_id]`, in table order. */
  function TaggedTasks(tasks: seq<Task>, tagId: Uuid, userId: Uuid): (r: seq<Task>)
    ensures forall k :: k in r <==> k in tasks && tagId in k.tags && k.userId == userId
  {
    Filter(tasks, (k: Task) => tagId in k.tags && k.userId == userId)
  }

  /**
   * `get_tasks_by_tag_name`: ([], 0) for an unknown name; otherwise the
   * tasks carrying the tag that the user owns, and how many there are.
   */
  function GetTasksByTagName(t: Tables, tagName: string, userId: Uuid): (r: (seq<Task>, nat))
    ensures r.1 == |r.0|
    ensures GetTagByName(t, tagName).None? ==> r == ([], 0)
    ensures GetTagByName(t, tagName).Some? ==>
      forall k :: k in r.0 <==> k in t.tasks && GetTagByName(t, tagName).value.id in k.tags && k.userId == userId
  {
    match GetTagByName(t, tagName)
    case None => ([], 0)
    case Some(tag) =>
      var tasks := TaggedTasks(t.tasks, tag.id, userId);
      (tasks, |tasks|)
  }

  /**
   * Tags by name and tasks by tag fit together: a task created with a list
   * of tag names that includes a stored tag's name is listed under that tag
   * for its owner, and for no one else.
   */
  lemma CreatedTaskListedUnderTag(t: Tables, data: TaskService.TaskCreate, userId: Uuid, newId: Uuid, g: Tag, other: Uuid)
    requires Consistent(t) && g in t.tags
    requires data.tagNames.Some? && g.name in data.tagNames.value
    requires other != userId
    ensures var k := TaskService.NewTask(newId, data, userId, t.tags);
      var t' := t.(tasks := t.tasks + [k]);
      && k in GetTasksByTagName(t', g.name, userId).0
      && k !in GetTasksByTagName(t', g.name, other).0
  {
    var k := TaskService.NewTask(newId, data, userId, t.tags);
    var t' := t.(tasks := t.tasks + [k]);
    FindUnique(t.tags, TagNameOf, g);
    assert GetTagByName(t', g.name) == Some(g);
    assert g.id in TaskService.TagsNamed(t.tags, data.tagNames.value);
  }
}
