/** The task handlers. The router mounts the token guard in front of all of
    them, so list, update and delete read `req.user` without a check of their
    own; creation still answers 401 when no user id is attached. */
module Tasks {
  import opened Optional
  import opened Board
  import opened Listing
  import opened Positions

  const DefaultPriority := "medium"
  const TaskNotFound := "Task not found or unauthorized"
  const TaskDeleted := "Task deleted successfully"

  /** The fused existence-and-ownership test `where: { id, userId }`. */
  predicate OwnsTask(s: Store, uid: Id, id: Id)
  {
    id in s.tasks && s.tasks[id].userId == uid
  }

  /** Positions of the user's tasks in one column: the siblings a new task is
      appended after. */
  function TaskPositions(s: Store, uid: Id, columnId: Id): set<int>
  {
    set t | t in s.tasks.Values && t.userId == uid && t.columnId == columnId :: t.position
  }

  /** The fields a PATCH body may carry; an absent field is left unchanged. */
  datatype TaskPatch = TaskPatch(
    title: Option<string>,
    description: Option<string>,
    columnId: Option<Id>,
    priority: Option<string>,
    position: Option<int>)

  /** GET /tasks: the caller's tasks ascending by position, with the caller's
      username as `owner`. */
  method GetTasks(s: Store, user: Option<Identity>) returns (r: Reply)
    requires Valid(s)
    requires user.Some?
    ensures r.store == s
    ensures r.status == 200 && r.body.TaskList?
    ensures r.body.owner == user.value.username
    ensures SortedBy(r.body.data, TaskPosition)
    ensures DistinctIds(r.body.data, TaskId)
    ensures forall t :: t in r.body.data <==> t in s.tasks.Values && t.userId == user.value.userId
  {
    var uid := user.value.userId;
    var data := CollectSorted(s.tasks, (t: Task) => t.userId == uid, TaskPosition, TaskId);
    r := Reply(200, s, TaskList(user.value.username, data));
  }

  /** POST /tasks. Neither the title nor the ownership of `columnId` is checked. */
  method CreateTask(
    s: Store, user: Option<Identity>,
    title: string, description: Option<string>, columnId: Id, priority: Option<string>,
    newId: Id)
    returns (r: Reply)
    requires newId !in s.tasks
    ensures !SignedIn(user) ==> r == Reply(401, s, Message(Unauthorized))
    ensures SignedIn(user) ==>
      && r.status == 201
      && r.body.TaskRecord?
      && r.body.task.id == newId
      && r.body.task.title == title
      && r.body.task.description == description
      && r.body.task.columnId == columnId
      && r.body.task.userId == user.value.userId
      && r.store == s.(tasks := s.tasks[newId := r.body.task])
    ensures SignedIn(user) && Truthy(priority) ==> r.body.task.priority == priority.value
    ensures SignedIn(user) && !Truthy(priority) ==> r.body.task.priority == DefaultPriority
    ensures SignedIn(user) ==>
      AppendedAfter(r.body.task.position, TaskPositions(s, user.value.userId, columnId))
    ensures SignedIn(user) ==>
      r.body.task.position !in TaskPositions(s, user.value.userId, columnId)
    ensures SignedIn(user) ==>
      forall t :: t in s.tasks.Values && t.userId == user.value.userId && t.columnId == columnId ==>
        t.position < r.body.task.position
    ensures Valid(s) ==> Valid(r.store)
  {
    if !SignedIn(user) {
      return Reply(401, s, Message(Unauthorized));
    }
    var uid := user.value.userId;
    var last := FindLast(s.tasks, (t: Task) => t.userId == uid && t.columnId == columnId, TaskPosition);
    var lastPosition := if last.Some? then Some(last.value.position) else None;
    var siblings := TaskPositions(s, uid, columnId);
    if last.Some? {
      assert last.value.position in siblings;
    }
    NextPositionAppends(lastPosition, siblings);
    AppendedIsFresh(NextPosition(lastPosition), siblings);
    var stored := if Truthy(priority) then priority.value else DefaultPriority;
    var t := Task(newId, title, description, columnId, stored, NextPosition(lastPosition), uid);
    r := Reply(201, s.(tasks := s.tasks[newId := t]), TaskRecord(t));
  }

  /** The stored task after applying `patch`. */
  function Patched(t: Task, patch: TaskPatch): Task
  {
    t.(title := Merge(patch.title, t.title),
       description := if patch.description.Some? then patch.description else t.description,
       columnId := Merge(patch.columnId, t.columnId),
       priority := Merge(patch.priority, t.priority),
       position := Merge(patch.position, t.position))
  }

  /** PATCH /tasks/:id. */
  function UpdateTask(s: Store, user: Option<Identity>, id: Id, patch: TaskPatch): (r: Reply)
    requires user.Some?
    ensures !OwnsTask(s, user.value.userId, id) ==> r == Reply(404, s, Message(TaskNotFound))
    ensures OwnsTask(s, user.value.userId, id) ==>
      && r.status == 200
      && r.body.TaskRecord?
      && r.store == s.(tasks := s.tasks[id := r.body.task])
      && r.body.task.id == s.tasks[id].id
      && r.body.task.userId == s.tasks[id].userId
      && (patch.title.None? ==> r.body.task.title == s.tasks[id].title)
      && (patch.title.Some? ==> r.body.task.title == patch.title.value)
      && (patch.description.None? ==> r.body.task.description == s.tasks[id].description)
      && (patch.description.Some? ==> r.body.task.description == patch.description)
      && (patch.columnId.None? ==> r.body.task.columnId == s.tasks[id].columnId)
      && (patch.columnId.Some? ==> r.body.task.columnId == patch.columnId.value)
      && (patch.priority.None? ==> r.body.task.priority == s.tasks[id].priority)
      && (patch.priority.Some? ==> r.body.task.priority == patch.priority.value)
      && (patch.position.None? ==> r.body.task.position == s.tasks[id].position)
      && (patch.position.Some? ==> r.body.task.position == patch.position.value)
    ensures Valid(s) ==> Valid(r.store)
  {
    if !OwnsTask(s, user.value.userId, id) then
      Reply(404, s, Message(TaskNotFound))
    else
      var t := Patched(s.tasks[id], patch);
      Reply(200, s.(tasks := s.tasks[id := t]), TaskRecord(t))
  }

  /** DELETE /tasks/:id. */
  function DeleteTask(s: Store, user: Option<Identity>, id: Id): (r: Reply)
    requires user.Some?
    ensures !OwnsTask(s, user.value.userId, id) ==> r == Reply(404, s, Message(TaskNotFound))
    ensures OwnsTask(s, user.value.userId, id) ==>
      && r.status == 200
      && r.body == Message(TaskDeleted)
      && r.store.tasks.Keys == s.tasks.Keys - {id}
      && (forall k :: k in r.store.tasks ==> r.store.tasks[k] == s.tasks[k])
      && r.store.users == s.users
      && r.store.columns == s.columns
    ensures Valid(s) ==> Valid(r.store)
  {
    if !OwnsTask(s, user.value.userId, id) then
      Reply(404, s, Message(TaskNotFound))
    else
      Reply(200, s.(tasks := s.tasks - {id}), Message(TaskDeleted))
  }

  /** Deleting the same task twice: the first request succeeds exactly when
      the caller owns it, the second always answers 404. */
  lemma DeleteTaskTwice(s: Store, user: Option<Identity>, id: Id)
    requires user.Some?
    ensures DeleteTask(s, user, id).status == 200 <==> OwnsTask(s, user.value.userId, id)
    ensures
      var first := DeleteTask(s, user, id);
      DeleteTask(first.store, user, id) == Reply(404, first.store, Message(TaskNotFound))
  {
  }

  /** Repeating a task update changes nothing further. */
  lemma UpdateTaskIdempotent(s: Store, user: Option<Identity>, id: Id, patch: TaskPatch)
    requires user.Some?
    ensures
      var once := UpdateTask(s, user, id, patch);
      UpdateTask(once.store, user, id, patch) == once
  {
  }

  /** An update whose body carries no recognised field rewrites the task as it
      was: the store is unchanged and the reply echoes the stored task. */
  lemma EmptyPatchIsIdentity(s: Store, user: Option<Identity>, id: Id)
    requires user.Some?
    requires OwnsTask(s, user.value.userId, id)
    ensures UpdateTask(s, user, id, TaskPatch(None, None, None, None, None)) == Reply(200, s, TaskRecord(s.tasks[id]))
  {
  }

  /** Another user's task is indistinguishable from a missing one. */
  lemma ForeignTaskIsHidden(s: Store, user: Option<Identity>, id: Id, patch: TaskPatch)
    requires user.Some?
    requires id in s.tasks && s.tasks[id].userId != user.value.userId
    ensures UpdateTask(s, user, id, patch) == Reply(404, s, Message(TaskNotFound))
    ensures DeleteTask(s, user, id) == Reply(404, s, Message(TaskNotFound))
  {
  }
}

