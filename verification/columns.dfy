/** The column handlers: list, create, update and delete, each scoped to the
    signed-in user. */
module Columns {
  import opened Optional
  import opened Board
  import opened Listing
  import opened Positions

  const TitleRequired := "Title is required"
  const ColumnNotFound := "Column not found or unauthorized"
  const ColumnDeleted := "Column deleted successfully"

  /** The fused existence-and-ownership test `where: { id, userId }`. */
  predicate OwnsColumn(s: Store, uid: Id, id: Id)
  {
    id in s.columns && s.columns[id].userId == uid
  }

  /** Positions of the user's columns: the siblings a new column is appended after. */
  function ColumnPositions(s: Store, uid: Id): set<int>
  {
    set c | c in s.columns.Values && c.userId == uid :: c.position
  }

  /** The tasks the listing joins into column `columnId`: every task that
      names the column, ascending by position, each once. */
  ghost predicate JoinedTasks(s: Store, columnId: Id, ts: seq<Task>)
  {
    && SortedBy(ts, TaskPosition)
    && DistinctIds(ts, TaskId)
    && forall t :: t in ts <==> t in s.tasks.Values && t.columnId == columnId
  }

  /** What the column listing promises: exactly the user's columns, ascending
      by position, each once and each carrying its joined tasks. */
  ghost predicate ListsBoard(s: Store, uid: Id, views: seq<ColumnView>)
  {
    && SortedBy(views, ViewPosition)
    && (forall i, j :: 0 <= i < j < |views| ==> views[i].column.id != views[j].column.id)
    && (forall i :: 0 <= i < |views| ==> views[i].column in s.columns.Values && views[i].column.userId == uid)
    && (forall c :: c in s.columns.Values && c.userId == uid ==> exists i :: 0 <= i < |views| && views[i].column == c)
    && (forall i :: 0 <= i < |views| ==> JoinedTasks(s, views[i].column.id, views[i].tasks))
  }

  /** `include: { tasks: { orderBy: { position: 'asc' } } }` for one column. */
  method ColumnTasks(s: Store, columnId: Id) returns (ts: seq<Task>)
    requires Valid(s)
    ensures JoinedTasks(s, columnId, ts)
  {
    ts := CollectSorted(s.tasks, (t: Task) => t.columnId == columnId, TaskPosition, TaskId);
  }

  /** GET /columns. */
  method GetColumns(s: Store, user: Option<Identity>) returns (r: Reply)
    requires Valid(s)
    ensures r.store == s
    ensures !SignedIn(user) ==> r == Reply(401, s, Message(Unauthorized))
    ensures SignedIn(user) ==> r.status == 200 && r.body.ColumnList?
    ensures SignedIn(user) ==> ListsBoard(s, user.value.userId, r.body.columns)
  {
    if !SignedIn(user) {
      return Reply(401, s, Message(Unauthorized));
    }
    var uid := user.value.userId;
    var cols := CollectSorted(s.columns, (c: Column) => c.userId == uid, ColumnPosition, ColumnId);
    var views: seq<ColumnView> := [];
    var i := 0;
    while i < |cols|
      invariant 0 <= i <= |cols|
      invariant |views| == i
      invariant forall j :: 0 <= j < i ==> views[j].column == cols[j]
      invariant forall j :: 0 <= j < i ==> JoinedTasks(s, cols[j].id, views[j].tasks)
    {
      var ts := ColumnTasks(s, cols[i].id);
      views := views + [ColumnView(cols[i], ts)];
      i := i + 1;
    }
    assert forall c :: c in cols <==> c in s.columns.Values && c.userId == uid;
    r := Reply(200, s, ColumnList(views));
  }

  /** POST /columns. The body's `color` is not read, so a new column has none. */
  method CreateColumn(s: Store, user: Option<Identity>, title: Option<string>, newId: Id)
    returns (r: Reply)
    requires newId !in s.columns
    ensures !SignedIn(user) ==> r == Reply(401, s, Message(Unauthorized))
    ensures SignedIn(user) && !Truthy(title) ==> r == Reply(400, s, Message(TitleRequired))
    ensures SignedIn(user) && Truthy(title) ==>
      && r.status == 201
      && r.body.ColumnRecord?
      && r.body.column.id == newId
      && r.body.column.title == title.value
      && r.body.column.userId == user.value.userId
      && r.body.column.color.None?
      && r.store == s.(columns := s.columns[newId := r.body.column])
    ensures SignedIn(user) && Truthy(title) ==>
      AppendedAfter(r.body.column.position, ColumnPositions(s, user.value.userId))
    ensures SignedIn(user) && Truthy(title) ==>
      r.body.column.position !in ColumnPositions(s, user.value.userId)
    ensures SignedIn(user) && Truthy(title) ==>
      forall c :: c in s.columns.Values && c.userId == user.value.userId ==>
        c.position < r.body.column.position
    ensures Valid(s) ==> Valid(r.store)
  {
    if !SignedIn(user) {
      return Reply(401, s, Message(Unauthorized));
    }
    if !Truthy(title) {
      return Reply(400, s, Message(TitleRequired));
    }
    var uid := user.value.userId;
    var last := FindLast(s.columns, (c: Column) => c.userId == uid, ColumnPosition);
    var lastPosition := if last.Some? then Some(last.value.position) else None;
    var siblings := ColumnPositions(s, uid);
    if last.Some? {
      assert last.value.position in siblings;
    }
    NextPositionAppends(lastPosition, siblings);
    AppendedIsFresh(NextPosition(lastPosition), siblings);
    var c := Column(newId, title.value, NextPosition(lastPosition), None, uid);
    r := Reply(201, s.(columns := s.columns[newId := c]), ColumnRecord(c));
  }

  /** PATCH /columns/:id. Only `title` and `position` are read from the body. */
  function UpdateColumn(s: Store, user: Option<Identity>, id: Id, title: Option<string>, position: Option<int>)
    : (r: Reply)
    ensures !SignedIn(user) ==> r == Reply(401, s, Message(Unauthorized))
    ensures SignedIn(user) && !OwnsColumn(s, user.value.userId, id) ==>
      r == Reply(404, s, Message(ColumnNotFound))
    ensures SignedIn(user) && OwnsColumn(s, user.value.userId, id) ==>
      && r.status == 200
      && r.body.ColumnRecord?
      && r.store == s.(columns := s.columns[id := r.body.column])
      && r.body.column.id == s.columns[id].id
      && r.body.column.userId == s.columns[id].userId
      && r.body.column.color == s.columns[id].color
      && (title.None? ==> r.body.column.title == s.columns[id].title)
      && (title.Some? ==> r.body.column.title == title.value)
      && (position.None? ==> r.body.column.position == s.columns[id].position)
      && (position.Some? ==> r.body.column.position == position.value)
    ensures Valid(s) ==> Valid(r.store)
  {
    if !SignedIn(user) then
      Reply(401, s, Message(Unauthorized))
    else if !OwnsColumn(s, user.value.userId, id) then
      Reply(404, s, Message(ColumnNotFound))
    else
      var current := s.columns[id];
      var c := current.(title := Merge(title, current.title), position := Merge(position, current.position));
      Reply(200, s.(columns := s.columns[id := c]), ColumnRecord(c))
  }

  /** DELETE /columns/:id. The tasks that named the column stay in the store. */
  function DeleteColumn(s: Store, user: Option<Identity>, id: Id): (r: Reply)
    ensures !SignedIn(user) ==> r == Reply(401, s, Message(Unauthorized))
    ensures SignedIn(user) && !OwnsColumn(s, user.value.userId, id) ==>
      r == Reply(404, s, Message(ColumnNotFound))
    ensures SignedIn(user) && OwnsColumn(s, user.value.userId, id) ==>
      && r.status == 200
      && r.body == Message(ColumnDeleted)
      && r.store.columns.Keys == s.columns.Keys - {id}
      && (forall k :: k in r.store.columns ==> r.store.columns[k] == s.columns[k])
      && r.store.users == s.users
      && r.store.tasks == s.tasks
    ensures Valid(s) ==> Valid(r.store)
  {
    if !SignedIn(user) then
      Reply(401, s, Message(Unauthorized))
    else if !OwnsColumn(s, user.value.userId, id) then
      Reply(404, s, Message(ColumnNotFound))
    else
      Reply(200, s.(columns := s.columns - {id}), Message(ColumnDeleted))
  }

  /** Deleting the same column twice: the first request succeeds exactly when
      the caller owns it, the second always finds nothing. */
  lemma DeleteColumnTwice(s: Store, user: Option<Identity>, id: Id)
    requires SignedIn(user)
    ensures DeleteColumn(s, user, id).status == 200 <==> OwnsColumn(s, user.value.userId, id)
    ensures
      var first := DeleteColumn(s, user, id);
      DeleteColumn(first.store, user, id) == Reply(404, first.store, Message(ColumnNotFound))
  {
  }

  /** Repeating a column update changes nothing further. */
  lemma UpdateColumnIdempotent(s: Store, user: Option<Identity>, id: Id, title: Option<string>, position: Option<int>)
    ensures
      var once := UpdateColumn(s, user, id, title, position);
      UpdateColumn(once.store, user, id, title, position) == once
  {
  }

  /** Another user's column is indistinguishable from a missing one: update and
      delete both answer 404 and leave the store as it was. */
  lemma ForeignColumnIsHidden(s: Store, user: Option<Identity>, id: Id, title: Option<string>, position: Option<int>)
    requires SignedIn(user)
    requires id in s.columns && s.columns[id].userId != user.value.userId
    ensures UpdateColumn(s, user, id, title, position) == Reply(404, s, Message(ColumnNotFound))
    ensures DeleteColumn(s, user, id) == Reply(404, s, Message(ColumnNotFound))
  {
  }

  /** A column appended after all of the user's columns is the last one the
      listing shows. */
  lemma AppendedColumnListedLast(s: Store, uid: Id, c: Column, views: seq<ColumnView>)
    requires Valid(s) && c.id !in s.columns && c.userId == uid
    requires forall o :: o in s.columns.Values && o.userId == uid ==> o.position < c.position
    requires ListsBoard(s.(columns := s.columns[c.id := c]), uid, views)
    ensures |views| > 0 && views[|views| - 1].column == c
  {
    var s' := s.(columns := s.columns[c.id := c]);
    assert c in s'.columns.Values by { assert s'.columns[c.id] == c; }
    var i :| 0 <= i < |views| && views[i].column == c;
    var v := views[i];
    forall w | w in views && w != v
      ensures ViewPosition(w) < ViewPosition(v)
    {
      var j :| 0 <= j < |views| && views[j] == w;
      assert j != i;
      assert w.column.id != c.id;
      var k :| k in s'.columns && s'.columns[k] == w.column;
      assert k != c.id;
      assert w.column in s.columns.Values;
    }
    StrictMaxIsLast(views, ViewPosition, v);
  }

  /** POST /columns then GET /columns: the new column is listed, last. */
  method CreateThenList(s: Store, user: Option<Identity>, title: Option<string>, newId: Id)
    returns (created: Reply, listed: Reply)
    requires Valid(s) && newId !in s.columns
    requires SignedIn(user) && Truthy(title)
    ensures created.status == 201 && created.body.ColumnRecord?
    ensures listed.status == 200 && listed.body.ColumnList?
    ensures listed.store == created.store
    ensures |listed.body.columns| > 0
    ensures listed.body.columns[|listed.body.columns| - 1].column == created.body.column
    ensures created.body.column.title == title.value
  {
    created := CreateColumn(s, user, title, newId);
    listed := GetColumns(created.store, user);
    AppendedColumnListedLast(s, user.value.userId, created.body.column, listed.body.columns);
  }
}

