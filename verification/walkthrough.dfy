/** One session end to end: register, a refused duplicate registration, login,
    the token through the guard, two columns, a task, deleting the first
    column and listing what is left. */
module Walkthrough {
  import opened Optional
  import opened Board
  import Guard
  import Auth
  import Columns
  import Tasks

  /** Register, a refused duplicate, login, and the login token through the guard. */
  method SignIn(
    hash: string -> string, compare: (string, string) -> bool,
    sign: Auth.Claims -> string, verify: string -> Option<Identity>)
    returns (statuses: seq<int>, s: Store, user: Identity)
    requires Auth.HashMatches(hash, compare)
    requires Auth.VerifiesSigned(sign, verify)
    requires Auth.CompactTokens(sign)
    ensures statuses == [201, 400, 200]
    ensures user == Identity("u1", "alice")
    ensures Valid(s) && s.columns == map[] && s.tasks == map[]
  {
    var r1 := Auth.Register(EmptyStore, Some("alice"), Some("secret123"), "u1", hash);
    var r2 := Auth.Register(r1.store, Some("alice"), Some("secret123"), "u2", hash);
    var r3 := Auth.Login(r2.store, "alice", "secret123", compare, sign);
    Auth.RegisterThenLogin(EmptyStore, "alice", "secret123", "u1", hash, compare, sign);
    Auth.LoginTokenPassesGuard(r2.store, "alice", "secret123", compare, sign, verify);
    var d := Guard.AuthenticateToken(Some("Bearer " + r3.body.token), verify);
    user := d.user;
    s := r3.store;
    statuses := [r1.status, r2.status, r3.status];
  }

  /** Two columns on an empty board: "Backlog" at 1000, then "Doing" at 2000. */
  method TwoColumns(s: Store, user: Identity)
    returns (statuses: seq<int>, s': Store, backlog: Column, doing: Column)
    requires Valid(s) && s.columns == map[] && s.tasks == map[]
    requires user == Identity("u1", "alice")
    ensures statuses == [201, 201]
    ensures backlog == Column("c1", "Backlog", 1000, None, "u1")
    ensures doing == Column("c2", "Doing", 2000, None, "u1")
    ensures Valid(s') && s'.columns == map["c1" := backlog, "c2" := doing] && s'.tasks == map[]
  {
    var r4 := Columns.CreateColumn(s, Some(user), Some("Backlog"), "c1");
    backlog := r4.body.column;
    assert r4.store.columns == map["c1" := backlog];
    assert r4.store.columns.Values == {backlog};
    var r5 := Columns.CreateColumn(r4.store, Some(user), Some("Doing"), "c2");
    doing := r5.body.column;
    assert Columns.ColumnPositions(r4.store, "u1") == {1000};
    s' := r5.store;
    statuses := [r4.status, r5.status];
  }

  /** A task in "Backlog": default priority, first position. */
  method FirstTask(s: Store, user: Identity, backlog: Column, doing: Column)
    returns (status: int, s': Store, task: Task)
    requires backlog == Column("c1", "Backlog", 1000, None, "u1")
    requires Valid(s) && s.tasks == map[]
    requires user == Identity("u1", "alice")
    ensures status == 201
    ensures task.priority == "medium" && task.position == 1000 && task.columnId == backlog.id
    ensures Valid(s') && s'.columns == s.columns
  {
    var r6 := Tasks.CreateTask(s, Some(user), "Fix bug", None, "c1", None, "t1");
    task := r6.body.task;
    s' := r6.store;
    status := r6.status;
  }

  /** Deleting "Backlog", then listing what is left. */
  method DeleteThenList(s: Store, user: Identity, backlog: Column, doing: Column)
    returns (statuses: seq<int>, listed: seq<ColumnView>)
    requires backlog == Column("c1", "Backlog", 1000, None, "u1")
    requires doing == Column("c2", "Doing", 2000, None, "u1")
    requires Valid(s) && s.columns == map["c1" := backlog, "c2" := doing]
    requires user == Identity("u1", "alice")
    ensures statuses == [200, 200]
    ensures |listed| > 0 && forall i :: 0 <= i < |listed| ==> listed[i].column == doing
  {
    var r7 := Columns.DeleteColumn(s, Some(user), "c1");
    assert Columns.OwnsColumn(s, "u1", "c1");
    assert r7.store.columns.Keys == {"c2"};
    assert r7.store.columns == map["c2" := doing];
    assert r7.store.columns.Values == {doing};
    var r8 := Columns.GetColumns(r7.store, Some(user));
    listed := r8.body.columns;
    OnlyColumnListed(r7.store, "u1", listed, doing);
    statuses := [r7.status, r8.status];
  }

  /** The whole session: every status, both column positions, the task's
      defaults, and a final listing that shows only the surviving column. */
  method Session(
    hash: string -> string, compare: (string, string) -> bool,
    sign: Auth.Claims -> string, verify: string -> Option<Identity>)
    returns (statuses: seq<int>, backlog: Column, doing: Column, task: Task, listed: seq<ColumnView>)
    requires Auth.HashMatches(hash, compare)
    requires Auth.VerifiesSigned(sign, verify)
    requires Auth.CompactTokens(sign)
    ensures statuses == [201, 400, 200, 201, 201, 201, 200, 200]
    ensures backlog.title == "Backlog" && backlog.position == 1000
    ensures doing.title == "Doing" && doing.position == 2000
    ensures task.priority == "medium" && task.position == 1000 && task.columnId == backlog.id
    ensures |listed| > 0 && forall i :: 0 <= i < |listed| ==> listed[i].column == doing
  {
    var first, s, user := SignIn(hash, compare, sign, verify);
    var columns, board, created, later;
    columns, board, backlog, doing := TwoColumns(s, user);
    created, board, task := FirstTask(board, user, backlog, doing);
    later, listed := DeleteThenList(board, user, backlog, doing);
    statuses := first + columns + [created] + later;
  }

  /** A store holding a single column of the user lists that column and no other. */
  lemma OnlyColumnListed(s: Store, uid: Id, views: seq<ColumnView>, c: Column)
    requires s.columns.Values == {c} && c.userId == uid
    requires Columns.ListsBoard(s, uid, views)
    ensures |views| > 0 && forall i :: 0 <= i < |views| ==> views[i].column == c
  {
    var i :| 0 <= i < |views| && views[i].column == c;
  }
}
