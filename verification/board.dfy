/** The records the handlers read and write, the in-memory store that stands
    in for the relational database, and the shape of a handler's reply. */
module Board {
  import opened Optional

  /** Database-generated identifiers and the user id carried in a token. */
  type Id = string

  /** The decoded token payload the guard attaches as `req.user`. */
  datatype Identity = Identity(userId: Id, username: string)

  /** `password` holds whatever the password hash produced, never the plain text. */
  datatype User = User(id: Id, username: string, password: string)

  /** Positions are floating-point in the database; every position this core
      computes is an integer, so they are modelled as `int`. */
  datatype Column = Column(id: Id, title: string, position: int, color: Option<string>, userId: Id)

  datatype Task = Task(
    id: Id,
    title: string,
    description: Option<string>,
    columnId: Id,
    priority: string,
    position: int,
    userId: Id)

  /** Users are keyed by their unique username (the index `findUnique` uses);
      columns and tasks by id. */
  datatype Store = Store(users: map<string, User>, columns: map<Id, Column>, tasks: map<Id, Task>)

  const EmptyStore := Store(map[], map[], map[])

  /** The keys agree with the records they index, and user ids are unique. */
  ghost predicate Valid(s: Store)
  {
    && (forall n :: n in s.users ==> s.users[n].username == n)
    && (forall n, m :: n in s.users && m in s.users && n != m ==> s.users[n].id != s.users[m].id)
    && (forall k :: k in s.columns ==> s.columns[k].id == k)
    && (forall k :: k in s.tasks ==> s.tasks[k].id == k)
  }

  /** True when no user in the store has `id`: the database's promise for a generated id. */
  ghost predicate FreshUserId(s: Store, id: Id)
  {
    forall n :: n in s.users ==> s.users[n].id != id
  }

  /** A column as the column listing returns it: with its tasks joined in. */
  datatype ColumnView = ColumnView(column: Column, tasks: seq<Task>)

  /** The only user fields a registration reply exposes. */
  datatype PublicUser = PublicUser(id: Id, username: string)

  /** JSON response bodies. */
  datatype Body =
    | Message(message: string)
    | TaskList(owner: string, data: seq<Task>)
    | ColumnList(columns: seq<ColumnView>)
    | TaskRecord(task: Task)
    | ColumnRecord(column: Column)
    | Registered(message: string, user: PublicUser)
    | LoggedIn(message: string, token: string)

  /** What a handler does to one request: the HTTP status, the store after the
      request, and the body sent back. */
  datatype Reply = Reply(status: int, store: Store, body: Body)

  const Unauthorized := "Unauthorized"

  /** `req.user?.userId` as the handlers test it with `!userId`. */
  predicate SignedIn(user: Option<Identity>)
  {
    user.Some? && user.value.userId != ""
  }

  /** Sort keys and identities, as function values for the store queries. */
  function TaskPosition(t: Task): int { t.position }
  function TaskId(t: Task): Id { t.id }
  function ColumnPosition(c: Column): int { c.position }
  function ColumnId(c: Column): Id { c.id }
  function ViewPosition(v: ColumnView): int { v.column.position }

  /** A partial update: an absent field leaves the stored value as it is
      (the database ignores `undefined` in an update's data). */
  function Merge<T>(patch: Option<T>, current: T): T
  {
    if patch.Some? then patch.value else current
  }
}
