/** The route handlers of the service as functions of the in-memory user list: each
    takes the users before the request and gives the users after it together with the
    response, a record or the error that ended the request. */
module Handlers {
  import opened Records
  import opened Guards

  datatype Reply<T> = Reply(users: seq<User>, result: Result<T>)

  /** POST /users. The new user's id is supplied by the caller (it is `uuidv4()` in
      the service). */
  function CreateUser(users: seq<User>, name: string, username: string, freshId: Id): Reply<User> {
    if UsernameInUse(users, username) then Reply(users, Err(UsernameTaken))
    else
      var user := User(freshId, name, username, false, []);
      Reply(users + [user], Ok(user))
  }

  /** GET /users/:id, behind `findUserById`. */
  function GetUser(users: seq<User>, id: Id): Result<User> {
    match FindUserById(users, id)
    case None => Err(UnknownUserId)
    case Some(i) => Ok(users[i])
  }

  /** PATCH /users/:id/pro, behind `findUserById`. */
  function UpgradeToPro(users: seq<User>, id: Id): Reply<User> {
    match FindUserById(users, id)
    case None => Reply(users, Err(UnknownUserId))
    case Some(i) =>
      if users[i].pro then Reply(users, Err(AlreadyPro))
      else
        var user := users[i].(pro := true);
        Reply(users[i := user], Ok(user))
  }

  /** GET /todos, behind `checksExistsUserAccount`. */
  function ListTodos(users: seq<User>, username: string): Result<seq<Todo>> {
    match ResolveUser(users, username)
    case Err(e) => Err(e)
    case Ok(i) => Ok(users[i].todos)
  }

  /** POST /todos, behind `checksExistsUserAccount` and
      `checksCreateTodosUserAvailability`. The id and the creation time are supplied by
      the caller (`uuidv4()` and `new Date()` in the service); `deadline` is the date
      already parsed from the request body. */
  function CreateTodo(users: seq<User>, username: string, title: string, deadline: Date,
                      freshId: Id, now: Date): Reply<Todo>
  {
    match ResolveUser(users, username)
    case Err(e) => Reply(users, Err(e))
    case Ok(i) =>
      if !HasTodoCapacity(users[i]) then Reply(users, Err(TodoQuotaReached))
      else
        var todo := Todo(freshId, title, deadline, false, now);
        Reply(users[i := users[i].(todos := users[i].todos + [todo])], Ok(todo))
  }

  /** The users with the todo at `ref` replaced by `todo`. */
  function ReplaceTodo(users: seq<User>, ref: TodoRef, todo: Todo): seq<User>
    requires ValidRef(users, ref)
  {
    users[ref.user := users[ref.user].(todos := users[ref.user].todos[ref.todo := todo])]
  }

  /** PUT /todos/:id, behind `checksTodoExists`. */
  function UpdateTodo(users: seq<User>, username: string, id: Id, title: string,
                      deadline: Date): Reply<Todo>
  {
    match ResolveTodo(users, username, id)
    case Err(e) => Reply(users, Err(e))
    case Ok(ref) =>
      var todo := TodoAt(users, ref).(title := title, deadline := deadline);
      Reply(ReplaceTodo(users, ref, todo), Ok(todo))
  }

  /** PATCH /todos/:id/done, behind `checksTodoExists`. */
  function MarkDone(users: seq<User>, username: string, id: Id): Reply<Todo> {
    match ResolveTodo(users, username, id)
    case Err(e) => Reply(users, Err(e))
    case Ok(ref) =>
      var todo := TodoAt(users, ref).(done := true);
      Reply(ReplaceTodo(users, ref, todo), Ok(todo))
  }

  /** The todos with the one at position k taken out: `todos.splice(k, 1)`. */
  function RemoveAt(todos: seq<Todo>, k: nat): seq<Todo>
    requires k < |todos|
  {
    todos[..k] + todos[k + 1..]
  }

  /** DELETE /todos/:id, behind `checksExistsUserAccount` and then `checksTodoExists`. */
  function DeleteTodo(users: seq<User>, username: string, id: Id): Reply<()> {
    match ResolveUser(users, username)
    case Err(e) => Reply(users, Err(e))
    case Ok(_) =>
      match ResolveTodo(users, username, id)
      case Err(e) => Reply(users, Err(e))
      case Ok(ref) =>
        var todos := users[ref.user].todos;
        var k := IndexOf(todos, todos[ref.todo]);
        if k == -1 then Reply(users, Err(TodoNotInList))
        else Reply(users[ref.user := users[ref.user].(todos := RemoveAt(todos, k))], Ok(()))
  }

  /** The requests the service answers, one per route, with what the route reads from
      the path, the `username` header and the body, and with the fresh id and the
      current time for the two routes that create records. */
  datatype Request =
    | PostUsers(name: string, username: string, freshId: Id)
    | GetUsersId(id: Id)
    | PatchUsersIdPro(id: Id)
    | GetTodos(username: string)
    | PostTodos(username: string, title: string, deadline: Date, freshId: Id, now: Date)
    | PutTodosId(username: string, id: Id, title: string, deadline: Date)
    | PatchTodosIdDone(username: string, id: Id)
    | DeleteTodosId(username: string, id: Id)

  /** The JSON body of a successful response. */
  datatype Body = UserBody(user: User) | TodoBody(todo: Todo) | TodoListBody(todos: seq<Todo>) | NoContent

  function MapResult<T>(r: Result<T>, f: T -> Body): Result<Body> {
    match r
    case Ok(v) => Ok(f(v))
    case Err(e) => Err(e)
  }

  /** One request, run to completion against the users. */
  function Handle(users: seq<User>, req: Request): Reply<Body> {
    match req
    case PostUsers(name, username, freshId) =>
      var r := CreateUser(users, name, username, freshId);
      Reply(r.users, MapResult(r.result, (u: User) => UserBody(u)))
    case GetUsersId(id) =>
      Reply(users, MapResult(GetUser(users, id), (u: User) => UserBody(u)))
    case PatchUsersIdPro(id) =>
      var r := UpgradeToPro(users, id);
      Reply(r.users, MapResult(r.result, (u: User) => UserBody(u)))
    case GetTodos(username) =>
      Reply(users, MapResult(ListTodos(users, username), (ts: seq<Todo>) => TodoListBody(ts)))
    case PostTodos(username, title, deadline, freshId, now) =>
      var r := CreateTodo(users, username, title, deadline, freshId, now);
      Reply(r.users, MapResult(r.result, (t: Todo) => TodoBody(t)))
    case PutTodosId(username, id, title, deadline) =>
      var r := UpdateTodo(users, username, id, title, deadline);
      Reply(r.users, MapResult(r.result, (t: Todo) => TodoBody(t)))
    case PatchTodosIdDone(username, id) =>
      var r := MarkDone(users, username, id);
      Reply(r.users, MapResult(r.result, (t: Todo) => TodoBody(t)))
    case DeleteTodosId(username, id) =>
      var r := DeleteTodo(users, username, id);
      Reply(r.users, MapResult(r.result, (_: ()) => NoContent))
  }

  /** The HTTP status code of the response to a request. */
  function Status(req: Request, result: Result<Body>): int {
    match result
    case Err(e) => ErrorStatus(e)
    case Ok(_) =>
      if req.PostUsers? || req.PostTodos? then 201
      else if req.DeleteTodosId? then 204
      else 200
  }

  /** The users after the requests, handled one after another from `users`. */
  function Run(users: seq<User>, reqs: seq<Request>): seq<User>
    decreases |reqs|
  {
    if |reqs| == 0 then users else Run(Handle(users, reqs[0]).users, reqs[1..])
  }
}
