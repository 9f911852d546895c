/** The lookups and checks that run before each route handler: the Express middleware
    `checksExistsUserAccount`, `checksCreateTodosUserAvailability`, `checksTodoExists`
    and `findUserById`, with the array searches they are built from. */
module Guards {
  import opened Records
  import opened Uuid

  /** `Array.prototype.find`, returning the position of the first element that
      satisfies `p` rather than the element itself. */
  function FindIndex<T>(s: seq<T>, p: T -> bool): (r: Option<nat>)
    ensures r.Some? ==> r.value < |s| && p(s[r.value])
    ensures r.Some? ==> forall j :: 0 <= j < r.value ==> !p(s[j])
    ensures r.None? <==> forall j :: 0 <= j < |s| ==> !p(s[j])
  {
    if |s| == 0 then None
    else if p(s[0]) then Some(0)
    else match FindIndex(s[1..], p)
      case None => None
      case Some(k) => Some(k + 1)
  }

  /** `users.find((u) => u.username === username)` */
  function FindUserByUsername(users: seq<User>, username: string): (r: Option<nat>)
    ensures r.Some? ==> r.value < |users| && users[r.value].username == username
    ensures r.Some? ==> forall j :: 0 <= j < r.value ==> users[j].username != username
    ensures r.None? <==> !UsernameInUse(users, username)
  {
    FindIndex(users, (u: User) => u.username == username)
  }

  /** `users.find((u) => u.id === id)` */
  function FindUserById(users: seq<User>, id: Id): (r: Option<nat>)
    ensures r.Some? ==> r.value < |users| && users[r.value].id == id
    ensures r.Some? ==> forall j :: 0 <= j < r.value ==> users[j].id != id
    ensures r.None? <==> forall j :: 0 <= j < |users| ==> users[j].id != id
  {
    FindIndex(users, (u: User) => u.id == id)
  }

  /** `user.todos.find((t) => t.id === id)` */
  function FindTodoById(todos: seq<Todo>, id: Id): (r: Option<nat>)
    ensures r.Some? ==> r.value < |todos| && todos[r.value].id == id
    ensures r.Some? ==> forall b :: 0 <= b < r.value ==> todos[b].id != id
    ensures r.None? <==> !HasTodoId(todos, id)
  {
    FindIndex(todos, (t: Todo) => t.id == id)
  }

  /** `todos.indexOf(todo)`: -1 when absent, else the first position holding it. */
  function IndexOf(todos: seq<Todo>, todo: Todo): (r: int)
    ensures -1 <= r < |todos|
    ensures r == -1 <==> todo !in todos
    ensures r >= 0 ==> todos[r] == todo && forall b :: 0 <= b < r ==> todos[b] != todo
  {
    match FindIndex(todos, (t: Todo) => t == todo)
    case None => -1
    case Some(k) => k
  }

  /** `users.some((user) => user.username === username)` */
  predicate UsernameInUse(users: seq<User>, username: string) {
    exists i :: 0 <= i < |users| && users[i].username == username
  }

  predicate HasTodoId(todos: seq<Todo>, id: Id) {
    exists b :: 0 <= b < |todos| && todos[b].id == id
  }

  /** The quota check of `checksCreateTodosUserAvailability`: it refuses exactly when
      the user is not pro and already holds FreeTodoLimit todos or more. */
  predicate HasTodoCapacity(u: User) {
    !(!u.pro && |u.todos| >= FreeTodoLimit)
  }

  /** `checksExistsUserAccount`: the first user with the given username, or 404. */
  function ResolveUser(users: seq<User>, username: string): (r: Result<nat>)
    ensures r.Ok? ==> r.value < |users| && users[r.value].username == username
    ensures r.Ok? ==> forall j :: 0 <= j < r.value ==> users[j].username != username
    ensures r.Err? <==> !UsernameInUse(users, username)
    ensures r.Err? ==> r.error == UnknownUsername
  {
    match FindUserByUsername(users, username)
    case None => Err(UnknownUsername)
    case Some(i) => Ok(i)
  }

  /** The position of a todo: its owner in the users and itself in the owner's todos. */
  datatype TodoRef = TodoRef(user: nat, todo: nat)

  predicate ValidRef(users: seq<User>, ref: TodoRef) {
    ref.user < |users| && ref.todo < |users[ref.user].todos|
  }

  function TodoAt(users: seq<User>, ref: TodoRef): Todo
    requires ValidRef(users, ref)
  {
    users[ref.user].todos[ref.todo]
  }

  /** `checksTodoExists`: the username is resolved first, then the id's syntax is
      checked, and last the id is searched for in that user's own todos only. */
  function ResolveTodo(users: seq<User>, username: string, id: Id): (r: Result<TodoRef>)
    ensures r == Err(UnknownUsername) <==> !UsernameInUse(users, username)
    ensures r == Err(InvalidTodoId) <==> UsernameInUse(users, username) && !IsUuid(id)
    ensures r == Err(UnknownTodo) <==>
              UsernameInUse(users, username) && IsUuid(id) &&
              !HasTodoId(users[ResolveUser(users, username).value].todos, id)
    ensures r.Ok? || r == Err(UnknownUsername) || r == Err(InvalidTodoId) || r == Err(UnknownTodo)
    ensures r.Ok? ==> ResolveUser(users, username) == Ok(r.value.user)
    ensures r.Ok? ==> ValidRef(users, r.value) && TodoAt(users, r.value).id == id
    ensures r.Ok? ==> forall b :: 0 <= b < r.value.todo ==> users[r.value.user].todos[b].id != id
  {
    match FindUserByUsername(users, username)
    case None => Err(UnknownUsername)
    case Some(i) =>
      if !IsUuid(id) then Err(InvalidTodoId)
      else match FindTodoById(users[i].todos, id)
        case None => Err(UnknownTodo)
        case Some(b) => Ok(TodoRef(i, b))
  }

  /** Once `checksTodoExists` has found a todo, `indexOf` on that same todo finds it at
      the same position, so the route's `todoIndex === -1` branch cannot be taken. */
  lemma IndexOfResolvedTodo(users: seq<User>, username: string, id: Id)
    requires ResolveTodo(users, username, id).Ok?
    ensures var ref := ResolveTodo(users, username, id).value;
            IndexOf(users[ref.user].todos, TodoAt(users, ref)) == ref.todo
  {
  }
}
