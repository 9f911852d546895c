/** The records the service keeps in memory and the errors its routes report. */
module Records {

  type Id = string

  /** A JavaScript `Date`: a time value in milliseconds since the epoch, or the invalid
      date that `new Date(...)` yields for an unparsable input. */
  datatype Date = Instant(epochMillis: int) | InvalidDate

  datatype Todo = Todo(id: Id, title: string, deadline: Date, done: bool, createdAt: Date)

  datatype User = User(id: Id, name: string, username: string, pro: bool, todos: seq<Todo>)

  /** The number of todos a user without the pro plan may hold. */
  const FreeTodoLimit: nat := 10

  /** One constructor per error response of the service, named by its cause. */
  datatype Error =
    | UnknownUsername    // no user has the username of the `username` header
    | UnknownUserId      // no user has the id of the path
    | InvalidTodoId      // the todo id of the path is not a UUID
    | UnknownTodo        // the acting user has no todo with the id of the path
    | UsernameTaken      // a user with the requested username exists already
    | AlreadyPro         // the user has the pro plan already
    | TodoQuotaReached   // a user without the pro plan holds FreeTodoLimit todos or more
    | TodoNotInList      // the defensive re-check of the delete route

  datatype Option<T> = None | Some(value: T)

  datatype Result<T> = Ok(value: T) | Err(error: Error)

  /** The HTTP status code the service answers each error with. */
  function ErrorStatus(e: Error): (code: int)
    ensures code == 400 || code == 403 || code == 404
    ensures code == 403 <==> e == TodoQuotaReached
  {
    match e
    case UnknownUsername => 404
    case UnknownUserId => 404
    case InvalidTodoId => 400
    case UnknownTodo => 404
    case UsernameTaken => 400
    case AlreadyPro => 400
    case TodoQuotaReached => 403
    case TodoNotInList => 404
  }
}
