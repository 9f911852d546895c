/** The service's module-level `users` array as an object: each route handler is a
    method that checks first and then updates the users in place. Each method is proved
    to do what the corresponding function of module Handlers describes, and to keep
    the user list well formed. */
module Service {
  import opened Records
  import opened Uuid
  import opened Guards
  import Handlers
  import opened Invariants
  import opened Preservation
  import opened Properties

  class Store {
    var users: seq<User>

    ghost predicate Valid()
      reads this
    {
      WellFormed(users)
    }

    /** The service starts with no users. */
    constructor ()
      ensures Valid() && users == []
    {
      users := [];
    }

    /** POST /users */
    method CreateUser(name: string, username: string, freshId: Id) returns (r: Result<User>)
      requires Valid() && IsUuid(freshId) && !UserIdInUse(users, freshId)
      modifies this
      ensures Valid()
      ensures Handlers.Reply(users, r) == Handlers.CreateUser(old(users), name, username, freshId)
    {
      CreateUserPreservesWellFormed(users, name, username, freshId);
      var usernameAlreadyExists := UsernameInUse(users, username);
      if usernameAlreadyExists {
        return Err(UsernameTaken);
      }
      var user := User(freshId, name, username, false, []);
      users := users + [user];
      r := Ok(user);
    }

    /** GET /users/:id */
    method GetUser(id: Id) returns (r: Result<User>)
      ensures r == Handlers.GetUser(users, id)
      ensures r.Err? <==> !UserIdInUse(users, id)
      ensures r.Ok? ==> r.value in users && r.value.id == id
    {
      var found := FindUserById(users, id);
      if found.None? {
        return Err(UnknownUserId);
      }
      r := Ok(users[found.value]);
    }

    /** PATCH /users/:id/pro */
    method UpgradeToPro(id: Id) returns (r: Result<User>)
      requires Valid()
      modifies this
      ensures Valid()
      ensures Handlers.Reply(users, r) == Handlers.UpgradeToPro(old(users), id)
    {
      UpgradePreservesWellFormed(users, id);
      var found := FindUserById(users, id);
      if found.None? {
        return Err(UnknownUserId);
      }
      var i := found.value;
      if users[i].pro {
        return Err(AlreadyPro);
      }
      users := users[i := users[i].(pro := true)];
      r := Ok(users[i]);
    }

    /** GET /todos */
    method ListTodos(username: string) returns (r: Result<seq<Todo>>)
      ensures r == Handlers.ListTodos(users, username)
      ensures r.Err? <==> !UsernameInUse(users, username)
      ensures r.Ok? ==> exists i :: 0 <= i < |users| && users[i].username == username && r.value == users[i].todos
    {
      var found := ResolveUser(users, username);
      if found.Err? {
        return Err(found.error);
      }
      r := Ok(users[found.value].todos);
    }

    /** POST /todos */
    method CreateTodo(username: string, title: string, deadline: Date, freshId: Id, now: Date)
      returns (r: Result<Todo>)
      requires Valid() && IsUuid(freshId) && !TodoIdInUse(users, freshId)
      modifies this
      ensures Valid()
      ensures Handlers.Reply(users, r) == Handlers.CreateTodo(old(users), username, title, deadline, freshId, now)
    {
      CreateTodoPreservesWellFormed(users, username, title, deadline, freshId, now);
      var found := ResolveUser(users, username);
      if found.Err? {
        return Err(found.error);
      }
      var i := found.value;
      if !HasTodoCapacity(users[i]) {
        return Err(TodoQuotaReached);
      }
      var todo := Todo(freshId, title, deadline, false, now);
      users := users[i := users[i].(todos := users[i].todos + [todo])];
      r := Ok(todo);
    }

    /** PUT /todos/:id */
    method UpdateTodo(username: string, id: Id, title: string, deadline: Date) returns (r: Result<Todo>)
      requires Valid()
      modifies this
      ensures Valid()
      ensures Handlers.Reply(users, r) == Handlers.UpdateTodo(old(users), username, id, title, deadline)
    {
      UpdatePreservesWellFormed(users, username, id, title, deadline);
      var found := ResolveTodo(users, username, id);
      if found.Err? {
        return Err(found.error);
      }
      var ref := found.value;
      var user := users[ref.user];
      var todo := user.todos[ref.todo].(title := title, deadline := deadline);
      users := users[ref.user := user.(todos := user.todos[ref.todo := todo])];
      r := Ok(todo);
    }

    /** PATCH /todos/:id/done */
    method MarkDone(username: string, id: Id) returns (r: Result<Todo>)
      requires Valid()
      modifies this
      ensures Valid()
      ensures Handlers.Reply(users, r) == Handlers.MarkDone(old(users), username, id)
    {
      MarkDonePreservesWellFormed(users, username, id);
      var found := ResolveTodo(users, username, id);
      if found.Err? {
        return Err(found.error);
      }
      var ref := found.value;
      var user := users[ref.user];
      var todo := user.todos[ref.todo].(done := true);
      users := users[ref.user := user.(todos := user.todos[ref.todo := todo])];
      r := Ok(todo);
    }

    /** DELETE /todos/:id */
    method DeleteTodo(username: string, id: Id) returns (r: Result<()>)
      requires Valid()
      modifies this
      ensures Valid()
      ensures Handlers.Reply(users, r) == Handlers.DeleteTodo(old(users), username, id)
      ensures r != Err(TodoNotInList)
    {
      DeletePreservesWellFormed(users, username, id);
      DeleteNeverReportsTodoNotInList(users, username, id);
      var owner := ResolveUser(users, username);
      if owner.Err? {
        return Err(owner.error);
      }
      var found := ResolveTodo(users, username, id);
      if found.Err? {
        return Err(found.error);
      }
      var ref := found.value;
      var todos := users[ref.user].todos;
      var todoIndex := IndexOf(todos, todos[ref.todo]);
      if todoIndex == -1 {
        return Err(TodoNotInList);
      }
      users := users[ref.user := users[ref.user].(todos := todos[..todoIndex] + todos[todoIndex + 1..])];
      r := Ok(());
    }
  }
}
