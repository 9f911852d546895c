/** Every route keeps the user list well formed, given fresh ids for the records it
    creates; hence every list the service can reach from its empty start is well formed. */
module Preservation {
  import opened Records
  import opened Uuid
  import opened Guards
  import opened Handlers
  import opened Invariants

  lemma CreateUserPreservesWellFormed(users: seq<User>, name: string, username: string, freshId: Id)
    requires WellFormed(users) && IsUuid(freshId) && !UserIdInUse(users, freshId)
    ensures WellFormed(CreateUser(users, name, username, freshId).users)
  {
    if !UsernameInUse(users, username) {
      var user := User(freshId, name, username, false, []);
      var after := users + [user];
      assert after[|users|] == user;
      assert forall j :: 0 <= j < |users| ==> after[j] == users[j];
      assert TodoIds(user.todos) == {};
    }
  }

  lemma UpgradePreservesWellFormed(users: seq<User>, id: Id)
    requires WellFormed(users)
    ensures WellFormed(UpgradeToPro(users, id).users)
  {
  }

  lemma AppendTodoIds(todos: seq<Todo>, todo: Todo)
    ensures TodoIds(todos + [todo]) == TodoIds(todos) + {todo.id}
  {
    var after := todos + [todo];
    assert after[|todos|].id == todo.id;
    forall x | x in TodoIds(todos) ensures x in TodoIds(after) {
      var b :| 0 <= b < |todos| && todos[b].id == x;
      assert after[b].id == x;
    }
  }

  /** Giving one user a new todo list keeps the user list well formed when the new list
      has distinct UUID ids that no other user holds and respects that user's quota. */
  lemma SetTodosPreservesWellFormed(users: seq<User>, k: nat, todos: seq<Todo>)
    requires WellFormed(users) && k < |users|
    requires DistinctTodoIds(todos) && forall b :: 0 <= b < |todos| ==> IsUuid(todos[b].id)
    requires forall j :: 0 <= j < |users| && j != k ==> TodoIds(todos) !! TodoIds(users[j].todos)
    requires users[k].pro || |todos| <= FreeTodoLimit
    ensures WellFormed(users[k := users[k].(todos := todos)])
  {
  }

  lemma CreateTodoPreservesWellFormed(users: seq<User>, username: string, title: string,
                                      deadline: Date, freshId: Id, now: Date)
    requires WellFormed(users) && IsUuid(freshId) && !TodoIdInUse(users, freshId)
    ensures WellFormed(CreateTodo(users, username, title, deadline, freshId, now).users)
  {
    var r := ResolveUser(users, username);
    if r.Ok? && HasTodoCapacity(users[r.value]) {
      var k := r.value;
      var todos := users[k].todos;
      var todo := Todo(freshId, title, deadline, false, now);
      AppendTodoIds(todos, todo);
      forall j | 0 <= j < |users| ensures freshId !in TodoIds(users[j].todos) {
        assert !HasTodoId(users[j].todos, freshId);
      }
      assert DistinctTodoIds(todos + [todo]) by {
        forall a, b | 0 <= a < b < |todos| + 1 ensures (todos + [todo])[a].id != (todos + [todo])[b].id {
          if b == |todos| {
            assert todos[a].id in TodoIds(todos);
          }
        }
      }
      SetTodosPreservesWellFormed(users, k, todos + [todo]);
    }
  }

  /** Replacing a todo by one with the same id keeps the user list well formed. */
  lemma ReplaceTodoPreservesWellFormed(users: seq<User>, ref: TodoRef, todo: Todo)
    requires WellFormed(users) && ValidRef(users, ref) && todo.id == TodoAt(users, ref).id
    ensures WellFormed(ReplaceTodo(users, ref, todo))
  {
  }

  lemma UpdatePreservesWellFormed(users: seq<User>, username: string, id: Id, title: string, deadline: Date)
    requires WellFormed(users)
    ensures WellFormed(UpdateTodo(users, username, id, title, deadline).users)
  {
    var r := ResolveTodo(users, username, id);
    if r.Ok? {
      ReplaceTodoPreservesWellFormed(users, r.value, TodoAt(users, r.value).(title := title, deadline := deadline));
    }
  }

  lemma MarkDonePreservesWellFormed(users: seq<User>, username: string, id: Id)
    requires WellFormed(users)
    ensures WellFormed(MarkDone(users, username, id).users)
  {
    var r := ResolveTodo(users, username, id);
    if r.Ok? {
      ReplaceTodoPreservesWellFormed(users, r.value, TodoAt(users, r.value).(done := true));
    }
  }

  /** The todos left after a removal are todos that were there before. */
  lemma RemoveAtKeepsOthers(todos: seq<Todo>, k: nat)
    requires k < |todos|
    ensures |RemoveAt(todos, k)| == |todos| - 1
    ensures forall b :: 0 <= b < k ==> RemoveAt(todos, k)[b] == todos[b]
    ensures forall b :: k <= b < |todos| - 1 ==> RemoveAt(todos, k)[b] == todos[b + 1]
  {
  }

  /** A removal takes out at most the id of the removed todo, and adds none. */
  lemma RemoveAtTodoIds(todos: seq<Todo>, k: nat)
    requires k < |todos|
    ensures TodoIds(RemoveAt(todos, k)) <= TodoIds(todos)
    ensures TodoIds(todos) - {todos[k].id} <= TodoIds(RemoveAt(todos, k))
  {
    var after := RemoveAt(todos, k);
    forall x | x in TodoIds(after) ensures x in TodoIds(todos) {
      var b :| 0 <= b < |after| && after[b].id == x;
      if b < k {
        assert todos[b].id == x;
      } else {
        assert todos[b + 1].id == x;
      }
    }
    forall x | x in TodoIds(todos) - {todos[k].id} ensures x in TodoIds(after) {
      var b :| 0 <= b < |todos| && todos[b].id == x;
      if b < k {
        assert after[b].id == x;
      } else {
        assert after[b - 1].id == x;
      }
    }
  }

  lemma RemoveAtPreservesDistinct(todos: seq<Todo>, k: nat)
    requires k < |todos| && DistinctTodoIds(todos)
    ensures DistinctTodoIds(RemoveAt(todos, k))
  {
  }

  lemma DeletePreservesWellFormed(users: seq<User>, username: string, id: Id)
    requires WellFormed(users)
    ensures WellFormed(DeleteTodo(users, username, id).users)
  {
    var res := ResolveTodo(users, username, id);
    if res.Ok? {
      var ref := res.value;
      var todos := users[ref.user].todos;
      IndexOfResolvedTodo(users, username, id);
      var after := RemoveAt(todos, ref.todo);
      assert DeleteTodo(users, username, id).users == users[ref.user := users[ref.user].(todos := after)];
      RemoveAtPreservesDistinct(todos, ref.todo);
      RemoveAtTodoIds(todos, ref.todo);
      RemoveAtKeepsOthers(todos, ref.todo);
      forall b | 0 <= b < |after| ensures IsUuid(after[b].id) {
        assert after[b] == todos[if b < ref.todo then b else b + 1];
      }
      SetTodosPreservesWellFormed(users, ref.user, after);
    }
  }

  lemma HandlePreservesWellFormed(users: seq<User>, req: Request)
    requires WellFormed(users) && FreshIds(users, req)
    ensures WellFormed(Handle(users, req).users)
  {
    match req
    case PostUsers(name, username, freshId) => CreateUserPreservesWellFormed(users, name, username, freshId);
    case GetUsersId(_) =>
    case PatchUsersIdPro(id) => UpgradePreservesWellFormed(users, id);
    case GetTodos(_) =>
    case PostTodos(username, title, deadline, freshId, now) =>
      CreateTodoPreservesWellFormed(users, username, title, deadline, freshId, now);
    case PutTodosId(username, id, title, deadline) => UpdatePreservesWellFormed(users, username, id, title, deadline);
    case PatchTodosIdDone(username, id) => MarkDonePreservesWellFormed(users, username, id);
    case DeleteTodosId(username, id) => DeletePreservesWellFormed(users, username, id);
  }

  lemma {:induction false} RunPreservesWellFormed(users: seq<User>, reqs: seq<Request>)
    requires WellFormed(users) && FreshRun(users, reqs)
    ensures WellFormed(Run(users, reqs))
    decreases |reqs|
  {
    if |reqs| > 0 {
      HandlePreservesWellFormed(users, reqs[0]);
      RunPreservesWellFormed(Handle(users, reqs[0]).users, reqs[1..]);
    }
  }

  /** The service starts with no users; whatever requests it then handles (with fresh
      generated ids), the users stay well formed: among other things usernames stay
      unique and no user without the pro plan holds more than FreeTodoLimit todos. */
  lemma ReachableStoresAreWellFormed(reqs: seq<Request>)
    requires FreshRun([], reqs)
    ensures WellFormed(Run([], reqs))
  {
    RunPreservesWellFormed([], reqs);
  }
}
