/** The service as a state machine over requests: a failed request changes nothing,
    each response carries one of the status codes its route answers in src/index.js,
    across any run no user disappears and pro stays pro, and, with ids that are never
    handed out twice, a todo kept across a run keeps its creation time and stays done
    once done. */
module Evolution {
  import opened Records
  import opened Guards
  import opened Handlers
  import opened Invariants
  import opened Preservation

  /** No partial change is left behind: every check precedes every mutation. */
  lemma FailedRequestsChangeNothing(users: seq<User>, req: Request)
    ensures Handle(users, req).result.Err? ==> Handle(users, req).users == users
  {
  }

  /** GET /users/:id and GET /todos only read. */
  lemma ReadsChangeNothing(users: seq<User>, req: Request)
    requires req.GetUsersId? || req.GetTodos?
    ensures Handle(users, req).users == users
  {
  }

  /** The status codes each route answers in src/index.js. */
  lemma StatusTable(users: seq<User>, req: Request)
    ensures var code := Status(req, Handle(users, req).result);
            match req
            case PostUsers(_, _, _) => code == 201 || code == 400
            case GetUsersId(_) => code == 200 || code == 404
            case PatchUsersIdPro(_) => code == 200 || code == 404 || code == 400
            case GetTodos(_) => code == 200 || code == 404
            case PostTodos(_, _, _, _, _) => code == 201 || code == 404 || code == 403
            case PutTodosId(_, _, _, _) => code == 200 || code == 404 || code == 400
            case PatchTodosIdDone(_, _) => code == 200 || code == 404 || code == 400
            case DeleteTodosId(_, _) => code == 204 || code == 404 || code == 400
  {
  }

  lemma DistinctTodosEvolve(todos: seq<Todo>)
    requires DistinctTodoIds(todos)
    ensures TodosEvolve(todos, todos)
  {
  }

  lemma AppendEvolves(todos: seq<Todo>, todo: Todo)
    requires DistinctTodoIds(todos) && todo.id !in TodoIds(todos)
    ensures TodosEvolve(todos, todos + [todo])
  {
  }

  lemma ReplaceEvolves(todos: seq<Todo>, k: nat, todo: Todo)
    requires k < |todos| && DistinctTodoIds(todos) && TodoEvolves(todos[k], todo)
    ensures TodosEvolve(todos, todos[k := todo])
  {
  }

  lemma RemoveAtEvolves(todos: seq<Todo>, k: nat)
    requires k < |todos| && DistinctTodoIds(todos)
    ensures TodosEvolve(todos, RemoveAt(todos, k))
  {
  }

  /** The todo list a request leaves to the user at position `i`, route by route: the
      resolved list of a successful POST /todos, PUT, PATCH or DELETE /todos/:id
      changes, every other list stays. */
  function TodosAfter(users: seq<User>, req: Request, i: nat): seq<Todo>
    requires i < |users|
  {
    var todos := users[i].todos;
    match req
    case PostTodos(username, title, deadline, freshId, now) =>
      var r := ResolveUser(users, username);
      if r.Ok? && r.value == i && HasTodoCapacity(users[i])
      then todos + [Todo(freshId, title, deadline, false, now)] else todos
    case PutTodosId(username, id, title, deadline) =>
      var res := ResolveTodo(users, username, id);
      if res.Ok? && res.value.user == i
      then todos[res.value.todo := TodoAt(users, res.value).(title := title, deadline := deadline)]
      else todos
    case PatchTodosIdDone(username, id) =>
      var res := ResolveTodo(users, username, id);
      if res.Ok? && res.value.user == i
      then todos[res.value.todo := TodoAt(users, res.value).(done := true)] else todos
    case DeleteTodosId(username, id) =>
      var res := ResolveTodo(users, username, id);
      if res.Ok? && res.value.user == i then RemoveAt(todos, res.value.todo) else todos
    case _ => todos
  }

  lemma DeleteTodosAfter(users: seq<User>, username: string, id: Id, i: nat)
    requires i < |users|
    ensures DeleteTodo(users, username, id).users[i].todos == TodosAfter(users, DeleteTodosId(username, id), i)
  {
    var res := ResolveTodo(users, username, id);
    if res.Ok? {
      IndexOfResolvedTodo(users, username, id);
    }
  }

  /** `TodosAfter` is what `Handle` does to the todos of user `i`. */
  lemma HandleTodosAfter(users: seq<User>, req: Request, i: nat)
    requires i < |users|
    ensures Handle(users, req).users[i].todos == TodosAfter(users, req, i)
  {
    match req
    case PostUsers(name, username, freshId) =>
      assert Handle(users, req).users == CreateUser(users, name, username, freshId).users;
    case GetUsersId(_) =>
    case PatchUsersIdPro(id) =>
      assert Handle(users, req).users == UpgradeToPro(users, id).users;
    case GetTodos(_) =>
    case PostTodos(username, title, deadline, freshId, now) =>
      assert Handle(users, req).users == CreateTodo(users, username, title, deadline, freshId, now).users;
    case PutTodosId(username, id, title, deadline) =>
      assert Handle(users, req).users == UpdateTodo(users, username, id, title, deadline).users;
    case PatchTodosIdDone(username, id) =>
      assert Handle(users, req).users == MarkDone(users, username, id).users;
    case DeleteTodosId(username, id) =>
      assert Handle(users, req).users == DeleteTodo(users, username, id).users;
      DeleteTodosAfter(users, username, id, i);
  }

  /** Each request, with fresh ids, keeps every todo id of the user at position `i`
      except the one a DELETE names, and a todo present before and after it under the
      same id keeps its creation time and stays done once done. */
  lemma HandleTodosEvolve(users: seq<User>, req: Request, i: nat)
    requires WellFormed(users) && FreshIds(users, req) && i < |users|
    ensures TodoIds(users[i].todos) - Deleted(req) <= TodoIds(Handle(users, req).users[i].todos)
    ensures TodosEvolve(users[i].todos, Handle(users, req).users[i].todos)
  {
    HandleKeepsTodoIds(users, req, i);
    HandleTodosAfter(users, req, i);
    var before := users[i].todos;
    match req
    case PostTodos(username, title, deadline, freshId, now) =>
      var r := ResolveUser(users, username);
      if r.Ok? && r.value == i && HasTodoCapacity(users[i]) {
        assert !HasTodoId(before, freshId);
        AppendEvolves(before, Todo(freshId, title, deadline, false, now));
      } else {
        DistinctTodosEvolve(before);
      }
    case PutTodosId(username, id, title, deadline) =>
      var res := ResolveTodo(users, username, id);
      if res.Ok? && res.value.user == i {
        var ref := res.value;
        ReplaceEvolves(before, ref.todo, TodoAt(users, ref).(title := title, deadline := deadline));
      } else {
        DistinctTodosEvolve(before);
      }
    case PatchTodosIdDone(username, id) =>
      var res := ResolveTodo(users, username, id);
      if res.Ok? && res.value.user == i {
        var ref := res.value;
        ReplaceEvolves(before, ref.todo, TodoAt(users, ref).(done := true));
      } else {
        DistinctTodosEvolve(before);
      }
    case DeleteTodosId(username, id) =>
      var res := ResolveTodo(users, username, id);
      if res.Ok? && res.value.user == i {
        RemoveAtEvolves(before, res.value.todo);
      } else {
        DistinctTodosEvolve(before);
      }
    case _ =>
      DistinctTodosEvolve(before);
  }

  /** Each request, with fresh ids, changes the users only in the ways `Evolves` allows. */
  lemma HandleEvolves(users: seq<User>, req: Request)
    requires WellFormed(users) && FreshIds(users, req)
    ensures Evolves(users, Handle(users, req).users)
  {
    var after := Handle(users, req).users;
    HandleUsersEvolve(users, req);
    forall i | 0 <= i < |users| ensures TodosEvolve(users[i].todos, after[i].todos) {
      HandleTodosEvolve(users, req, i);
    }
  }

  lemma AppendUserEvolves(users: seq<User>, user: User)
    ensures UsersEvolve(users, users + [user])
  {
  }

  lemma SetUserEvolves(users: seq<User>, k: nat, user: User)
    requires k < |users| && user.id == users[k].id && user.name == users[k].name
    requires user.username == users[k].username && (users[k].pro ==> user.pro)
    ensures UsersEvolve(users, users[k := user])
  {
  }

  /** Without any assumption on the users or the ids, a request changes users only in
      the ways `UsersEvolve` allows. */
  lemma HandleUsersEvolve(users: seq<User>, req: Request)
    ensures UsersEvolve(users, Handle(users, req).users)
  {
    var after := Handle(users, req).users;
    match req
    case PostUsers(name, username, freshId) =>
      if UsernameInUse(users, username) {
        assert after == users;
      } else {
        var user := User(freshId, name, username, false, []);
        assert after == users + [user];
        AppendUserEvolves(users, user);
      }
    case GetUsersId(_) =>
    case PatchUsersIdPro(id) =>
      var r := FindUserById(users, id);
      if r.Some? && !users[r.value].pro {
        var k := r.value;
        assert after == users[k := users[k].(pro := true)];
        SetUserEvolves(users, k, users[k].(pro := true));
      } else {
        assert after == users;
      }
    case GetTodos(_) =>
    case PostTodos(username, title, deadline, freshId, now) =>
      var r := ResolveUser(users, username);
      if r.Ok? && HasTodoCapacity(users[r.value]) {
        var k := r.value;
        var todo := Todo(freshId, title, deadline, false, now);
        assert after == users[k := users[k].(todos := users[k].todos + [todo])];
        SetUserEvolves(users, k, users[k].(todos := users[k].todos + [todo]));
      } else {
        assert after == users;
      }
    case PutTodosId(username, id, title, deadline) =>
      var res := ResolveTodo(users, username, id);
      if res.Ok? {
        var ref := res.value;
        var todo := TodoAt(users, ref).(title := title, deadline := deadline);
        assert after == ReplaceTodo(users, ref, todo);
        SetUserEvolves(users, ref.user, users[ref.user].(todos := users[ref.user].todos[ref.todo := todo]));
      } else {
        assert after == users;
      }
    case PatchTodosIdDone(username, id) =>
      var res := ResolveTodo(users, username, id);
      if res.Ok? {
        var ref := res.value;
        var todo := TodoAt(users, ref).(done := true);
        assert after == ReplaceTodo(users, ref, todo);
        SetUserEvolves(users, ref.user, users[ref.user].(todos := users[ref.user].todos[ref.todo := todo]));
      } else {
        assert after == users;
      }
    case DeleteTodosId(username, id) =>
      var res := ResolveTodo(users, username, id);
      if res.Ok? {
        var ref := res.value;
        IndexOfResolvedTodo(users, username, id);
        var todos := RemoveAt(users[ref.user].todos, ref.todo);
        assert after == users[ref.user := users[ref.user].(todos := todos)];
        SetUserEvolves(users, ref.user, users[ref.user].(todos := todos));
      } else {
        assert after == users;
      }
  }

  lemma UsersEvolveTransitive(s0: seq<User>, s1: seq<User>, s2: seq<User>)
    requires UsersEvolve(s0, s1) && UsersEvolve(s1, s2)
    ensures UsersEvolve(s0, s2)
  {
  }

  /** Over any run of requests no user disappears or changes id, name or username, and
      a user who has the pro plan keeps it. */
  lemma {:induction false} RunUsersEvolve(users: seq<User>, reqs: seq<Request>)
    ensures UsersEvolve(users, Run(users, reqs))
    decreases |reqs|
  {
    if |reqs| > 0 {
      var next := Handle(users, reqs[0]).users;
      HandleUsersEvolve(users, reqs[0]);
      RunUsersEvolve(next, reqs[1..]);
      UsersEvolveTransitive(users, next, Run(users, reqs));
    }
  }

  lemma ReplaceTodoIds(todos: seq<Todo>, k: nat, todo: Todo)
    requires k < |todos| && todo.id == todos[k].id
    ensures TodoIds(todos[k := todo]) == TodoIds(todos)
  {
    var after := todos[k := todo];
    forall x | x in TodoIds(todos) ensures x in TodoIds(after) {
      var b :| 0 <= b < |todos| && todos[b].id == x;
      assert after[b].id == x;
    }
  }

  /** The only todo id a request can add to a user's list is the one it issues; a user
      it adds has no todos. */
  lemma HandleTodoIds(users: seq<User>, req: Request, i: nat)
    requires i < |Handle(users, req).users|
    ensures TodoIds(Handle(users, req).users[i].todos) <=
            (if i < |users| then TodoIds(users[i].todos) else {}) + Issue({}, req)
  {
    if i >= |users| {
      assert req.PostUsers?;
      var r := CreateUser(users, req.name, req.username, req.freshId);
      assert Handle(users, req).users[i].todos == r.users[i].todos == [];
    } else {
      HandleTodosAfter(users, req, i);
      var before := users[i].todos;
      match req
      case PostTodos(username, title, deadline, freshId, now) =>
        AppendTodoIds(before, Todo(freshId, title, deadline, false, now));
      case PutTodosId(username, id, title, deadline) =>
        var res := ResolveTodo(users, username, id);
        if res.Ok? && res.value.user == i {
          var ref := res.value;
          ReplaceTodoIds(before, ref.todo, TodoAt(users, ref).(title := title, deadline := deadline));
        }
      case PatchTodosIdDone(username, id) =>
        var res := ResolveTodo(users, username, id);
        if res.Ok? && res.value.user == i {
          var ref := res.value;
          ReplaceTodoIds(before, ref.todo, TodoAt(users, ref).(done := true));
        }
      case DeleteTodosId(username, id) =>
        var res := ResolveTodo(users, username, id);
        if res.Ok? && res.value.user == i {
          RemoveAtTodoIds(before, res.value.todo);
        }
      case _ =>
    }
  }

  /** A request takes no todo id out of a user's list except the one a DELETE names. */
  lemma HandleKeepsTodoIds(users: seq<User>, req: Request, i: nat)
    requires i < |users|
    ensures TodoIds(users[i].todos) - Deleted(req) <= TodoIds(Handle(users, req).users[i].todos)
  {
    HandleTodosAfter(users, req, i);
    var before := users[i].todos;
    match req
    case PostTodos(username, title, deadline, freshId, now) =>
      AppendTodoIds(before, Todo(freshId, title, deadline, false, now));
    case PutTodosId(username, id, title, deadline) =>
      var res := ResolveTodo(users, username, id);
      if res.Ok? && res.value.user == i {
        var ref := res.value;
        ReplaceTodoIds(before, ref.todo, TodoAt(users, ref).(title := title, deadline := deadline));
      }
    case PatchTodosIdDone(username, id) =>
      var res := ResolveTodo(users, username, id);
      if res.Ok? && res.value.user == i {
        var ref := res.value;
        ReplaceTodoIds(before, ref.todo, TodoAt(users, ref).(done := true));
      }
    case DeleteTodosId(username, id) =>
      var res := ResolveTodo(users, username, id);
      if res.Ok? && res.value.user == i {
        RemoveAtTodoIds(before, res.value.todo);
      }
    case _ =>
  }

  lemma HandleKeepsIdsIssued(users: seq<User>, issued: set<Id>, req: Request)
    requires AllTodoIdsIssued(users, issued)
    ensures AllTodoIdsIssued(Handle(users, req).users, Issue(issued, req))
  {
    var after := Handle(users, req).users;
    forall i | 0 <= i < |after| ensures TodoIds(after[i].todos) <= Issue(issued, req) {
      HandleTodoIds(users, req, i);
    }
  }

  /** A generator that never repeats itself is in particular fresh for the current users. */
  lemma FreshInHistoryIsFresh(users: seq<User>, issued: set<Id>, req: Request)
    requires AllTodoIdsIssued(users, issued) && FreshInHistory(users, issued, req)
    ensures FreshIds(users, req)
  {
  }

  /** With ids never handed out twice, an id handed out before a run that a user holds
      after it was held by that user before it: a deleted todo never comes back. */
  lemma {:induction false} RunNeverReissues(users: seq<User>, issued: set<Id>, reqs: seq<Request>,
                                            i: nat, x: Id)
    requires AllTodoIdsIssued(users, issued) && FreshHistoryRun(users, issued, reqs)
    requires i < |users| && i < |Run(users, reqs)| && x in issued
    requires x in TodoIds(Run(users, reqs)[i].todos)
    ensures x in TodoIds(users[i].todos)
    decreases |reqs|
  {
    if |reqs| > 0 {
      var req := reqs[0];
      var next := Handle(users, req).users;
      HandleKeepsIdsIssued(users, issued, req);
      HandleUsersEvolve(users, req);
      RunNeverReissues(next, Issue(issued, req), reqs[1..], i, x);
      HandleTodoIds(users, req, i);
    }
  }

  /** With ids never handed out twice, across any run of requests from a well-formed
      state no user disappears, pro stays pro, and a todo held before and after the run
      keeps its creation time and stays done once done. */
  lemma {:induction false} RunEvolves(users: seq<User>, issued: set<Id>, reqs: seq<Request>)
    requires WellFormed(users) && AllTodoIdsIssued(users, issued) && FreshHistoryRun(users, issued, reqs)
    ensures Evolves(users, Run(users, reqs))
    decreases |reqs|
  {
    if |reqs| > 0 {
      var req := reqs[0];
      var next := Handle(users, req).users;
      var issued' := Issue(issued, req);
      var last := Run(users, reqs);
      FreshInHistoryIsFresh(users, issued, req);
      HandleEvolves(users, req);
      HandlePreservesWellFormed(users, req);
      HandleKeepsIdsIssued(users, issued, req);
      RunEvolves(next, issued', reqs[1..]);
      assert last == Run(next, reqs[1..]);
      UsersEvolveTransitive(users, next, last);
      forall i | 0 <= i < |users| ensures TodosEvolve(users[i].todos, last[i].todos) {
        forall a, b | 0 <= a < |users[i].todos| && 0 <= b < |last[i].todos| &&
                      users[i].todos[a].id == last[i].todos[b].id
          ensures TodoEvolves(users[i].todos[a], last[i].todos[b])
        {
          var x := users[i].todos[a].id;
          assert x in TodoIds(users[i].todos);
          assert x in TodoIds(last[i].todos);
          RunNeverReissues(next, issued', reqs[1..], i, x);
          var c :| 0 <= c < |next[i].todos| && next[i].todos[c].id == x;
          assert TodoEvolves(users[i].todos[a], next[i].todos[c]);
          assert TodoEvolves(next[i].todos[c], last[i].todos[b]);
        }
      }
    }
  }
}
