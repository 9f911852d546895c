/** What each route does to the user list and what it answers, stated against the
    records the request names. */
module Properties {
  import opened Records
  import opened Guards
  import opened Handlers
  import opened Invariants

  /** Two lists whose elements agree pointwise on a search predicate give the same
      first match. */
  lemma FindIndexAgrees<T>(s: seq<T>, t: seq<T>, p: T -> bool, q: T -> bool)
    requires |s| == |t| && forall j :: 0 <= j < |s| ==> p(s[j]) == q(t[j])
    ensures FindIndex(s, p) == FindIndex(t, q)
  {
  }

  /** Two user lists that agree on every key a lookup reads: user ids, usernames and
      the ids of each user's todos. */
  predicate SameKeys(before: seq<User>, after: seq<User>) {
    |before| == |after| &&
    forall i :: 0 <= i < |before| ==>
      after[i].id == before[i].id && after[i].username == before[i].username &&
      |after[i].todos| == |before[i].todos| &&
      forall b :: 0 <= b < |before[i].todos| ==> after[i].todos[b].id == before[i].todos[b].id
  }

  /** Changing anything but keys does not change what the guards find. */
  lemma LookupsAgreeOnSameKeys(before: seq<User>, after: seq<User>, username: string, id: Id)
    requires SameKeys(before, after)
    ensures FindUserById(after, id) == FindUserById(before, id)
    ensures ResolveUser(after, username) == ResolveUser(before, username)
    ensures ResolveTodo(after, username, id) == ResolveTodo(before, username, id)
  {
    FindIndexAgrees(after, before, (u: User) => u.id == id, (u: User) => u.id == id);
    FindIndexAgrees(after, before, (u: User) => u.username == username, (u: User) => u.username == username);
    var f := FindUserByUsername(before, username);
    if f.Some? {
      var i := f.value;
      FindIndexAgrees(after[i].todos, before[i].todos, (t: Todo) => t.id == id, (t: Todo) => t.id == id);
    }
  }

  lemma ReplaceTodoKeepsKeys(users: seq<User>, ref: TodoRef, todo: Todo)
    requires ValidRef(users, ref) && todo.id == TodoAt(users, ref).id
    ensures SameKeys(users, ReplaceTodo(users, ref, todo))
  {
  }

  // ---------------------------------------------------------------- lookups

  /** Usernames being unique, the user resolved from a username is the one user that
      has it. */
  lemma UsernameLookupIsUnique(users: seq<User>, i: nat)
    requires UsernamesUnique(users) && i < |users|
    ensures ResolveUser(users, users[i].username) == Ok(i)
  {
  }

  /** User ids being unique, GET /users/:id answers the one user with that id. */
  lemma GetUserFindsTheUser(users: seq<User>, i: nat)
    requires UserIdsUnique(users) && i < |users|
    ensures GetUser(users, users[i].id) == Ok(users[i])
  {
  }

  lemma GetUserOutcome(users: seq<User>, id: Id)
    ensures GetUser(users, id) == Err(UnknownUserId) <==> !UserIdInUse(users, id)
    ensures GetUser(users, id).Ok? ==> GetUser(users, id).value in users && GetUser(users, id).value.id == id
  {
  }

  /** GET /todos answers the acting user's own todos, in the order they were created. */
  lemma ListTodosIsOwnList(users: seq<User>, i: nat)
    requires UsernamesUnique(users) && i < |users|
    ensures ListTodos(users, users[i].username) == Ok(users[i].todos)
  {
  }

  // ---------------------------------------------------------------- users

  lemma CreateUserOutcome(users: seq<User>, name: string, username: string, freshId: Id)
    ensures var r := CreateUser(users, name, username, freshId);
            (r.result.Err? <==> UsernameInUse(users, username)) &&
            (r.result.Err? ==> r.result.error == UsernameTaken && r.users == users)
    ensures var r := CreateUser(users, name, username, freshId);
            r.result.Ok? ==>
              var u := r.result.value;
              r.users == users + [u] &&
              u.id == freshId && u.name == name && u.username == username && !u.pro && u.todos == [] &&
              ResolveUser(r.users, username) == Ok(|users|) &&
              (!UserIdInUse(users, freshId) ==> GetUser(r.users, freshId) == Ok(u))
  {
    var r := CreateUser(users, name, username, freshId);
    if r.result.Ok? {
      var after := r.users;
      var n := |users|;
      assert forall i :: 0 <= i < n ==> after[i] == users[i];
      assert after[n].username == username && after[n].id == freshId;
    }
  }

  /** Repeating POST /users with a username now taken fails and changes nothing,
      whether or not the first attempt succeeded. */
  lemma CreateUserTwiceFails(users: seq<User>, name: string, username: string, freshId: Id,
                             name': string, freshId': Id)
    ensures var first := CreateUser(users, name, username, freshId);
            CreateUser(first.users, name', username, freshId') == Reply(first.users, Err(UsernameTaken))
  {
    var first := CreateUser(users, name, username, freshId);
    if first.result.Ok? {
      assert first.users[|users|].username == username;
    }
  }

  /** PATCH /users/:id/pro: 404 exactly for an unknown id, 400 (already pro) the only
      other error, and no failure changes anything. */
  lemma UpgradeOutcome(users: seq<User>, id: Id)
    ensures var r := UpgradeToPro(users, id);
            (r.result == Err(UnknownUserId) <==> !UserIdInUse(users, id)) &&
            (r.result.Err? ==> r.users == users) &&
            (r.result.Ok? || r.result == Err(UnknownUserId) || r.result == Err(AlreadyPro))
  {
  }

  /** PATCH /users/:id/pro on a stored user: 400 exactly when the user is already pro,
      else exactly that user's pro flag flips to true and the answer is the updated
      user. */
  lemma UpgradeChangesOnlyPro(users: seq<User>, i: nat)
    requires UserIdsUnique(users) && i < |users|
    ensures var r := UpgradeToPro(users, users[i].id);
            (r.result == Err(AlreadyPro) <==> users[i].pro) &&
            (r.result.Ok? ==>
              !users[i].pro && r.result.value == r.users[i] &&
              |r.users| == |users| && r.users[i].pro && r.users[i].(pro := false) == users[i] &&
              forall j :: 0 <= j < |users| && j != i ==> r.users[j] == users[j])
  {
  }

  /** After a successful upgrade an immediate second one fails with AlreadyPro and
      changes nothing. */
  lemma UpgradeTwiceFails(users: seq<User>, id: Id)
    requires UpgradeToPro(users, id).result.Ok?
    ensures var after := UpgradeToPro(users, id).users;
            UpgradeToPro(after, id) == Reply(after, Err(AlreadyPro))
  {
    var after := UpgradeToPro(users, id).users;
    var i := FindUserById(users, id).value;
    assert SameKeys(users, after);
    LookupsAgreeOnSameKeys(users, after, "", id);
  }

  // ---------------------------------------------------------------- todos

  /** `after` is `before` with the todo at `ref` replaced by `todo`, and nothing else
      changed: no other user, no other field of the owner, no other todo. */
  predicate OnlyTodoReplaced(before: seq<User>, after: seq<User>, ref: TodoRef, todo: Todo) {
    ValidRef(before, ref) && |after| == |before| &&
    (forall j :: 0 <= j < |before| && j != ref.user ==> after[j] == before[j]) &&
    var u, u' := before[ref.user], after[ref.user];
    u'.id == u.id && u'.name == u.name && u'.username == u.username && u'.pro == u.pro &&
    |u'.todos| == |u.todos| && u'.todos[ref.todo] == todo &&
    forall b :: 0 <= b < |u.todos| && b != ref.todo ==> u'.todos[b] == u.todos[b]
  }

  /** POST /todos by a stored user: 403 without any change exactly when the user is not
      pro and holds FreeTodoLimit todos or more; else one new todo, not done, is
      appended to that user's list and nothing else changes. */
  lemma CreateTodoOutcome(users: seq<User>, i: nat, title: string, deadline: Date, freshId: Id, now: Date)
    requires UsernamesUnique(users) && i < |users|
    ensures var r := CreateTodo(users, users[i].username, title, deadline, freshId, now);
            (r.result == Err(TodoQuotaReached) <==> !users[i].pro && |users[i].todos| >= FreeTodoLimit) &&
            (r.result.Err? ==> r.result == Err(TodoQuotaReached) && r.users == users)
    ensures var r := CreateTodo(users, users[i].username, title, deadline, freshId, now);
            r.result.Ok? ==>
              r.result.value == Todo(freshId, title, deadline, false, now) &&
              |r.users| == |users| &&
              (forall j :: 0 <= j < |users| && j != i ==> r.users[j] == users[j]) &&
              r.users[i] == users[i].(todos := users[i].todos + [r.result.value]) &&
              |r.users[i].todos| == |users[i].todos| + 1
  {
  }

  /** POST /todos with an unknown username: 404 and no change. */
  lemma CreateTodoUnknownUser(users: seq<User>, username: string, title: string, deadline: Date,
                              freshId: Id, now: Date)
    requires !UsernameInUse(users, username)
    ensures CreateTodo(users, username, title, deadline, freshId, now) == Reply(users, Err(UnknownUsername))
  {
  }

  /** A todo of another user is not found under the acting user's username, even with
      a valid id: every single-todo route then fails with 404 and changes nothing. */
  lemma ForeignTodoIsNotFound(users: seq<User>, i: nat, j: nat, b: nat, title: string, deadline: Date)
    requires WellFormed(users) && i < |users| && j < |users| && i != j && b < |users[j].todos|
    ensures var username, id := users[i].username, users[j].todos[b].id;
            ResolveTodo(users, username, id) == Err(UnknownTodo) &&
            UpdateTodo(users, username, id, title, deadline) == Reply(users, Err(UnknownTodo)) &&
            MarkDone(users, username, id) == Reply(users, Err(UnknownTodo)) &&
            DeleteTodo(users, username, id) == Reply(users, Err(UnknownTodo))
  {
    var id := users[j].todos[b].id;
    UsernameLookupIsUnique(users, i);
    assert id in TodoIds(users[j].todos);
  }

  /** PUT /todos/:id overwrites title and deadline of the resolved todo; its id, done
      flag and creation time, and every other todo and user, stay as they were. */
  lemma UpdateChangesOnlyTitleAndDeadline(users: seq<User>, username: string, id: Id, title: string, deadline: Date)
    ensures var r, res := UpdateTodo(users, username, id, title, deadline), ResolveTodo(users, username, id);
            (res.Err? ==> r == Reply(users, Err(res.error))) &&
            (res.Ok? ==>
              var prior := TodoAt(users, res.value);
              r.result.Ok? &&
              r.result.value.title == title && r.result.value.deadline == deadline &&
              r.result.value.id == prior.id == id && r.result.value.done == prior.done &&
              r.result.value.createdAt == prior.createdAt &&
              OnlyTodoReplaced(users, r.users, res.value, r.result.value))
  {
  }

  /** PATCH /todos/:id/done never fails once the todo is resolved, and sets done
      whatever it was; nothing else changes. */
  lemma MarkDoneSetsDone(users: seq<User>, username: string, id: Id)
    ensures var r, res := MarkDone(users, username, id), ResolveTodo(users, username, id);
            (res.Err? ==> r == Reply(users, Err(res.error))) &&
            (res.Ok? ==>
              r.result.Ok? && r.result.value.done &&
              r.result.value == TodoAt(users, res.value).(done := true) &&
              OnlyTodoReplaced(users, r.users, res.value, r.result.value))
  {
  }

  /** Marking a todo done twice answers the same and leaves the same users as once. */
  lemma MarkDoneIdempotent(users: seq<User>, username: string, id: Id)
    ensures var once := MarkDone(users, username, id);
            MarkDone(once.users, username, id) == once
  {
    var once := MarkDone(users, username, id);
    var res := ResolveTodo(users, username, id);
    if res.Ok? {
      var ref := res.value;
      var todo := TodoAt(users, ref).(done := true);
      assert once.users == ReplaceTodo(users, ref, todo);
      ReplaceTodoKeepsKeys(users, ref, todo);
      LookupsAgreeOnSameKeys(users, once.users, username, id);
      assert TodoAt(once.users, ref) == todo;
      var u := once.users[ref.user];
      assert u.todos[ref.todo := todo] == u.todos;
      assert u.(todos := u.todos) == u;
      assert ReplaceTodo(once.users, ref, todo) == once.users;
    }
  }

  /** The defensive `todoIndex === -1` branch of DELETE /todos/:id is never taken. */
  lemma DeleteNeverReportsTodoNotInList(users: seq<User>, username: string, id: Id)
    ensures DeleteTodo(users, username, id).result != Err(TodoNotInList)
  {
  }

  /** DELETE /todos/:id takes out exactly the resolved todo: the owner's list is one
      shorter, the todos before it and after it keep their order, and no other user
      changes. */
  lemma DeleteRemovesExactlyTheTodo(users: seq<User>, username: string, id: Id)
    ensures var r, res := DeleteTodo(users, username, id), ResolveTodo(users, username, id);
            (res.Err? ==> r == Reply(users, Err(res.error))) &&
            (res.Ok? ==>
              var ref, todos := res.value, users[res.value.user].todos;
              r.result.Ok? && |r.users| == |users| &&
              (forall j :: 0 <= j < |users| && j != ref.user ==> r.users[j] == users[j]) &&
              r.users[ref.user] == users[ref.user].(todos := r.users[ref.user].todos) &&
              |r.users[ref.user].todos| == |todos| - 1 &&
              (forall b :: 0 <= b < ref.todo ==> r.users[ref.user].todos[b] == todos[b]) &&
              (forall b :: ref.todo <= b < |todos| - 1 ==> r.users[ref.user].todos[b] == todos[b + 1]))
  {
  }

  /** Todo ids being unique, once a todo is deleted it is not found any more. */
  lemma DeleteThenNotFound(users: seq<User>, username: string, id: Id)
    requires WellFormed(users) && DeleteTodo(users, username, id).result.Ok?
    ensures ResolveTodo(DeleteTodo(users, username, id).users, username, id) == Err(UnknownTodo)
  {
    var after := DeleteTodo(users, username, id).users;
    DeleteRemovesExactlyTheTodo(users, username, id);
    var res := ResolveTodo(users, username, id);
    var ref := res.value;
    var todos := users[ref.user].todos;
    var left := after[ref.user].todos;
    assert forall j :: 0 <= j < |users| ==> after[j].username == users[j].username;
    FindIndexAgrees(after, users, (u: User) => u.username == username, (u: User) => u.username == username);
    assert ResolveUser(after, username) == Ok(ref.user);
  }
}
