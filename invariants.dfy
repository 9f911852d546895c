/** What holds of the user list at every moment: unique usernames and ids, ids in UUID
    format, and the todo quota of users without the pro plan. */
module Invariants {
  import opened Records
  import opened Uuid
  import opened Guards
  import opened Handlers

  predicate UsernamesUnique(users: seq<User>) {
    forall i, j :: 0 <= i < j < |users| ==> users[i].username != users[j].username
  }

  predicate UserIdsUnique(users: seq<User>) {
    forall i, j :: 0 <= i < j < |users| ==> users[i].id != users[j].id
  }

  function TodoIds(todos: seq<Todo>): set<Id> {
    set b | 0 <= b < |todos| :: todos[b].id
  }

  predicate DistinctTodoIds(todos: seq<Todo>) {
    forall a, b :: 0 <= a < b < |todos| ==> todos[a].id != todos[b].id
  }

  /** No todo id occurs twice, neither in one user's list nor in two users' lists. */
  predicate TodoIdsUnique(users: seq<User>) {
    (forall i :: 0 <= i < |users| ==> DistinctTodoIds(users[i].todos)) &&
    (forall i, j :: 0 <= i < j < |users| ==> TodoIds(users[i].todos) !! TodoIds(users[j].todos))
  }

  predicate IdsAreUuids(users: seq<User>) {
    forall i :: 0 <= i < |users| ==>
      IsUuid(users[i].id) && forall b :: 0 <= b < |users[i].todos| ==> IsUuid(users[i].todos[b].id)
  }

  predicate WithinQuota(users: seq<User>) {
    forall i :: 0 <= i < |users| ==> users[i].pro || |users[i].todos| <= FreeTodoLimit
  }

  predicate WellFormed(users: seq<User>) {
    UsernamesUnique(users) && UserIdsUnique(users) && TodoIdsUnique(users) &&
    IdsAreUuids(users) && WithinQuota(users)
  }

  predicate UserIdInUse(users: seq<User>, id: Id) {
    exists i :: 0 <= i < |users| && users[i].id == id
  }

  predicate TodoIdInUse(users: seq<User>, id: Id) {
    exists i :: 0 <= i < |users| && HasTodoId(users[i].todos, id)
  }

  /** What the id generator guarantees for a request: the id it creates is a UUID that
      no record of the same kind carries yet. */
  predicate FreshIds(users: seq<User>, req: Request) {
    match req
    case PostUsers(_, _, freshId) => IsUuid(freshId) && !UserIdInUse(users, freshId)
    case PostTodos(_, _, _, freshId, _) => IsUuid(freshId) && !TodoIdInUse(users, freshId)
    case _ => true
  }

  /** The requests can be handled one after another from `users` with fresh ids. */
  predicate FreshRun(users: seq<User>, reqs: seq<Request>)
    decreases |reqs|
  {
    |reqs| == 0 ||
    (FreshIds(users, reqs[0]) && FreshRun(Handle(users, reqs[0]).users, reqs[1..]))
  }

  /** The todo id a request may take out of a list: the one DELETE /todos/:id names. */
  function Deleted(req: Request): set<Id> {
    if req.DeleteTodosId? then {req.id} else {}
  }

  /** The todo ids handed out so far, after the id generator has served `req`. */
  function Issue(issued: set<Id>, req: Request): set<Id> {
    if req.PostTodos? then issued + {req.freshId} else issued
  }

  /** What a generator that never repeats itself guarantees: a new user id is a UUID no
      user has, and a new todo id is a UUID never handed out before, not even for a todo
      deleted since. */
  predicate FreshInHistory(users: seq<User>, issued: set<Id>, req: Request) {
    match req
    case PostUsers(_, _, freshId) => IsUuid(freshId) && !UserIdInUse(users, freshId)
    case PostTodos(_, _, _, freshId, _) => IsUuid(freshId) && freshId !in issued
    case _ => true
  }

  /** Every todo id the users hold has been handed out. */
  predicate AllTodoIdsIssued(users: seq<User>, issued: set<Id>) {
    forall i :: 0 <= i < |users| ==> TodoIds(users[i].todos) <= issued
  }

  /** The requests can be handled one after another from `users` by a generator that has
      handed out `issued` so far and never repeats itself. */
  predicate FreshHistoryRun(users: seq<User>, issued: set<Id>, reqs: seq<Request>)
    decreases |reqs|
  {
    |reqs| == 0 ||
    (FreshInHistory(users, issued, reqs[0]) &&
     FreshHistoryRun(Handle(users, reqs[0]).users, Issue(issued, reqs[0]), reqs[1..]))
  }

  /** How one todo may change: its id and creation time stay, and done stays done. */
  predicate TodoEvolves(before: Todo, after: Todo) {
    after.id == before.id && after.createdAt == before.createdAt && (before.done ==> after.done)
  }

  /** How the users may change: none disappears or moves, their ids, names and
      usernames stay, and pro stays pro. */
  predicate UsersEvolve(before: seq<User>, after: seq<User>) {
    |before| <= |after| &&
    forall i :: 0 <= i < |before| ==>
      after[i].id == before[i].id && after[i].name == before[i].name &&
      after[i].username == before[i].username && (before[i].pro ==> after[i].pro)
  }

  /** A todo held before and after, under the same id, evolves. */
  predicate TodosEvolve(before: seq<Todo>, after: seq<Todo>) {
    forall a, b | 0 <= a < |before| && 0 <= b < |after| && before[a].id == after[b].id
      :: TodoEvolves(before[a], after[b])
  }

  /** `UsersEvolve`, and each user's todos evolve. */
  predicate Evolves(before: seq<User>, after: seq<User>) {
    UsersEvolve(before, after) &&
    forall i :: 0 <= i < |before| ==> TodosEvolve(before[i].todos, after[i].todos)
  }
}
