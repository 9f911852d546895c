# Todo service: a verified model

The service keeps user accounts and per-user todo lists in one in-memory array,
`users`, and answers eight HTTP routes: create a user, get a user by id, upgrade a
user to the pro plan, and list, create, update, mark done and delete the todos of the
user named by the `username` request header. Every route checks first, with its guards
(`checksExistsUserAccount`, `checksCreateTodosUserAvailability`, `checksTodoExists`,
`findUserById`) or, for POST /users, the inline `users.some` test, and only then changes
the array or answers an error.

The model is layered as the program is:

- `Records` (records.dfy): the `User` and `Todo` records, the errors the routes
  answer with (one constructor per cause) and their status codes; a user without the
  pro plan may hold `FreeTodoLimit` = 10 todos.
- `Uuid` (uuid.dfy): syntactic validity of ids, standing in for `validate`.
- `Guards` (guards.dfy): the lookups (`find`, `some`, `indexOf`) and the guards, as
  functions whose contracts say which record they find and in which order the checks
  run.
- `Handlers` (handlers.dfy): each route as a function from the users before the request
  to the users after it and the response; `Request`, `Handle` and `Run` make the
  service a state machine over requests.
- `Invariants` (invariants.dfy): what holds of the users at all times (unique usernames,
  user ids and todo ids, ids in UUID format, the quota) and how users and todos may
  change from one request to the next.
- `Service` (service.dfy): the `users` array as the field of a `Store` object whose
  methods are the route handlers. They update the users in place, each proved equal
  to its `Handlers` function and to keep `Valid()`.
- `Preservation`, `Properties`, `Evolution`: the lemmas. Every route keeps the users
  well formed; what each route answers and changes, down to "nothing else changes";
  and over any run of requests pro stays pro; with an id generator that never
  repeats itself, a todo kept across a run also stays done once done.

The status codes each route answers in src/index.js:

| route | success | errors |
|---|---|---|
| POST /users | 201 | 400 username taken |
| GET /users/:id | 200 | 404 unknown id |
| PATCH /users/:id/pro | 200 | 404 unknown id, 400 already pro |
| GET /todos | 200 | 404 unknown username |
| POST /todos | 201 | 404 unknown username, 403 quota reached |
| PUT /todos/:id | 200 | 404 unknown username, 400 invalid id, 404 unknown todo |
| PATCH /todos/:id/done | 200 | 404 unknown username, 400 invalid id, 404 unknown todo |
| DELETE /todos/:id | 204 | 404 unknown username, 400 invalid id, 404 unknown todo |

## Model

| member | source | states |
|---|---|---|
| Guards.FindIndex | src/index.js:14 | `Array.prototype.find` as a position: the first element satisfying the predicate, and none exactly when no element does |
| Guards.FindUserByUsername | src/index.js:13-14 | the first user with the username; none exactly when no user has it |
| Guards.FindUserById | src/index.js:55-56 | the first user with the id; none exactly when no user has it |
| Guards.FindTodoById | src/index.js:44 | the first todo of the list with the id; none exactly when the list has no such todo |
| Guards.IndexOf | src/index.js:148 | -1 exactly when the todo is absent, else the first position holding it |
| Guards.ResolveUser | src/index.js:12-21 | the first user with the header's username, or UnknownUsername (404) exactly when there is none |
| Guards.ResolveTodo | src/index.js:31-52 | checks in this order: UnknownUsername (404) iff no user has the username; else InvalidTodoId (400) iff the id is not a UUID; else UnknownTodo (404) iff that user's own todos lack the id; on success the first todo with the id in that user's list |
| Guards.IndexOfResolvedTodo | src/index.js:148-152 | `indexOf` of the resolved todo is exactly its resolved position, so the -1 branch is dead |
| Uuid.IsUuid | src/index.js:40 | the id check of `checksTodoExists`: 36 characters, hyphens at offsets 8, 13, 18 and 23, hexadecimal digits elsewhere (specification predicate, weaker than `validate`; see Left out) |
| Guards.UsernameInUse | src/index.js:67 | `users.some` on the username: some user has it (specification predicate) |
| Guards.HasTodoCapacity | src/index.js:23-29 | the quota check: refuses exactly a user who is not pro and holds 10 todos or more (specification predicate; its consequences are in Properties.CreateTodoOutcome) |
| Records.ErrorStatus | src/index.js:17-151 | every error is answered with 400, 403 or 404, and 403 only for the todo quota |
| Handlers.CreateUser | src/index.js:64-84 | POST /users (specification function; properties in the lemmas below) |
| Handlers.GetUser | src/index.js:86-90 | GET /users/:id (specification function) |
| Handlers.UpgradeToPro | src/index.js:92-102 | PATCH /users/:id/pro (specification function) |
| Handlers.ListTodos | src/index.js:104-108 | GET /todos (specification function) |
| Handlers.CreateTodo | src/index.js:110-125 | POST /todos (specification function) |
| Handlers.UpdateTodo | src/index.js:127-135 | PUT /todos/:id (specification function) |
| Handlers.MarkDone | src/index.js:137-143 | PATCH /todos/:id/done (specification function) |
| Handlers.ReplaceTodo | src/index.js:131-140 | the in-place field assignments to the resolved todo, as one replacement of that todo (specification function) |
| Handlers.RemoveAt | src/index.js:154 | `splice(k, 1)` (specification function; properties in Preservation.RemoveAtKeepsOthers) |
| Handlers.DeleteTodo | src/index.js:145-157 | DELETE /todos/:id (specification function) |
| Handlers.Handle | src/index.js:64-157 | one request routed to its handler (specification function) |
| Handlers.Status | src/index.js:83-156 | 201 for a created user or todo, 204 for a deletion, 200 for every other success, else the error's code (specification function; properties in Evolution.StatusTable) |
| Handlers.Run | src/index.js:10-157 | requests handled one after another, each to completion (specification function) |
| Preservation.CreateUserPreservesWellFormed | src/index.js:67-81 | with a fresh UUID for the new user, creating a user keeps usernames, user ids and todo ids unique |
| Preservation.UpgradePreservesWellFormed | src/index.js:95-99 | the pro upgrade keeps the users well formed |
| Preservation.CreateTodoPreservesWellFormed | src/index.js:114-122 | with a fresh UUID, creating a todo keeps todo ids unique and no non-pro user above 10 todos |
| Preservation.UpdatePreservesWellFormed | src/index.js:131-132 | updating a todo keeps the users well formed |
| Preservation.MarkDonePreservesWellFormed | src/index.js:140 | marking a todo done keeps the users well formed |
| Preservation.DeletePreservesWellFormed | src/index.js:148-154 | deleting a todo keeps the users well formed |
| Preservation.RemoveAtKeepsOthers | src/index.js:154 | `splice(k, 1)` shortens the list by one and keeps the todos before and after k in order |
| Preservation.RemoveAtTodoIds | src/index.js:154 | `splice(k, 1)` adds no todo id and takes out none but the id of the removed todo |
| Preservation.HandlePreservesWellFormed | src/index.js:64-157 | every request with fresh generated ids keeps the users well formed |
| Preservation.RunPreservesWellFormed | src/index.js:64-157 | so does every sequence of such requests |
| Preservation.ReachableStoresAreWellFormed | src/index.js:10 | from the empty start, usernames stay unique and no non-pro user ever holds more than 10 todos |
| Properties.UsernameLookupIsUnique | src/index.js:13-14 | usernames being unique, the user resolved from a username is the one user that has it |
| Properties.GetUserFindsTheUser | src/index.js:54-62 | user ids being unique, GET /users/:id answers the one user with that id |
| Properties.GetUserOutcome | src/index.js:86-90 | GET /users/:id answers 404 exactly when no user has the id, else a stored user with that id |
| Properties.ListTodosIsOwnList | src/index.js:104-108 | GET /todos answers exactly the acting user's own todos in insertion order |
| Properties.CreateUserOutcome | src/index.js:64-84 | a taken username gives 400 and no change; otherwise exactly one user, with the given id, name and username, not pro and without todos, is appended, and is then found by its username and its id |
| Properties.CreateUserTwiceFails | src/index.js:67-71 | repeating the creation with the same username fails with 400 and changes nothing |
| Properties.UpgradeOutcome | src/index.js:92-102 | 404 exactly for an unknown id; every failure leaves the users unchanged |
| Properties.UpgradeChangesOnlyPro | src/index.js:95-101 | 400 exactly when the user is already pro; otherwise only that user's pro flag changes, to true, and the answer is the updated user |
| Properties.UpgradeTwiceFails | src/index.js:95-99 | after a successful upgrade an immediate second one answers 400 and changes nothing |
| Properties.CreateTodoOutcome | src/index.js:110-125 | 403 with no change exactly when the user is not pro and holds 10 todos or more; otherwise one todo with the given id, title, deadline and creation time and not done is appended at the end of that user's list, and nothing else changes |
| Properties.CreateTodoUnknownUser | src/index.js:12-18 | an unknown username gives 404 and no change |
| Properties.ForeignTodoIsNotFound | src/index.js:44-48 | a todo of another user is not found under the acting user's username: update, done and delete answer 404 and change nothing |
| Properties.UpdateChangesOnlyTitleAndDeadline | src/index.js:127-135 | guard failures pass through unchanged; otherwise title and deadline are overwritten and the todo's id, done and creation time, every other todo and every other user stay as they were |
| Properties.MarkDoneSetsDone | src/index.js:137-143 | once the todo is resolved, marking done never fails, sets done whatever it was, and changes nothing else |
| Properties.MarkDoneIdempotent | src/index.js:140 | marking done a second time answers the same and leaves the same users |
| Properties.DeleteNeverReportsTodoNotInList | src/index.js:148-152 | the delete route never takes its `todoIndex === -1` branch |
| Properties.DeleteRemovesExactlyTheTodo | src/index.js:145-157 | guard failures pass through unchanged; otherwise exactly the resolved todo is removed: the list is one shorter, the other todos keep their order, other users are unchanged |
| Properties.DeleteThenNotFound | src/index.js:154 | todo ids being unique, a deleted todo is not found any more |
| Evolution.FailedRequestsChangeNothing | src/index.js:64-157 | a request that answers an error leaves the users unchanged |
| Evolution.ReadsChangeNothing | src/index.js:86-108 | GET /users/:id and GET /todos never change the users |
| Evolution.StatusTable | src/index.js:64-157 | each route answers only the status codes listed for it in the table above |
| Evolution.HandleTodosEvolve | src/index.js:114-154 | with fresh ids, a request keeps every todo id of a user except the one a DELETE names, and a todo present before and after it under the same id keeps its creation time and stays done once done |
| Evolution.HandleKeepsTodoIds | src/index.js:114-154 | a request takes no todo id out of a user's list except the one DELETE /todos/:id names: only the spliced todo ever leaves |
| Evolution.HandleEvolves | src/index.js:64-157 | a request never removes a user or changes its id, name or username, never clears pro, and a todo kept under the same id keeps its creation time and stays done once done |
| Evolution.RunUsersEvolve | src/index.js:99 | over any run of requests no user disappears and a pro user stays pro |
| Evolution.HandleTodoIds | src/index.js:114-154 | the only todo id a request can add to a user's list is the one it generates |
| Evolution.RunNeverReissues | src/index.js:115 | with ids never generated twice, a deleted todo id never comes back to a user's list during a run |
| Evolution.RunEvolves | src/index.js:131-154 | with ids never generated twice, across any run from a well-formed state no user disappears, pro stays pro, and a todo held before and after keeps its creation time and stays done once done |
| Service.Store.constructor | src/index.js:10 | the service starts with no users |
| Service.Store.CreateUser | src/index.js:64-84 | the handler, updating `users` in place, does what Handlers.CreateUser says and keeps the users well formed |
| Service.Store.GetUser | src/index.js:86-90 | answers Handlers.GetUser: 404 exactly for an unknown id, else a stored user with that id |
| Service.Store.UpgradeToPro | src/index.js:92-102 | does what Handlers.UpgradeToPro says and keeps the users well formed |
| Service.Store.ListTodos | src/index.js:104-108 | answers Handlers.ListTodos: 404 exactly for an unknown username, else the todos of a user with that username |
| Service.Store.CreateTodo | src/index.js:110-125 | does what Handlers.CreateTodo says and keeps the users well formed |
| Service.Store.UpdateTodo | src/index.js:127-135 | does what Handlers.UpdateTodo says and keeps the users well formed |
| Service.Store.MarkDone | src/index.js:137-143 | does what Handlers.MarkDone says and keeps the users well formed |
| Service.Store.DeleteTodo | src/index.js:145-157 | does what Handlers.DeleteTodo says, never answers from the defensive branch, and keeps the users well formed |

## Left out

- The Express application, `cors`, `express.json`, the response serialisation and the
  module exports (src/index.js:1-8, 159-166): plumbing. A response is modelled as the
  record it carries or the error it reports, with the status code in `ErrorStatus` and
  `Handlers.Status`.
- The error messages: each error is a constructor named by its cause. The two 404
  answers for an unknown username (from `checksExistsUserAccount` and from
  `checksTodoExists`) differ only in wording and are both `UnknownUsername`.
- `uuidv4()` (src/index.js:74, 115): a random foreign call. The new id is a parameter.
  The `Store` methods and the preservation lemmas require it to be a UUID not yet used
  by a record of the same kind. `Evolution.RunEvolves` requires more, as a real
  generator provides: a todo id never handed out before, not even for a todo deleted
  since. Freshness against the current users alone would let a deleted todo's id come
  back as a new, not-done todo.
- Uuid.IsUuid: weaker than `validate` of the uuid package (src/index.js:40). It is the
  textual format of RFC 4122 section 3, 8-4-4-4-12 hexadecimal digits in either case.
  Every release of the package that has `validate` also demands a version digit (1 to 5,
  in later releases 1 to 8) at offset 14 and a variant digit (8, 9, a or b) at offset 19,
  and admits the nil UUID (in later releases also the max UUID) besides. For an id in
  the textual format with other digits there, the source answers 400 at
  src/index.js:40-41, while the model goes on to the todo lookup and, no generated todo
  having such an id, answers 404. The order of the checks is otherwise the source's.
- `new Date(...)` (src/index.js:117, 119, 132): date parsing and the clock. The deadline
  arrives already converted to a `Date` and the creation time is a parameter.
- Fields missing from a JSON body or header, or of a type other than string: the model
  takes every name, username, title and header as a string. In the source a request
  with no `username` header does resolve to a user created without a username, since
  both are `undefined` and `undefined === undefined`; the model cannot express a missing
  value and so does not capture that case.
- Object identity: the handlers mutate the very objects that `find` returned. The model
  keeps records as values and replaces them by position, and `indexOf` compares values.
  `Guards.IndexOfResolvedTodo` shows both give the same position here.
- Concurrency: each request runs to completion before the next one starts.
