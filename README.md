# A verified model of the todo-list task store

The application is a small personal to-do list. Users register and log in
with a username and a password. Each signed-in user keeps a list of tasks
that can be created, edited, toggled complete and deleted. Everything is held
in two process-wide arrays, `users` and `tasks`, which the request handlers
change in place.

This project models that core in Dafny:

- `wrappers.dfy` (`Wrappers`): `Option` for `undefined`/`null` and `Result`
  for thrown errors.
- `seqs.dfy` (`Seqs`): the array primitives the store relies on, `findIndex`
  (`FirstIndex`) and `filter` (`Filter`), with their lemmas.
- `db.dfy` (`Db`), from app/utils/db.server.ts:
  - the records `Task` and `User`, and the `Priority` a task carries;
  - the queries `FindUserByUsername`, `ValidateUserPassword` and
    `GetTasksForUser`, as functions of the arrays;
  - the pure specifications `Updated`, `UpdateResult` and `Without` of what
    `updateTask` and `deleteTask` do to the array;
  - class `Store`, holding `users` and `tasks` as `seq` fields, with methods
    `CreateUser`, `AddTask`, `UpdateTask` (writes the fields of the matched
    record in place) and `DeleteTask` (reassigns `tasks`). Each method is
    proved against those specifications and keeps the invariant that ids are
    distinct.
- `forms.dfy` (`Forms`): reading a form field, JavaScript truthiness, the
  `=== "true"` test, and `String.prototype.trim` with the ECMAScript set of
  white-space and line-terminator characters.
- `auth.dfy` (`Auth`), from app/utils/auth.server.ts:
  - the form-strategy callback `VerifyLogin`;
  - `RegisterNewUser`, which checks for a duplicate username;
  - `GetUserId` and `RequireUserId`, which read the session.
  A session is reduced to "cannot be read" or "holds this optional user id".
- `tasks_route.dfy` (`TasksRoute`), from app/routes/tasks.tsx: the field
  normalisation, the pure `Effect` of each `_action` on the task array, and
  the `Action` method. `Action` calls the store and is proved equal to
  `Effect`.
- `index_route.dfy` (`IndexRoute`), from app/routes/_index.tsx: the
  loader's comparator, the sort, the `Loader`, and the `logout`/`toggle`
  `Action`.

Foreign primitives become parameters:

- bcrypt is a `Hasher`, a pair of functions `hash(password, salt)` and
  `matches(password, hash)`. The ghost predicate `Sound` states that a
  password always matches a hash made from it.
- The random salt is a parameter of `CreateUser`.
- Each id from `crypto.randomUUID` is a parameter, and a precondition
  requires that no stored record already uses it.

Behaviours of the code that the model keeps as they are:

- `createUser` performs no duplicate check of its own. Only
  `registerNewUser` checks, so `Store.CreateUser` appends unconditionally.
- `edit`, `delete` and `toggle` find a task by its id alone. They do not
  check that the task belongs to the signed-in user (`NoOwnershipCheck`).
- The home page's `toggle` does not even require a session.
- A stored priority is not limited to the three names. Both handlers cast
  the form text unchecked, so `Priority` has an `Unlisted(text)` case.
  - An empty priority is ranked as medium (`p || 'medium'`).
  - Any other unlisted text has no rank. The comparator then returns NaN,
    which `Array.prototype.sort` treats as 0.
  - The comparator is therefore a total preorder only on tasks whose
    priority is ranked (`CompareTransitive`). A concrete counterexample
    shows that transitivity fails otherwise
    (`UnlistedPriorityBreaksTransitivity`).

- `requireUserId` redirects to `/_auth/login` (app/utils/auth.server.ts:77),
  and the model keeps that literal. The only login route the application
  registers is `/auth/login` (vite.config.ts:24, remix.config.js:14), so the
  guard appears to redirect to a path no route serves. The model cannot
  show this, since routing is not part of it.

## Model

| member | source | states |
|---|---|---|
| `Db.ParsePriority` | app/routes/tasks.tsx:35 | the cast keeps the form text verbatim; it is an unlisted priority exactly when the text is none of high, medium, low |
| `Db.FindUserByUsername` | app/utils/db.server.ts:27-29 | the result is the first user whose username equals the argument exactly; none exactly when no user has it |
| `Db.ValidateUserPassword` | app/utils/db.server.ts:32-37 | returns a user exactly when the username is found and the password matches that user's stored hash, and then it is that user; otherwise nothing |
| `Db.GetTasksForUser` | app/utils/db.server.ts:40-42 | the result holds exactly the tasks owned by the user, each as many times as in the store |
| `Db.GetTasksForUserConcat` | app/utils/db.server.ts:41 | listing preserves store order: the list of a concatenation is the concatenation of the lists |
| `Db.AddedTaskListed` | app/utils/db.server.ts:45-54 | after a task is appended, its owner's list gains exactly that task at the end and every other user's list is unchanged |
| `Db.FindTaskIndex` | app/utils/db.server.ts:59 | the index of the first task with the id; none exactly when no task has it |
| `Db.ApplyPatch` | app/utils/db.server.ts:61-63 | each of title, completed, priority is replaced when given and kept otherwise; id and owner never change |
| `Db.UpdatedKeepsUnpatched` | app/utils/db.server.ts:61-63 | a field the update is not given keeps its value in every task of the array |
| `Db.Updated` | app/utils/db.server.ts:58-64 | same length, ids and owners everywhere; only the first task with the id is patched; unchanged when no task has the id |
| `Db.UpdateResult` | app/utils/db.server.ts:59-64 | null exactly when no task has the id; otherwise the patched record now stored at the first matching index |
| `Db.UpdatedFindsSameIndex` | app/utils/db.server.ts:59-63 | patching a task does not move any id, so every later lookup finds the same index |
| `Db.ToggleRoundTrip` | app/utils/db.server.ts:62 | setting completed and then setting it back restores the whole array; title and priority are untouched |
| `Db.Without` | app/utils/db.server.ts:68-70 | deleting removes every task with the id and keeps every other task with its multiplicity |
| `Db.WithoutConcat` | app/utils/db.server.ts:69 | deleting keeps store order: deleting from a concatenation is deleting from each part, one after the other |
| `Db.DeleteIdempotent` | app/utils/db.server.ts:69 | deleting an id twice is the same as deleting it once |
| `Db.DeleteMissing` | app/utils/db.server.ts:69 | deleting an id no task has changes nothing |
| `Db.UpdateAfterDelete` | app/utils/db.server.ts:58-70 | after a delete, updateTask on that id returns null and changes nothing |
| `Db.WithoutKeepsDistinct` | app/utils/db.server.ts:69 | deleting keeps task ids distinct |
| `Db.Store.constructor` | app/utils/db.server.ts:4-16 | both arrays start empty |
| `Db.Store.CreateUser` | app/utils/db.server.ts:19-24 | appends exactly one user with the id, the username and the hash of the password; tasks unchanged; returns id and username |
| `Db.Store.AddTask` | app/utils/db.server.ts:45-55 | appends exactly one task with the given owner and verbatim title, not completed, priority as given or medium; earlier tasks unchanged and in order; returns it |
| `Db.Store.UpdateTask` | app/utils/db.server.ts:58-65 | the new array is `Updated` of the old one and the result is `UpdateResult`; users unchanged; ids stay distinct |
| `Db.Store.DeleteTask` | app/utils/db.server.ts:68-70 | the new array is `Without` of the old one; users unchanged; ids stay distinct |
| `Forms.TrimEmptyIff` | app/routes/tasks.tsx:36 | a string trims to the empty string exactly when every character of it is one that trim removes |
| `Forms.IsTrue` | app/routes/tasks.tsx:53 | a field counts as true exactly when it is present and its text is exactly "true" |
| `Forms.Trim` | app/routes/tasks.tsx:36 | the result is the part of the string between a prefix and a suffix of characters trim removes, and it neither starts nor ends with such a character |
| `Forms.HasText` | app/routes/tasks.tsx:36 | `s.trim()` is truthy exactly when some character of `s` is not one that trim removes |
| `Auth.GetUserId` | app/utils/auth.server.ts:63-71 | null when the session cannot be read, otherwise the user id stored in it |
| `Auth.RequireUserId` | app/utils/auth.server.ts:74-80 | a redirect to /_auth/login exactly when the session user id is missing or empty; otherwise that id |
| `Auth.VerifyLogin` | app/utils/auth.server.ts:28-39 | "Username and password required" exactly when a field is missing or empty; "Invalid credentials" exactly when both are given and validation fails; success exactly when both are given and validation finds the user, and then the id of that user |
| `Auth.RegisterNewUser` | app/utils/auth.server.ts:44-50 | "Username already taken" with users unchanged exactly when the exact username exists; otherwise exactly one new user appended and returned |
| `Auth.RegistrationKeepsUsernamesUnique` | app/utils/auth.server.ts:45-49 | a registration that passes the duplicate check keeps usernames unique |
| `Auth.LoginAfterRegistration` | app/utils/auth.server.ts:28-39 | after registering, logging in with the same username and password yields the new user's id |
| `TasksRoute.NewTaskPriority` | app/routes/tasks.tsx:35 | an absent or empty priority field gives medium; otherwise the priority is the field text, cast unchecked |
| `TasksRoute.EditPriority` | app/routes/tasks.tsx:42 | no priority exactly when the field is absent; otherwise the field text cast unchecked, even when empty |
| `TasksRoute.Toggled` | app/routes/tasks.tsx:51-56 | toggling keeps the length and changes only `completed`; a task changes only when it is the first with the given id, and then to whether the field is exactly "true" |
| `TasksRoute.Effect` | app/routes/tasks.tsx:33-59 | no action creates an id other than the fresh one, which goes to a task of the session user, and no action changes a task's owner |
| `TasksRoute.Action` | app/routes/tasks.tsx:28-60 | without a session user, the login redirect and no change; otherwise null and the task array becomes `Effect` of the form; users never change |
| `TasksRoute.NewTaskListed` | app/routes/tasks.tsx:33-38 | `new` with a title that has text appends to the session user's list one incomplete task with the untrimmed title; other users' lists are unchanged |
| `TasksRoute.NewBlankTitleIgnored` | app/routes/tasks.tsx:34-36 | `new` with a missing title, or one that trim empties, changes nothing |
| `TasksRoute.EditKeepsCompletion` | app/routes/tasks.tsx:39-45 | `edit` never changes completed, ids or owners; with no priority field it changes no priority |
| `TasksRoute.EditSetsTitle` | app/routes/tasks.tsx:40-44 | `edit` with an id and a title that has text sets the first matching task's title to the untrimmed text |
| `TasksRoute.EditSetsPriority` | app/routes/tasks.tsx:42-44 | `edit` with an id, a title that has text and a priority field writes that field, cast unchecked, to the first matching task |
| `TasksRoute.EditBlankIgnored` | app/routes/tasks.tsx:40-43 | `edit` with a missing or empty task id, or a missing title or one that trim empties, changes nothing |
| `TasksRoute.DeleteRemovesTask` | app/routes/tasks.tsx:46-50 | `delete` with an id leaves exactly the tasks with another id; without an id nothing changes |
| `TasksRoute.ToggleOnlyCompleted` | app/routes/tasks.tsx:51-56 | `toggle` sets the first task with the id to whether the field is exactly "true"; every other task, including a later one with the same id, is unchanged |
| `TasksRoute.UnknownActionIgnored` | app/routes/tasks.tsx:33-59 | any other `_action` leaves the tasks unchanged |
| `TasksRoute.NoOwnershipCheck` | app/routes/tasks.tsx:39-56 | edit, delete and toggle act the same whoever is signed in |
| `IndexRoute.Rank` | app/routes/_index.tsx:19-20 | high ranks 0, medium and the empty string rank 1, low ranks 2; any other text has no rank |
| `IndexRoute.Compare` | app/routes/_index.tsx:15-21 | incomplete before completed; on ranked priorities negative exactly when the reference order puts the first task first, zero exactly when completion and rank agree; NaN exactly when completion agrees and a rank is missing |
| `IndexRoute.SortCompare` | app/routes/_index.tsx:15-21 | as `Array.prototype.sort` reads the comparator: negative exactly when the first task is incomplete and the second not, or both agree and both ranks exist with the first smaller; zero exactly when completion agrees and the ranks agree or one is missing |
| `IndexRoute.CompareAntisymmetric` | app/routes/_index.tsx:15-21 | swapping the arguments negates the comparison, for all tasks |
| `IndexRoute.CompareTransitive` | app/routes/_index.tsx:15-21 | on ranked priorities the comparison is transitive |
| `IndexRoute.UnlistedPriorityBreaksTransitivity` | app/routes/_index.tsx:19-20 | an unlisted priority ties with high and with low although low follows high |
| `IndexRoute.Insert` | app/routes/_index.tsx:15 | inserting adds exactly the one task |
| `IndexRoute.SortTasks` | app/routes/_index.tsx:15-21 | the sorted list is a permutation of its input |
| `IndexRoute.InsertSorted` | app/routes/_index.tsx:15-21 | inserting a ranked task into a sorted list of ranked tasks keeps it sorted |
| `IndexRoute.SortTasksSorted` | app/routes/_index.tsx:15-21 | sorting a list of ranked tasks yields a sorted list |
| `IndexRoute.SortedRespectsComparator` | app/routes/_index.tsx:16-18 | in a sorted list, a task that compares strictly first stands first |
| `IndexRoute.Loader` | app/routes/_index.tsx:6-23 | no tasks and no user id exactly when there is no session user; otherwise that id and a permutation of the user's tasks |
| `IndexRoute.LoaderSorted` | app/routes/_index.tsx:13-22 | when the signed-in user's tasks all have ranked priorities, whatever other users store, the loader's list is sorted, and every incomplete task precedes every completed one |
| `IndexRoute.Action` | app/routes/_index.tsx:25-39 | `logout` redirects to / and clears the session, tasks unchanged; `toggle` applies the toggle rule; anything else changes nothing; always null except for logout |

## Left out

- Rendering: the page components of both routes and of the login and
  register pages. They are UI and hold no store logic.
- The cookie session is not modelled. Cookie signing, `commitSession` and
  `destroySession` are foreign library code; a session is only what a
  handler reads from it. The `logout` helper is modelled only as the
  redirect it returns.
- The login and register route actions are not modelled. They only wrap
  `VerifyLogin` and `RegisterNewUser` with session commits and catch
  exceptions into messages.
- The loader of app/routes/tasks.tsx is not modelled. It is `requireUserId`
  followed by `getTasksForUser`, both of which are modelled.
- bcrypt is not modelled. It is the abstract `Hasher`, and `Sound` is all
  that is assumed of it. Whether a wrong password is rejected is left to
  the hasher; bcrypt, for one, ignores everything after a password's 72nd
  byte.
- `crypto.randomUUID` and the salt are parameters. The freshness of a new
  id is a precondition.
- async/await and concurrent requests are not modelled. Calls run one at
  a time.
- Aliasing is not modelled. In the application, `addTask` and
  `updateTask` return the very object held in the array, and
  `getTasksForUser` returns the stored objects. Records here are values, so
  a caller changing a returned object is outside the model; no handler does
  so.
- A form field whose value is a `File` is not modelled; only text fields
  are. When a field occurs several times, the form keeps the first value.
- IndexRoute.SortTasks: stability is not proved. `Array.prototype.sort` is
  stable, and so is the insertion sort modelled here, so on ranked priorities
  the two give the same list. The proofs cover only "sorted permutation".
  With an unlisted priority the engine's order is not defined; the model
  then promises only a permutation.
