# Task list: server table, use case, validators and browser cache

This project models in Dafny the to-do application's core: one user's task list. The list is stored on the server and mirrored in a cache in the browser.

On the server (Go, Echo, GORM):

- **Repository.** `taskRepository` is modelled as a class holding an in-memory table of `Task` rows and the next primary key.
  - Each operation is the WHERE clause it issues: `user_id = ?` for reads, and `id = ? AND user_id = ?` for update and delete.
  - An UPDATE or DELETE that affects no row returns `"object does not exist"`.
  - `First` on no row returns `"record not found"`.
  - `ORDER BY created_at` is a stable insertion sort.
- **Use case.** `taskUsecase` runs the task validator before every create and update. It calls the repository and copies `ID`, `Title`, `CreatedAt` and `UpdatedAt` into a `TaskResponse`. Every error is returned beside the zero response.
- **Validators.** The ozzo-validation rules used by the validators are modelled as a small rule engine:
  - `Required`;
  - `RuneLength`, which skips empty values;
  - a format predicate, which also skips empty values.

  A field reports its first failing rule. Errors are a map from the field's JSON name to the message. `TaskValidate` and `UserValidate` are instances of this engine.

In the browser (React, react-query, zustand):

- **Draft store.** The zustand store holds the edit draft `editedTask`. It starts as `{id: 0, title: ""}` and has two actions, update and reset.
- **Form.** The `Todo` form picks create or update from `id == 0`. It disables submit on an empty title and labels the button to match. Logout drops the `['tasks']` cache entry once the logout call has succeeded.
- **Mutations.** The mutations of `useMutateTask` issue their HTTP requests and patch the cached list on success. Create appends, update replaces by id, and delete filters by id. Every success resets the draft. A failure extracts a message and passes it to `switchErrorHandling`.
- **Error handler.** `switchErrorHandling` is a total function from a message to an effect: an alert text, a draft reset, navigation to `/`, and a CSRF token refetch. The side effects are then performed on a `Page` object.
  - The refetched token is written under the header key `X=CSRF-TOKEN`, exactly as the code spells it.
  - The application's start-up writes `X-CSRF-Token`. `CsrfHeaderKeysDiffer` states that the two keys differ.

The module `CacheConsistency` joins the two halves. Suppose the cache holds what `GetAllTasks` returned. Then, after a confirmed create, update or delete, the patched cache equals what `GetAllTasks` would return next. For create this holds provided the clock has not gone backwards. All three describe the real server only when the user's `created_at` values are distinct: `Order("created_at")` fixes no order among ties, and the model breaks them by table position.

Database driver failures are the parameter `fault: Option<string>`. The clock GORM reads for `created_at`/`updated_at` is the parameter `now: int`. The outcome of an asynchronous call is a parameter of the callback that handles it.

`logout` calls `removeQueries(['tasks'])` only after `await logoutMutation.mutateAsync()` has resolved, so a rejected logout leaves the cache in place.

## Model

| member | source | states |
|---|---|---|
| TaskModel.ToResponse | go_api/usecase/task_usecase.go:63-68 | The response carries the task's id, title, created and updated time, and nothing else |
| Validation.Check | go_api/validator/task_validator.go:29-33 | A field passes exactly when every rule passes; otherwise it reports the message of the first failing rule |
| Validation.ValidateStruct | go_api/validator/user_validator.go:25-37 | Errors are reported only under the names of the validated fields |
| Validation.ValidateStructReports | go_api/validator/user_validator.go:25-37 | With distinct field names, a failing field is reported under its name with its first failing rule's message, and a passing field is absent |
| TaskValidator.TaskValidate | go_api/validator/task_validator.go:26-35 | A title passes exactly when it has 1 to 12 runes (12 included). An empty title gives "title is required"; more than 12 runes gives "limited max 12 char", both under "title" |
| TaskValidator.OnlyTitleInspected | go_api/validator/task_validator.go:28-34 | Tasks with the same title validate the same, whatever their id, owner or timestamps |
| UserValidator.EmailError | go_api/validator/user_validator.go:26-31 | An empty email is "email is required"; more than 30 runes is "limited max 30 char"; a malformed one is "is not valida email format"; no error exactly when it is non-empty, at most 30 runes and well-formed |
| UserValidator.PasswordError | go_api/validator/user_validator.go:32-35 | An empty password is "password is required"; 1-5 or more than 30 runes is "limited min 6 max 30 char"; no error exactly for 6 to 30 runes |
| UserValidator.UserValidate | go_api/validator/user_validator.go:23-38 | Email and password are judged independently, each under its own key with its own message, and no other key is reported |
| UserValidator.UserValidateAccepts | go_api/validator/user_validator.go:23-38 | A user passes exactly when the email is non-empty, at most 30 runes and well-formed and the password has 6 to 30 runes |
| UserValidator.NameNotInspected | go_api/validator/user_validator.go:25-37 | Users with the same email and password validate the same, whatever their other fields |
| TaskRepository.SortByCreated | go_api/repository/task_repository.go:37 | The ORDER BY result is ordered by created_at and is a permutation of its input |
| TaskRepository.InsertSorted | go_api/repository/task_repository.go:37 | Inserting a row into a list ordered by created_at keeps it ordered |
| TaskRepository.InsertPermutes | go_api/repository/task_repository.go:37 | Inserting adds exactly the inserted row |
| TaskRepository.Owned | go_api/repository/task_repository.go:37 | The selection holds rows of the table belonging to the user, and every such row |
| TaskRepository.OwnedSorted | go_api/repository/task_repository.go:37 | The GetAllTasks answer is the user's rows, as many as there are, ordered by created_at |
| TaskRepository.OwnedSortedMembers | go_api/repository/task_repository.go:37 | A row is in the answer exactly when it is in the table and belongs to the user |
| TaskRepository.Lookup | go_api/repository/task_repository.go:47 | A found row is in the table with that id and that owner; none is found exactly when no such row exists |
| TaskRepository.FilterKeepsUniqueIds | go_api/repository/task_repository.go:80 | Deleting rows keeps the primary key unique |
| TaskRepository.Retitled | go_api/repository/task_repository.go:66 | The UPDATE changes title and updated_at of the matched rows only; every other row and every other field stay as they were |
| TaskRepository.UpdateTargetIsLookup | go_api/repository/task_repository.go:66 | With a unique primary key, the only row the UPDATE matches is the one with that id and owner |
| TaskRepository.Matches | go_api/repository/task_repository.go:66-74 | The UPDATE affects a row exactly when some row of the table is its target |
| TaskRepository.Deleted | go_api/repository/task_repository.go:80 | The rows left are rows of the table other than the (id, owner) match, and every such row is left |
| TaskRepository.DeletedRemovesTarget | go_api/repository/task_repository.go:80 | After DELETE, a row remains exactly when it is not the (id, owner) match; a present match makes the table one row shorter |
| TaskRepository.Repository.constructor | go_api/repository/task_repository.go:30-32 | A repository wraps any table with unique positive ids below the next id to assign, and keeps it as it is |
| TaskRepository.Repository.GetAllTasks | go_api/repository/task_repository.go:36-41 | A driver error is returned as is; otherwise the answer is exactly the user's rows, ordered by created_at |
| TaskRepository.Repository.GetTaskById | go_api/repository/task_repository.go:44-51 | Success exactly when a row with that id belongs to the user, and that row is returned; otherwise "record not found" and the zero task |
| TaskRepository.Repository.CreateTask | go_api/repository/task_repository.go:54-59 | On success exactly one row is appended, with a fresh id and created and updated time `now`, and it is written back to the caller; a driver error leaves the table as it was |
| TaskRepository.Repository.UpdateTask | go_api/repository/task_repository.go:64-76 | When (id, owner) and the model's own id match, only that row is retitled and returned; otherwise "object does not exist" and the table is unchanged |
| TaskRepository.Repository.DeleteTask | go_api/repository/task_repository.go:79-88 | When (id, owner) matches, only that row is removed; otherwise "object does not exist" and the table is unchanged |
| TaskUsecase.TaskList | go_api/usecase/task_usecase.go:41-54 | The response list has as many entries as the user has rows and is ordered by created_at |
| TaskUsecase.TaskListMembers | go_api/usecase/task_usecase.go:41-54 | Every row of the user is projected into the list, and each entry is the projection of such a row |
| TaskUsecase.Project | go_api/usecase/task_usecase.go:41-52 | The loop yields the projection of every repository task, in the same order |
| TaskUsecase.Usecase.constructor | go_api/usecase/task_usecase.go:27-30 | The use case holds the repository it is given |
| TaskUsecase.Usecase.GetAllTasks | go_api/usecase/task_usecase.go:33-55 | A repository error is passed on; otherwise the answer is the user's rows, ordered, projected |
| TaskUsecase.Usecase.GetTaskById | go_api/usecase/task_usecase.go:58-70 | Success exactly when the user owns a task with that id, answered by its projection; otherwise the repository's error with the zero response |
| TaskUsecase.Usecase.CreateTask | go_api/usecase/task_usecase.go:73-90 | An invalid title returns the validation errors and leaves the repository untouched; a driver error returns the zero response; otherwise exactly one row is added and projected |
| TaskUsecase.Usecase.UpdateTask | go_api/usecase/task_usecase.go:92-110 | Validation runs first and an invalid title leaves the table unchanged; then the repository's outcome is returned, with the retitled row projected |
| TaskUsecase.Usecase.DeleteTask | go_api/usecase/task_usecase.go:112-117 | The repository's error is returned as it is, or none when the row was removed |
| Store.Apply | frontend/src/store/index.ts:24-29 | An update makes the draft exactly the payload; a reset makes it `{id: 0, title: ""}` |
| Store.Replay | frontend/src/store/index.ts:24-29 | No action leaves the draft as it was; after any non-empty run of actions the draft is fixed by the last action alone |
| Store.ResetIdempotent | frontend/src/store/index.ts:29 | Resetting twice is resetting once, and both give the initial draft |
| Store.DraftStore.constructor | frontend/src/store/index.ts:22 | The store starts at `{id: 0, title: ""}` |
| Store.DraftStore.UpdateEditedTask | frontend/src/store/index.ts:24-27 | The draft becomes the payload |
| Store.DraftStore.ResetEditedTask | frontend/src/store/index.ts:29 | The draft becomes `{id: 0, title: ""}` |
| ErrorHandling.SwitchErrorHandling | frontend/src/hooks/useError.ts:22-53 | A known message shows its fixed alert and any other message is alerted verbatim with no other effect; only "invalid csrf token" refetches the token; only the two JWT messages reset the draft, and exactly they navigate to `/` |
| ErrorHandling.RecordNotFoundOnlyAlerts | frontend/src/hooks/useError.ts:47-49 | "record not found" only alerts "email is not correct" |
| ErrorHandling.CsrfHeaderKeysDiffer | frontend/src/hooks/useError.ts:18 | The refetch writes a header key other than the one start-up writes |
| ErrorHandling.Page.constructor | frontend/src/hooks/useError.ts:7-8 | A page starts with no alerts and no pending token fetch |
| ErrorHandling.Page.HandleError | frontend/src/hooks/useError.ts:22-53 | Exactly one alert is appended; draft, location and pending token fetches change as the effect says, and headers do not |
| ErrorHandling.Page.CsrfFetchSettled | frontend/src/hooks/useError.ts:14-19 | A fetched token is written under `X=CSRF-TOKEN` and nothing else changes; a failed fetch writes nothing |
| TaskCache.MutationRequest | frontend/src/hooks/useMutateTask.ts:17-82 | Create posts to `/tasks`, update puts to `/tasks/{id}`, delete sends DELETE `/tasks/{id}` with no body; every body holds the title alone |
| TaskCache.ReplaceById | frontend/src/hooks/useMutateTask.ts:60-62 | Same length and order; an entry with the id becomes the response, every other entry is untouched |
| TaskCache.RemoveById | frontend/src/hooks/useMutateTask.ts:90 | The filtered list is no longer than the original |
| TaskCache.RemoveByIdMembers | frontend/src/hooks/useMutateTask.ts:90 | An entry remains exactly when it was there and has another id |
| TaskCache.RemoveByIdKeepsOrder | frontend/src/hooks/useMutateTask.ts:90 | Filtering distributes over concatenation, so the survivors keep their relative order |
| TaskCache.RemoveAbsentId | frontend/src/hooks/useMutateTask.ts:90 | Deleting an id that is not cached leaves the list as it was |
| TaskCache.RemovePresentId | frontend/src/hooks/useMutateTask.ts:86-91 | With unique ids, deleting a cached id shortens the list by exactly one |
| TaskCache.ErrorMessage | frontend/src/hooks/useMutateTask.ts:32-38 | A string is passed as it is, a non-empty `message` is passed, otherwise the object's string form; a known message reaches the handler only when the server sent exactly it |
| TaskCache.MessagelessErrorAlertsOnly | frontend/src/hooks/useMutateTask.ts:32-38 | An error object without a usable message only raises the default alert |
| TaskCache.QueryCache.constructor | frontend/src/hooks/useMutateTask.ts:9 | The cache entry starts as given |
| TaskCache.QueryCache.OnCreateSuccess | frontend/src/hooks/useMutateTask.ts:22-30 | A present list gets the response appended and grows by one; an absent one stays absent; the draft is reset either way |
| TaskCache.QueryCache.OnUpdateSuccess | frontend/src/hooks/useMutateTask.ts:51-66 | A present list has the submitted id replaced by the response; the draft is reset either way |
| TaskCache.QueryCache.OnDeleteSuccess | frontend/src/hooks/useMutateTask.ts:85-94 | A present list loses the deleted id; the draft is reset either way |
| TaskCache.QueryCache.OnError | frontend/src/hooks/useMutateTask.ts:32-38 | The cache and headers are untouched; one alert, draft reset, navigation and token refetch follow the handler's effect for `data.message` when truthy, otherwise `data` |
| Todo.SubmitTaskHandler | frontend/src/components/Todo.tsx:25-36 | Exactly one mutation per submit: create with the title alone when the id is 0, otherwise update with the whole draft |
| Todo.SubmitRequest | frontend/src/components/Todo.tsx:28-35 | A submit sends POST `/tasks` for id 0 and PUT `/tasks/{id}` otherwise, with the title as the only body field |
| Todo.SubmitDisabled | frontend/src/components/Todo.tsx:64 | Submit is disabled exactly when the server's validator would answer "title is required" |
| Todo.ButtonLabel | frontend/src/components/Todo.tsx:66 | The button says "Create" exactly when a submit creates and "Update" exactly when it updates |
| Todo.InitialDraftCannotSubmit | frontend/src/components/Todo.tsx:64 | The initial draft has its submit disabled and its button labelled "Create" |
| Todo.OnTitleInput | frontend/src/components/Todo.tsx:59 | Typing replaces the draft's title and keeps its id |
| Todo.Logout | frontend/src/components/Todo.tsx:39-42 | The `['tasks']` entry is removed only when the logout call succeeds |
| CacheConsistency.SortThenFilter | go_api/repository/task_repository.go:37 | Sorting by created_at commutes with a WHERE selection |
| CacheConsistency.SortThenMap | go_api/repository/task_repository.go:66 | Sorting by created_at commutes with an UPDATE that keeps created_at |
| CacheConsistency.SortAppendLatest | go_api/repository/task_repository.go:37 | A row created no earlier than all others sorts last |
| CacheConsistency.CreateKeepsCacheInStep | frontend/src/hooks/useMutateTask.ts:26 | With a clock that has not gone backwards, the server's list after a create is the old list with the response appended |
| CacheConsistency.CreateLeavesOthers | go_api/repository/task_repository.go:55 | A create leaves every other user's list unchanged |
| CacheConsistency.UpdateKeepsCacheInStep | frontend/src/hooks/useMutateTask.ts:58-63 | The server's list after an update is the old list with the entry of that id replaced by the response |
| CacheConsistency.DeleteKeepsCacheInStep | frontend/src/hooks/useMutateTask.ts:88-91 | The server's list after a delete is the old list with that id filtered out |

## Left out

- HTTP plumbing is not modelled: controllers, router and middleware (CORS, CSRF, JWT), `main.go`, the database connection and migrations. The use case's callers are its method parameters.
- `user_usecase.go` is not modelled, because bcrypt hashing and JWT signing are foreign libraries. Only the user validator it calls is modelled.
- `is.Email` is the parameter `isEmail`, an uninterpreted predicate; its regular expression is not modelled.
- go_api/model/task.go is not part of this model. The fields of `Task` and `TaskResponse` are the ones the use case copies.
- TaskRepository.Repository.CreateTask: GORM keeps a caller-supplied non-zero `ID`, `CreatedAt` or `UpdatedAt` on insert. The model always assigns a fresh id and stamps both times with `now`, as it happens when the controller's task carries zero values.
- `Joins("User")`, `clause.Returning`, the SQL GORM generates and a possible soft-delete column are not modelled. Only the WHERE clauses decide which rows are read, updated or deleted.
- Rows with equal `created_at` are ordered by their table position, because the database does not fix that order. The CacheConsistency theorems therefore speak for the real server only when the user's `created_at` values are distinct.
- Timestamps are opaque integers: no clock, time zone or time arithmetic.
- CacheConsistency.CreateKeepsCacheInStep requires every stored `created_at` to be no later than the new row's. A clock that goes backwards lets the server sort the new task before others while the cache appends it last.
- Async ordering and races are not modelled, for example a mutation that resolves after logout removed the cache. Each callback is one atomic step.
- A failed request without a response (a network error, where `err.response` is undefined and the handler itself throws) is not modelled. An error `message` that is not a string is not modelled either.
- The other effects of the logout mutation (`useMutateAuth.ts`), the queries (`useQueryTasks.ts`), rendering and routing are not modelled.
- `App.tsx` is not modelled, except the header key its CSRF start-up writes.
- The text of an `alert` is recorded in a list, and a navigation sets the page location; the browser's display of them is not modelled.
- Integer widths (Go's `uint`, JavaScript's number) are unbounded integers. Ids never approach those bounds in the modelled operations.
