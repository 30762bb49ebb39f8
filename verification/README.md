# To-do tracker core, modelled in Dafny

The repository is a small to-do application in two variants. The interactive
command-line variant keeps projects and tasks in a dictionary-backed store and
checks each change in two service classes. The web variant checks requests in
two services over a repository and runs a periodic job that closes overdue
tasks. This project models the parts of both variants that decide behaviour.
It models them as pure functions over immutable state: every operation returns
its result (an `Ok` value or the error the Python code raises) together with
the state it leaves behind.

| file | module | models |
|---|---|---|
| `common.dfy` | `Common` | `Option` for Python's `None`, `Result` for raise-or-return |
| `text.dfy` | `Text` | `str.strip()`, with white space exactly as `str.isspace()` defines it |
| `models.dfy` | `Models` | `TaskStatus`, `Project`, `Task` (`todo_cli/core/models.py`) |
| `storage.dfy` | `Storage` | the in-memory store: two maps, two id counters, cascade delete |
| `services.dfy` | `Services` | the command-line `ProjectService` and `TaskService` |
| `service_invariants.dfy` | `ServiceInvariants` | the global invariant those services keep, and the `edit_task` finding |
| `cli.dfy` | `Cli` | the menu's input validators, task selection, the selected-project bookkeeping |
| `repository.dfy` | `Repository` | the web variant's rows, status enumeration and the repository calls the services make |
| `autoclose.dfy` | `Autoclose` | one run of the overdue-task job |
| `api_services.dfy` | `ApiProjectService`, `ApiTaskService` | the web variant's services |
| `web_invariants.dfy` | `WebInvariants` | the invariant the web services keep over any sequence of requests |

Modelling choices:

- Time stamps are integers. The clock reading `now` is a parameter.
- The two caps, which the settings read from the environment with defaults 10
  and 50, are a `Config` parameter.
- Dictionary iteration order is ascending id, because keys are inserted in
  counter order and never re-inserted.
- Strings are sequences of Unicode code points, so `|s|` is Python's `len(s)`.
- In the overdue job, a task without a deadline is not overdue, since SQL's
  `NULL < now` is not true.
- The web project repository has no `get_by_name`, and the web task
  repository has no `list_overdue_open_tasks`, although the services and the
  job call them. The first is modelled as a lookup of a project with exactly
  that name (`Repository.GetByName`). The second is modelled from the job's
  own description: a deadline before `now` and a status other than DONE, in
  table order (`Autoclose.IsOverdueOpen`).
- The default database is SQLite, and both tables declare an integer primary
  key without SQLite's AUTOINCREMENT keyword. SQLite then gives a new row one
  more than the largest id in the table, or 1 in an empty table, so the id of
  a deleted newest row is handed out again. The model picks web ids the same
  way (`Repository.NextRowId`). The command-line store instead counts up and
  never reuses an id.
- The web services' status enumeration has the same three members as the
  command-line one, so both use `Models.TaskStatus`.
- The web `change_status` sets only the status column; `closed_at` is left as
  it was. Only the overdue job sets `closed_at`.
- Project names are bounded by 30 characters in the command-line variant and
  by 100 in the web variant.

## Model

| member | source | states |
|---|---|---|
| `Storage.CreateProject` | storage/in_memory_storage.py:9-13 | the new project's id is the current project counter, which is not yet a key and exceeds every stored id; it is stored under that id, the counter advances by one, tasks are untouched |
| `Storage.Init` | storage/in_memory_storage.py:3-7 | a new store holds no project and no task, and both counters start at 1 |
| `Storage.GetAllProjects` | storage/in_memory_storage.py:15-16 | lists every stored project exactly once, in ascending id order; its length is the number of projects |
| `Storage.GetProjectById` | storage/in_memory_storage.py:18-19 | `None` exactly when the id is not a key, otherwise the stored project |
| `Storage.UpdateProject` | storage/in_memory_storage.py:21-25 | false and no change when the id is absent; otherwise only that entry is replaced |
| `Storage.DeleteProject` | storage/in_memory_storage.py:27-35 | on a present id, removes the project and exactly the tasks whose project it is, and leaves every other task as it was; on an absent id, false and no change |
| `Storage.CreateTask` | storage/in_memory_storage.py:37-41 | the new task's id is the task counter, fresh and above every stored id; the counter advances; projects are untouched |
| `Storage.GetTasksByProjectId` | storage/in_memory_storage.py:43-44 | exactly the stored tasks of that project, in ascending id order, as many as the project has |
| `Storage.GetTaskById` | storage/in_memory_storage.py:46-47 | `None` exactly when the id is not a key, otherwise the stored task |
| `Storage.UpdateTask` | storage/in_memory_storage.py:49-53 | false and no change when the id is absent; otherwise only that entry is replaced |
| `Storage.DeleteTask` | storage/in_memory_storage.py:55-59 | removes exactly that key and keeps every other task; false and no change when absent |
| `Storage.IdsNeverReused` | storage/in_memory_storage.py:3-41 | over any sequence of creates, updates and deletes, the ids handed out are strictly increasing and at least the starting counters, so no id is handed out twice, even after deletions |
| `Services.CreateProject` | todo_cli/core/services.py:14-41 | rejects in order: project count at the cap, a name any project holds, name length outside 1..30, description outside 1..150; it succeeds exactly when all four checks pass, and the project then gets a fresh id, the project counter advances by one and the task counter stays; a failure changes nothing |
| `Services.EditProject` | todo_cli/core/services.py:43-70 | not-found for a missing id; rejects a name held by another project but allows its own; checks both lengths; it succeeds exactly when every check passes; a failure changes nothing; success changes only that project's name and description |
| `Services.DeleteProject` | todo_cli/core/services.py:72-87 | not-found exactly for a missing id, success exactly for a stored one; the project and its tasks go, and every other project and task keeps its value |
| `Services.GetProjectById` | todo_cli/core/services.py:98-111 | not-found exactly when the id is not stored, otherwise the stored project |
| `Services.CreateTask` | todo_cli/core/services.py:119-149 | rejects in order: missing project, project at its task cap, title outside 1..30, description outside 1..150, deadline before `now`; it succeeds exactly when all five checks pass; the new task is TODO with a fresh id, the task counter advances by one and the project counter stays; a failure changes nothing |
| `Services.ChangeTaskStatus` | todo_cli/core/services.py:151-171 | not-found exactly for a missing task, success exactly for a stored one; only that task's status changes |
| `Services.EditTask` | todo_cli/core/services.py:173-213 | not-found for a missing task; each given field is checked in order, and the edit succeeds exactly when every check passes; on a failed check the fields assigned before it stay changed in the store |
| `Services.EditTaskAtomic` | todo_cli/core/services.py:173-213 | the same checks, the same error for each input, success exactly when every check passes; every failure leaves the store unchanged; success replaces only the given fields of that task |
| `Services.DeleteTask` | todo_cli/core/services.py:215-230 | not-found exactly for a missing task, success exactly for a stored one; exactly that task is removed, and both id counters are kept |
| `Services.GetTaskById` | todo_cli/core/services.py:232-245 | not-found exactly when the task id is not stored |
| `Services.GetTasksByProjectId` | todo_cli/core/services.py:247-262 | not-found exactly for a missing project; otherwise exactly the stored tasks of that project |
| `ServiceInvariants.CreateProjectPreservesInv` | todo_cli/core/services.py:28-41 | creation keeps ids valid, names unique, every task's project stored, fields in bounds and the count within both caps |
| `ServiceInvariants.EditProjectPreservesInv` | todo_cli/core/services.py:55-70 | editing keeps names unique, because a name held by another project is refused |
| `ServiceInvariants.DeleteProjectPreservesInv` | todo_cli/core/services.py:82-87 | thanks to the cascade, no task is left referring to the deleted project |
| `ServiceInvariants.CreateTaskPreservesInv` | todo_cli/core/services.py:132-149 | a task is only created in an existing project that is below its cap, so the references and the per-project cap hold afterwards |
| `ServiceInvariants.ChangeTaskStatusPreservesInv` | todo_cli/core/services.py:162-171 | a status change keeps the invariant |
| `ServiceInvariants.EditTaskPreservesInv` | todo_cli/core/services.py:188-213 | even the partial edits a failed `edit_task` leaves behind keep the invariant, since each field is assigned only after its own check passes |
| `ServiceInvariants.EditTaskAtomicPreservesInv` | todo_cli/core/services.py:188-213 | the all-checks-first edit keeps the invariant |
| `ServiceInvariants.DeleteTaskPreservesInv` | todo_cli/core/services.py:226-230 | deleting a task keeps the invariant |
| `ServiceInvariants.Step` | todo_cli/core/services.py:14-230 | one call of any service operation, `edit_task` as written, keeps the invariant, and neither id counter goes down |
| `ServiceInvariants.RunCommands` | todo_cli/core/services.py:14-230 | after any sequence of service calls, with `edit_task` as written, the invariant still holds and neither id counter has gone down |
| `ServiceInvariants.CreatedIdsAreNew` | storage/in_memory_storage.py:9-41 | after any sequence of service calls, the next project or task created gets an id that no project or task had before those calls, deleted ones included |
| `ServiceInvariants.ReachableStoresSatisfyInv` | storage/in_memory_storage.py:3-7 | starting from the empty store, with non-negative caps, every store the services as written can reach satisfies the invariant |
| `ServiceInvariants.EditTaskFailureChangesTitle` | todo_cli/core/services.py:192-211 | a valid new title with a past deadline makes `edit_task` raise, yet the stored title has changed |
| `ServiceInvariants.EditTaskPartialExample` | todo_cli/core/services.py:192-211 | one concrete store and call on which that happens |
| `ServiceInvariants.EditTaskAtomicAgreesWithEditTask` | todo_cli/core/services.py:188-213 | the corrected edit raises the same error for every input and leaves the same store whenever the edit succeeds |
| `Cli.ValidateNotEmpty` | todo_cli/cli/main.py:86-90 | rejects exactly the empty string and otherwise returns its input unchanged |
| `Cli.ValidateLength` | todo_cli/cli/main.py:92-97 | accepts exactly lengths 1..max and returns the input unchanged; reports empty before too long |
| `Cli.PromptsMatchServiceBounds` | todo_cli/cli/main.py:157-167 | the creation prompts' 30 and 150 limits accept exactly what the services' length checks accept |
| `Cli.ReadField` | todo_cli/cli/main.py:70-79 | the typed line is stripped before validation; it is accepted exactly when its stripped length is 1..max, and refused as empty exactly when it is all white space |
| `Cli.EditField` | todo_cli/cli/main.py:239-249 | an edit prompt validates the stripped line when it is not empty |
| `Cli.EnterKeepsCurrent` | todo_cli/cli/main.py:437-447 | an empty or all-white-space line keeps a valid current value |
| `Cli.ValidateStatusChoice` | todo_cli/cli/main.py:516-520 | accepts exactly "1", "2" and "3" |
| `Cli.StatusMenuKey` | todo_cli/cli/main.py:511-514 | the key printed for each status is one the status prompt accepts, and it selects that status |
| `Cli.StatusChoiceRoundTrip` | todo_cli/cli/main.py:511-520 | each menu key maps to its status ("1" TODO, "2" DOING, "3" DONE), and an accepted key is that status's key |
| `Cli.ValidateProjectChoice` | todo_cli/cli/main.py:131-139 | accepts an id exactly when a project is stored under it |
| `Cli.ValidateTaskChoice` | todo_cli/cli/main.py:414-422 | accepts an id exactly when the task exists and belongs to the selected project |
| `Cli.DeleteProjectFromMenu` | todo_cli/cli/main.py:298-306 | a confirmed delete of a stored project removes it and clears the selection when it was the selected one; the selection changes in no other way; a selection that named a stored project still does |
| `Cli.OpenTaskMenu` | todo_cli/cli/main.py:46-56 | the task menu opens exactly when the selected project is stored; a dangling selection is cleared |
| `Repository.ParseStatus` | app/models/task.py:6-9 | accepts exactly "todo", "doing" and "done" |
| `Repository.StatusValue` | app/models/task.py:6-9 | the string each status is stored and sent as parses back to that status |
| `Repository.ParseStatusRoundTrip` | app/models/task.py:6-9 | parsing is the inverse of each member's value |
| `Repository.GetProject` | app/repositories/project_repository.py:16-17 | `None` exactly when no row has that id; otherwise the stored row, whose id column is the requested id |
| `Repository.GetByName` | app/services/project_service.py:22 | `None` exactly when no stored project has that name; otherwise a stored project with exactly that name, and the only one while names are unique |
| `Repository.NextRowId` | app/db/session.py:7 | the id a new row gets in the default SQLite database: not stored, above every stored id, one more than the largest, 1 in an empty table |
| `Repository.CreateProject` | app/repositories/project_repository.py:9-14 | a new row with the given name and description, under one more than the largest stored project id, or 1 in an empty table |
| `Repository.DeleteProject` | app/repositories/project_repository.py:22-26 | removes the row and, through the relationship's delete cascade, exactly that project's tasks; a missing id changes nothing |
| `Repository.GetTask` | app/repositories/task_repository.py:16-17 | `None` exactly when no row has that id; otherwise the stored row, whose id column is the requested id |
| `Repository.CreateTask` | app/repositories/task_repository.py:9-14 | a new row under one more than the largest stored task id, or 1 in an empty table, with status TODO and no `closed_at` |
| `Repository.ChangeStatus` | app/repositories/task_repository.py:22-29 | `None` and no change for a missing task; otherwise only the status column changes |
| `Repository.DeletedNewestIdIsReused` | app/repositories/project_repository.py:9-26 | creating projects 1 and 2, deleting 2 and creating again hands out id 2 a second time |
| `Autoclose.ListOverdueOpen` | app/commands/autoclose_overdue.py:7-13 | selects exactly the positions of tasks with a deadline before `now` and status other than DONE, in table order |
| `Autoclose.IsOverdueOpen` | app/commands/autoclose_overdue.py:7-9 | a task with no deadline is never overdue, nor is a DONE task; any other task is overdue exactly when its deadline is before `now` |
| `Autoclose.OverdueStaysOverdue` | app/commands/autoclose_overdue.py:7-9 | a task overdue and open at one time is so at every later time |
| `Autoclose.Close` | app/commands/autoclose_overdue.py:16-18 | a closed task is DONE with `closed_at = now`, keeps every other column, and is never overdue again |
| `Autoclose.CloseAt` | app/commands/autoclose_overdue.py:15-18 | the selected rows become DONE with `closed_at = now`, and the other rows are unchanged |
| `Autoclose.AutocloseOverdueTasks` | app/commands/autoclose_overdue.py:6-23 | every overdue open task ends DONE, closed at the same `now`, with other fields kept; other tasks are unchanged; it returns the number of overdue open tasks; it commits exactly when that number is positive |
| `Autoclose.RerunClosesNothing` | app/commands/autoclose_overdue.py:7-23 | a second run at the same `now` changes nothing, returns 0 and does not commit |
| `Text.Strip` | app/services/project_service.py:17 | the result has no white space at either end; it is a contiguous middle part of the input, and everything removed is white space |
| `Text.StripPadded` | app/services/project_service.py:17 | stripping white space added around a stripped string gives that string back |
| `Text.StripIdempotent` | app/services/task_service.py:19 | stripping twice equals stripping once |
| `ApiProjectService.CreateProject` | app/services/project_service.py:16-25 | the name is stripped and then needs length 1..100; only after that is a name already stored refused; it succeeds exactly when both checks pass, storing the stripped name and the description unchanged under a fresh id; failures change nothing |
| `ApiProjectService.PaddedNameIsRejected` | app/services/project_service.py:17-23 | a taken name with white space around it is refused as a duplicate |
| `ApiProjectService.GetProject` | app/services/project_service.py:27-31 | `ProjectNotFound` exactly for a missing id |
| `ApiProjectService.DeleteProject` | app/services/project_service.py:36-40 | `ProjectNotFound` and no change for a missing id; otherwise the project and its tasks are deleted, and every other project and task keeps its value |
| `ApiTaskService.AddTask` | app/services/task_service.py:18-27 | the title is stripped and then needs length 1..100; that check comes first; a missing project is a `ValidationError`, never `TaskNotFound`; it succeeds exactly when the title fits and the project is stored, creating a TODO task with the stripped title and the given description and deadline |
| `ApiTaskService.GetTask` | app/services/task_service.py:29-33 | `TaskNotFound` exactly when the repository has no such task |
| `ApiTaskService.ChangeStatus` | app/services/task_service.py:38-49 | any string other than "todo", "doing", "done" is a `ValidationError`, even for a missing task; otherwise `TaskNotFound` for a missing task; it succeeds exactly for a valid status on a stored task, and then only the status changes, to the parsed one |
| `WebInvariants.CreateProjectPreservesWebInv` | app/services/project_service.py:16-25 | a project create keeps ids valid, tasks attached to stored projects, names distinct and every stored name stripped |
| `WebInvariants.DeleteProjectPreservesWebInv` | app/services/project_service.py:36-40 | a project delete keeps the invariant, and no remaining task belongs to the deleted project |
| `WebInvariants.AddTaskPreservesWebInv` | app/services/task_service.py:18-27 | a task is only added to a stored project, so the invariant holds afterwards |
| `WebInvariants.ChangeStatusPreservesWebInv` | app/services/task_service.py:38-49 | a status change keeps the invariant |
| `WebInvariants.ServeAll` | app/services/project_service.py:16-40 | after any sequence of create, delete, add-task and change-status requests the invariant still holds |
| `WebInvariants.ReachableDbsSatisfyWebInv` | app/services/task_service.py:18-49 | every database reachable from an empty one through the services satisfies the invariant |

## Left out

- Menus, printing, the `input()` loops and `KeyboardInterrupt` handling of the command-line variant: these are I/O.
- `validate_date` (todo_cli/cli/main.py:99-113): it depends on `strptime`. Deadlines enter the model as integers.
- `int(choice)` parsing of typed ids: the selection validators take the parsed integer.
- The `created_at` stamps: they are wall-clock readings that nothing checks.
- `ProjectService.get_all_projects` (todo_cli/core/services.py:89-96): it only delegates to the store, whose listing is `Storage.GetAllProjects`.
- `TaskService.get_all_tasks` (todo_cli/core/services.py:264-272): it reads the store's task dictionary directly and returns its values in insertion order. No member models it; it only reads.
- The `isinstance(new_status, TaskStatus)` checks (todo_cli/core/services.py:167-168, 204-205): a status of type `TaskStatus` cannot fail them.
- `list_projects` and `list_tasks_by_project` of the web services: they only delegate to repository queries.
- The HTTP controllers, the ORM session, commits, migrations and the pydantic schemas: these are framework plumbing. The commit of the overdue job appears only as the `committed` flag.
- The database's own unique constraint on project names: the model relies on the service's check alone.
- The scheduler loop that runs the overdue job every ten minutes: a single run is modelled.
- Reading the caps from environment variables: the caps are a parameter.
- Object aliasing in general: records are values. The one place where aliasing changes behaviour, the field-by-field assignment in `edit_task`, is modelled explicitly.
- Python's falsy id 0 in `if not task_id` and similar checks: stored ids start at 1, so that case is never reached.
- Concurrency between the overdue job and API requests.
- Autoclose.AutocloseOverdueTasks: one `now` serves both as the cutoff of the overdue query and as the `closed_at` stamp. The job reads `datetime.utcnow()` for the stamp after the query has run, so the stamp can be slightly later than the cutoff. The model treats the two clock readings as one, because the clock is a parameter here.

## Findings

| source | as written | input that shows it | evidently intended | confidence | as-written member | corrected member |
|---|---|---|---|---|---|---|
| todo_cli/core/services.py:192-211 | each field of the stored task object is assigned as soon as its own check passes, so a later failed check raises after earlier fields have changed | task 1 titled "old"; `edit_task(1, new_title="new", new_deadline=5)` at time 10 raises "deadline in the past", yet the stored title is now "new" | run every check before assigning anything, as `edit_project` does, so that a raised error leaves the task unchanged | medium; not executed | `ServiceInvariants.EditTaskFailureChangesTitle` | `Services.EditTaskAtomic` |
