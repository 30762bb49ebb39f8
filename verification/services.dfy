/**
 * The command-line variant's ProjectService and TaskService: each operation
 * validates its arguments against the store and only then changes it, raising
 * (here: returning `Err`) on the first rule that fails.
 */
module Services {
  import opened Common
  import opened Models
  import Storage

  /** The two caps read from the environment; 10 and 50 when it sets neither. */
  datatype Config = Config(maxProjects: int, maxTasksPerProject: int)

  const MaxNameLength := 30
  const MaxTitleLength := 30
  const MaxDescriptionLength := 150

  /** Python's `0 < len(s) <= max`. */
  predicate LengthIn(s: string, max: int) {
    0 < |s| <= max
  }

  /** One constructor per distinct `ValueError` message. */
  datatype CliError =
    | ProjectLimitReached
    | DuplicateProjectName
    | ProjectNameConflict
    | ProjectNameLength
    | ProjectDescriptionLength
    | ProjectNotFound
    | TaskLimitReached
    | TaskTitleLength
    | TaskDescriptionLength
    | DeadlineInPast
    | TaskNotFound

  /**
   * What a mutating operation returns and the store it leaves. The store is
   * carried on errors too, because `EditTask` can fail after changing a field.
   */
  datatype Outcome<+T> = Outcome(result: Result<T, CliError>, store: Storage.Store)

  // ---------------------------------------------------------------------------
  // The state the services keep

  ghost predicate NameHeld(s: Storage.Store, name: string) {
    exists id :: id in s.projects && s.projects[id].name == name
  }

  ghost predicate NameHeldByOther(s: Storage.Store, name: string, projectId: int) {
    exists id :: id in s.projects && s.projects[id].name == name && id != projectId
  }

  ghost predicate TasksReferenceProjects(s: Storage.Store) {
    forall id :: id in s.tasks ==> s.tasks[id].projectId in s.projects
  }

  ghost predicate NamesUnique(s: Storage.Store) {
    forall a, b :: a in s.projects && b in s.projects && a != b ==> s.projects[a].name != s.projects[b].name
  }

  ghost predicate FieldsInBounds(s: Storage.Store) {
    && (forall id :: id in s.projects ==>
          LengthIn(s.projects[id].name, MaxNameLength)
          && LengthIn(s.projects[id].description, MaxDescriptionLength))
    && (forall id :: id in s.tasks ==>
          LengthIn(s.tasks[id].title, MaxTitleLength)
          && LengthIn(s.tasks[id].description, MaxDescriptionLength))
  }

  ghost predicate WithinCaps(cfg: Config, s: Storage.Store) {
    && 0 <= cfg.maxTasksPerProject
    && |s.projects| <= cfg.maxProjects
    && (forall pid :: pid in s.projects ==> |Storage.TaskIdsOf(s, pid)| <= cfg.maxTasksPerProject)
  }

  /** Everything the services promise of the store between operations. */
  ghost predicate Inv(cfg: Config, s: Storage.Store) {
    && Storage.Valid(s)
    && TasksReferenceProjects(s)
    && NamesUnique(s)
    && FieldsInBounds(s)
    && WithinCaps(cfg, s)
  }

  // ---------------------------------------------------------------------------
  // ProjectService

  /** `create_project`: project cap, then name uniqueness, then name and description lengths. */
  function CreateProject(cfg: Config, s: Storage.Store, name: string, description: string): (r: Outcome<Project>)
    requires Storage.Valid(s)
    ensures r.result == Err(ProjectLimitReached) <==> |s.projects| >= cfg.maxProjects
    ensures r.result == Err(DuplicateProjectName) <==> |s.projects| < cfg.maxProjects && NameHeld(s, name)
    ensures r.result == Err(ProjectNameLength) <==>
      |s.projects| < cfg.maxProjects && !NameHeld(s, name) && !LengthIn(name, MaxNameLength)
    ensures r.result == Err(ProjectDescriptionLength) <==>
      |s.projects| < cfg.maxProjects && !NameHeld(s, name) && LengthIn(name, MaxNameLength)
      && !LengthIn(description, MaxDescriptionLength)
    ensures r.result.Ok? <==>
      |s.projects| < cfg.maxProjects && !NameHeld(s, name)
      && LengthIn(name, MaxNameLength) && LengthIn(description, MaxDescriptionLength)
    ensures r.result.Err? ==> r.store == s
    ensures r.result.Ok? ==>
      && r.result.value == Project(s.nextProjectId, name, description)
      && r.result.value.id !in s.projects
      && r.store.projects == s.projects[r.result.value.id := r.result.value]
      && r.store.tasks == s.tasks
      && r.store.nextProjectId == s.nextProjectId + 1 && r.store.nextTaskId == s.nextTaskId
  {
    var existing := Storage.GetAllProjects(s);
    if |existing| >= cfg.maxProjects then Outcome(Err(ProjectLimitReached), s)
    else if exists i :: 0 <= i < |existing| && existing[i].name == name then
      Outcome(Err(DuplicateProjectName), s)
    else if !LengthIn(name, MaxNameLength) then Outcome(Err(ProjectNameLength), s)
    else if !LengthIn(description, MaxDescriptionLength) then Outcome(Err(ProjectDescriptionLength), s)
    else
      var (created, s') := Storage.CreateProject(s, Project(0, name, description));
      Outcome(Ok(created), s')
  }

  /**
   * `edit_project`: every check runs before anything is assigned, so a failed
   * edit leaves the project as it was; a project may keep its own name.
   */
  function EditProject(s: Storage.Store, projectId: int, newName: string, newDescription: string): (r: Outcome<bool>)
    requires Storage.Valid(s)
    ensures r.result == Err(ProjectNotFound) <==> projectId !in s.projects
    ensures r.result == Err(ProjectNameConflict) <==>
      projectId in s.projects && NameHeldByOther(s, newName, projectId)
    ensures r.result == Err(ProjectNameLength) <==>
      projectId in s.projects && !NameHeldByOther(s, newName, projectId) && !LengthIn(newName, MaxNameLength)
    ensures r.result == Err(ProjectDescriptionLength) <==>
      projectId in s.projects && !NameHeldByOther(s, newName, projectId) && LengthIn(newName, MaxNameLength)
      && !LengthIn(newDescription, MaxDescriptionLength)
    ensures r.result.Ok? <==>
      projectId in s.projects && !NameHeldByOther(s, newName, projectId)
      && LengthIn(newName, MaxNameLength) && LengthIn(newDescription, MaxDescriptionLength)
    ensures r.result.Err? ==> r.store == s
    ensures r.result.Ok? ==>
      && r.result.value
      && r.store.projects == s.projects[projectId := Project(projectId, newName, newDescription)]
      && r.store.tasks == s.tasks
      && r.store.nextProjectId == s.nextProjectId && r.store.nextTaskId == s.nextTaskId
  {
    match Storage.GetProjectById(s, projectId)
    case None => Outcome(Err(ProjectNotFound), s)
    case Some(project) =>
      var existing := Storage.GetAllProjects(s);
      if exists i :: 0 <= i < |existing| && existing[i].name == newName && existing[i].id != projectId then
        Outcome(Err(ProjectNameConflict), s)
      else if !LengthIn(newName, MaxNameLength) then Outcome(Err(ProjectNameLength), s)
      else if !LengthIn(newDescription, MaxDescriptionLength) then Outcome(Err(ProjectDescriptionLength), s)
      else
        var (ok, s') := Storage.UpdateProject(s, project.(name := newName, description := newDescription));
        Outcome(Ok(ok), s')
  }

  /** `delete_project`: not-found, or the store's cascade delete. */
  function DeleteProject(s: Storage.Store, projectId: int): (r: Outcome<bool>)
    ensures r.result == Err(ProjectNotFound) <==> projectId !in s.projects
    ensures r.result.Ok? <==> projectId in s.projects
    ensures r.result.Err? ==> r.store == s
    ensures r.result.Ok? ==>
      && r.result.value
      && r.store.projects.Keys == s.projects.Keys - {projectId}
      && (forall id :: id in r.store.projects ==> r.store.projects[id] == s.projects[id])
      && (forall id :: id in r.store.tasks <==> id in s.tasks && s.tasks[id].projectId != projectId)
      && (forall id :: id in r.store.tasks ==> r.store.tasks[id] == s.tasks[id])
      && r.store.nextProjectId == s.nextProjectId && r.store.nextTaskId == s.nextTaskId
  {
    match Storage.GetProjectById(s, projectId)
    case None => Outcome(Err(ProjectNotFound), s)
    case Some(_) =>
      var (ok, s') := Storage.DeleteProject(s, projectId);
      Outcome(Ok(ok), s')
  }

  /** `get_project_by_id`: the stored project, or not-found. */
  function GetProjectById(s: Storage.Store, projectId: int): (r: Result<Project, CliError>)
    ensures r.Err? <==> projectId !in s.projects
    ensures r.Err? ==> r.error == ProjectNotFound
    ensures r.Ok? ==> r.value == s.projects[projectId]
  {
    match Storage.GetProjectById(s, projectId)
    case None => Err(ProjectNotFound)
    case Some(p) => Ok(p)
  }

  // ---------------------------------------------------------------------------
  // TaskService

  /**
   * `create_task`: the project must exist and have room; title, description and
   * deadline are checked in that order; the new task starts as TODO.
   */
  function CreateTask(cfg: Config, s: Storage.Store, projectId: int, title: string, description: string,
                      deadline: Option<int>, now: int): (r: Outcome<Task>)
    requires Storage.Valid(s)
    ensures r.result == Err(ProjectNotFound) <==> projectId !in s.projects
    ensures r.result == Err(TaskLimitReached) <==>
      projectId in s.projects && |Storage.TaskIdsOf(s, projectId)| >= cfg.maxTasksPerProject
    ensures r.result == Err(TaskTitleLength) <==>
      projectId in s.projects && |Storage.TaskIdsOf(s, projectId)| < cfg.maxTasksPerProject
      && !LengthIn(title, MaxTitleLength)
    ensures r.result == Err(TaskDescriptionLength) <==>
      projectId in s.projects && |Storage.TaskIdsOf(s, projectId)| < cfg.maxTasksPerProject
      && LengthIn(title, MaxTitleLength) && !LengthIn(description, MaxDescriptionLength)
    ensures r.result == Err(DeadlineInPast) <==>
      projectId in s.projects && |Storage.TaskIdsOf(s, projectId)| < cfg.maxTasksPerProject
      && LengthIn(title, MaxTitleLength) && LengthIn(description, MaxDescriptionLength)
      && deadline.Some? && deadline.value < now
    ensures r.result.Ok? <==>
      projectId in s.projects && |Storage.TaskIdsOf(s, projectId)| < cfg.maxTasksPerProject
      && LengthIn(title, MaxTitleLength) && LengthIn(description, MaxDescriptionLength)
      && !(deadline.Some? && deadline.value < now)
    ensures r.result.Err? ==> r.store == s
    ensures r.result.Ok? ==>
      && r.result.value == Task(s.nextTaskId, projectId, title, description, Todo, deadline)
      && r.result.value.id !in s.tasks
      && r.store.tasks == s.tasks[r.result.value.id := r.result.value]
      && r.store.projects == s.projects
      && r.store.nextTaskId == s.nextTaskId + 1 && r.store.nextProjectId == s.nextProjectId
  {
    match Storage.GetProjectById(s, projectId)
    case None => Outcome(Err(ProjectNotFound), s)
    case Some(_) =>
      if |Storage.GetTasksByProjectId(s, projectId)| >= cfg.maxTasksPerProject then Outcome(Err(TaskLimitReached), s)
      else if !LengthIn(title, MaxTitleLength) then Outcome(Err(TaskTitleLength), s)
      else if !LengthIn(description, MaxDescriptionLength) then Outcome(Err(TaskDescriptionLength), s)
      else if deadline.Some? && deadline.value < now then Outcome(Err(DeadlineInPast), s)
      else
        var (created, s') := Storage.CreateTask(s, Task(0, projectId, title, description, Todo, deadline));
        Outcome(Ok(created), s')
  }

  /** `change_task_status`: not-found, or only that task's status changes. */
  function ChangeTaskStatus(s: Storage.Store, taskId: int, newStatus: TaskStatus): (r: Outcome<bool>)
    requires Storage.Valid(s)
    ensures r.result == Err(TaskNotFound) <==> taskId !in s.tasks
    ensures r.result.Ok? <==> taskId in s.tasks
    ensures r.result.Err? ==> r.store == s
    ensures r.result.Ok? ==>
      && r.result.value
      && r.store.tasks == s.tasks[taskId := s.tasks[taskId].(status := newStatus)]
      && r.store.projects == s.projects
      && r.store.nextProjectId == s.nextProjectId && r.store.nextTaskId == s.nextTaskId
  {
    match Storage.GetTaskById(s, taskId)
    case None => Outcome(Err(TaskNotFound), s)
    case Some(task) =>
      var (ok, s') := Storage.UpdateTask(s, task.(status := newStatus));
      Outcome(Ok(ok), s')
  }

  /** The task with every given field replaced. */
  function EditFields(t: Task, newTitle: Option<string>, newDescription: Option<string>,
                      newStatus: Option<TaskStatus>, newDeadline: Option<int>): (r: Task)
    ensures r.id == t.id && r.projectId == t.projectId
    ensures r.title == (if newTitle.Some? then newTitle.value else t.title)
    ensures r.description == (if newDescription.Some? then newDescription.value else t.description)
    ensures r.status == (if newStatus.Some? then newStatus.value else t.status)
    ensures r.deadline == (if newDeadline.Some? then newDeadline else t.deadline)
  {
    var t1 := if newTitle.Some? then t.(title := newTitle.value) else t;
    var t2 := if newDescription.Some? then t1.(description := newDescription.value) else t1;
    var t3 := if newStatus.Some? then t2.(status := newStatus.value) else t2;
    if newDeadline.Some? then t3.(deadline := newDeadline) else t3
  }

  /** The store with the task under `taskId` replaced: an assignment to a field of the stored object. */
  function Assign(s: Storage.Store, taskId: int, t: Task): (s': Storage.Store) {
    s.(tasks := s.tasks[taskId := t])
  }

  /** Every check of `edit_task` passes: the task exists and each given field is acceptable. */
  predicate EditAccepted(s: Storage.Store, taskId: int, newTitle: Option<string>, newDescription: Option<string>,
                         newDeadline: Option<int>, now: int) {
    && taskId in s.tasks
    && (newTitle.Some? ==> LengthIn(newTitle.value, MaxTitleLength))
    && (newDescription.Some? ==> LengthIn(newDescription.value, MaxDescriptionLength))
    && (newDeadline.Some? ==> now <= newDeadline.value)
  }

  /**
   * `edit_task` as written: the stored task object is changed field by field,
   * each field as soon as its own check passes, so a later failure leaves the
   * earlier fields already changed.
   */
  function EditTask(s: Storage.Store, taskId: int, newTitle: Option<string>, newDescription: Option<string>,
                    newStatus: Option<TaskStatus>, newDeadline: Option<int>, now: int): (r: Outcome<bool>)
    requires Storage.Valid(s)
    ensures r.result == Err(TaskNotFound) <==> taskId !in s.tasks
    ensures r.result == Err(TaskTitleLength) <==>
      taskId in s.tasks && newTitle.Some? && !LengthIn(newTitle.value, MaxTitleLength)
    ensures r.result == Err(TaskDescriptionLength) <==>
      taskId in s.tasks && !(newTitle.Some? && !LengthIn(newTitle.value, MaxTitleLength))
      && newDescription.Some? && !LengthIn(newDescription.value, MaxDescriptionLength)
    ensures r.result == Err(DeadlineInPast) <==>
      taskId in s.tasks && !(newTitle.Some? && !LengthIn(newTitle.value, MaxTitleLength))
      && !(newDescription.Some? && !LengthIn(newDescription.value, MaxDescriptionLength))
      && newDeadline.Some? && newDeadline.value < now
    ensures r.result.Ok? <==> EditAccepted(s, taskId, newTitle, newDescription, newDeadline, now)
    ensures r.result.Ok? ==> r.result.value
    ensures r.store.projects == s.projects
    ensures r.store.nextProjectId == s.nextProjectId && r.store.nextTaskId == s.nextTaskId
    ensures r.result == Err(TaskNotFound) || r.result == Err(TaskTitleLength) ==> r.store == s
    ensures r.result == Err(TaskDescriptionLength) ==>
      r.store.tasks == s.tasks[taskId := EditFields(s.tasks[taskId], newTitle, None, None, None)]
    ensures r.result == Err(DeadlineInPast) ==>
      r.store.tasks == s.tasks[taskId := EditFields(s.tasks[taskId], newTitle, newDescription, newStatus, None)]
    ensures r.result.Ok? ==>
      r.store.tasks == s.tasks[taskId := EditFields(s.tasks[taskId], newTitle, newDescription, newStatus, newDeadline)]
  {
    match Storage.GetTaskById(s, taskId)
    case None => Outcome(Err(TaskNotFound), s)
    case Some(task) =>
      if newTitle.Some? && !LengthIn(newTitle.value, MaxTitleLength) then Outcome(Err(TaskTitleLength), s)
      else
        var t1 := EditFields(task, newTitle, None, None, None);
        var s1 := Assign(s, taskId, t1);
        if newDescription.Some? && !LengthIn(newDescription.value, MaxDescriptionLength) then
          Outcome(Err(TaskDescriptionLength), s1)
        else
          var t2 := EditFields(t1, None, newDescription, None, None);
          var s2 := Assign(s1, taskId, t2);
          var t3 := EditFields(t2, None, None, newStatus, None);
          var s3 := Assign(s2, taskId, t3);
          if newDeadline.Some? && newDeadline.value < now then Outcome(Err(DeadlineInPast), s3)
          else
            var t4 := EditFields(t3, None, None, None, newDeadline);
            var s4 := Assign(s3, taskId, t4);
            var (ok, s5) := Storage.UpdateTask(s4, t4);
            Outcome(Ok(ok), s5)
  }

  /**
   * `edit_task` as its own error handling evidently intends, and as
   * `edit_project` is written: every check first, then the one update.
   */
  function EditTaskAtomic(s: Storage.Store, taskId: int, newTitle: Option<string>, newDescription: Option<string>,
                          newStatus: Option<TaskStatus>, newDeadline: Option<int>, now: int): (r: Outcome<bool>)
    requires Storage.Valid(s)
    ensures r.result == Err(TaskNotFound) <==> taskId !in s.tasks
    ensures r.result == Err(TaskTitleLength) <==>
      taskId in s.tasks && newTitle.Some? && !LengthIn(newTitle.value, MaxTitleLength)
    ensures r.result == Err(TaskDescriptionLength) <==>
      taskId in s.tasks && !(newTitle.Some? && !LengthIn(newTitle.value, MaxTitleLength))
      && newDescription.Some? && !LengthIn(newDescription.value, MaxDescriptionLength)
    ensures r.result == Err(DeadlineInPast) <==>
      taskId in s.tasks && !(newTitle.Some? && !LengthIn(newTitle.value, MaxTitleLength))
      && !(newDescription.Some? && !LengthIn(newDescription.value, MaxDescriptionLength))
      && newDeadline.Some? && newDeadline.value < now
    ensures r.result.Ok? <==> EditAccepted(s, taskId, newTitle, newDescription, newDeadline, now)
    ensures r.result.Err? ==> r.store == s
    ensures r.result.Ok? ==>
      && r.result.value
      && r.store.tasks == s.tasks[taskId := EditFields(s.tasks[taskId], newTitle, newDescription, newStatus, newDeadline)]
      && r.store.projects == s.projects
      && r.store.nextProjectId == s.nextProjectId && r.store.nextTaskId == s.nextTaskId
  {
    match Storage.GetTaskById(s, taskId)
    case None => Outcome(Err(TaskNotFound), s)
    case Some(task) =>
      if newTitle.Some? && !LengthIn(newTitle.value, MaxTitleLength) then Outcome(Err(TaskTitleLength), s)
      else if newDescription.Some? && !LengthIn(newDescription.value, MaxDescriptionLength) then
        Outcome(Err(TaskDescriptionLength), s)
      else if newDeadline.Some? && newDeadline.value < now then Outcome(Err(DeadlineInPast), s)
      else
        var (ok, s') := Storage.UpdateTask(s, EditFields(task, newTitle, newDescription, newStatus, newDeadline));
        Outcome(Ok(ok), s')
  }

  /** `delete_task`: not-found, or exactly that task disappears. */
  function DeleteTask(s: Storage.Store, taskId: int): (r: Outcome<bool>)
    ensures r.result == Err(TaskNotFound) <==> taskId !in s.tasks
    ensures r.result.Ok? <==> taskId in s.tasks
    ensures r.result.Err? ==> r.store == s
    ensures r.result.Ok? ==>
      && r.result.value
      && r.store.tasks.Keys == s.tasks.Keys - {taskId}
      && (forall id :: id in r.store.tasks ==> r.store.tasks[id] == s.tasks[id])
      && r.store.projects == s.projects
      && r.store.nextProjectId == s.nextProjectId && r.store.nextTaskId == s.nextTaskId
  {
    match Storage.GetTaskById(s, taskId)
    case None => Outcome(Err(TaskNotFound), s)
    case Some(_) =>
      var (ok, s') := Storage.DeleteTask(s, taskId);
      Outcome(Ok(ok), s')
  }

  /** `get_task_by_id`: the stored task, or not-found. */
  function GetTaskById(s: Storage.Store, taskId: int): (r: Result<Task, CliError>)
    ensures r.Err? <==> taskId !in s.tasks
    ensures r.Err? ==> r.error == TaskNotFound
    ensures r.Ok? ==> r.value == s.tasks[taskId]
  {
    match Storage.GetTaskById(s, taskId)
    case None => Err(TaskNotFound)
    case Some(t) => Ok(t)
  }

  /** `get_tasks_by_project_id`: not-found for a missing project, else exactly its tasks. */
  function GetTasksByProjectId(s: Storage.Store, projectId: int): (r: Result<seq<Task>, CliError>)
    requires Storage.Valid(s)
    ensures r.Err? <==> projectId !in s.projects
    ensures r.Err? ==> r.error == ProjectNotFound
    ensures r.Ok? ==> |r.value| == |Storage.TaskIdsOf(s, projectId)|
    ensures r.Ok? ==> forall t :: t in r.value <==> t in s.tasks.Values && t.projectId == projectId
  {
    match Storage.GetProjectById(s, projectId)
    case None => Err(ProjectNotFound)
    case Some(_) =>
      var ts := Storage.GetTasksByProjectId(s, projectId);
      assert forall t :: t in s.tasks.Values && t.projectId == projectId ==> t in ts by {
        forall t | t in s.tasks.Values && t.projectId == projectId ensures t in ts {
          var id :| id in s.tasks && s.tasks[id] == t;
          assert id in Storage.TaskIdsOf(s, projectId);
        }
      }
      Ok(ts)
  }
}
