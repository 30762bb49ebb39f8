/**
 * The web variant's ProjectService: strip the name, bound its length, refuse a
 * name the repository already holds, and only then create.
 */
module ApiProjectService {
  import opened Common
  import opened Text
  import opened Repository

  const MaxNameLength := 100

  datatype ValidationReason = NameLength | NameExists

  /** This service's two exception classes. */
  datatype ProjectError = ValidationError(reason: ValidationReason) | ProjectNotFound

  /** `create_project`: the length check comes before the uniqueness check. */
  function CreateProject(db: Db, name: string, description: string): (r: (Result<ApiProject, ProjectError>, Db))
    ensures r.0 == Err(ValidationError(NameLength)) <==> !(1 <= |Strip(name)| <= MaxNameLength)
    ensures r.0 == Err(ValidationError(NameExists)) <==>
      1 <= |Strip(name)| <= MaxNameLength && NameTaken(db, Strip(name))
    ensures r.0.Ok? <==> 1 <= |Strip(name)| <= MaxNameLength && !NameTaken(db, Strip(name))
    ensures r.0.Err? ==> r.1 == db
    ensures r.0.Ok? ==>
      && r.0.value.name == Strip(name)
      && r.0.value.description == description
      && r.1.projects == db.projects[r.0.value.id := r.0.value]
      && r.1.tasks == db.tasks
    ensures Valid(db) ==> Valid(r.1)
    ensures r.0.Ok? ==> r.0.value.id !in db.projects
  {
    var stripped := Strip(name);
    if !(1 <= |stripped| <= MaxNameLength) then (Err(ValidationError(NameLength)), db)
    else if GetByName(db, stripped).Some? then (Err(ValidationError(NameExists)), db)
    else
      var (p, db') := Repository.CreateProject(db, stripped, description);
      (Ok(p), db')
  }

  /** White space around a name already taken does not get past the uniqueness check. */
  lemma {:induction false} PaddedNameIsRejected(db: Db, pad1: string, name: string, pad2: string, description: string)
    requires AllSpace(pad1) && AllSpace(pad2) && IsStripped(name)
    requires 1 <= |name| <= MaxNameLength && NameTaken(db, name)
    ensures CreateProject(db, pad1 + name + pad2, description).0 == Err(ValidationError(NameExists))
  {
    StripPadded(pad1, name, pad2);
  }

  /** `get_project`. */
  function GetProject(db: Db, projectId: int): (r: Result<ApiProject, ProjectError>)
    ensures r.Err? <==> projectId !in db.projects
    ensures r.Err? ==> r.error == ProjectNotFound
    ensures r.Ok? ==> r.value == db.projects[projectId]
  {
    match Repository.GetProject(db, projectId)
    case None => Err(ProjectNotFound)
    case Some(p) => Ok(p)
  }

  /** `delete_project`: not-found, or the repository's cascading delete. */
  function DeleteProject(db: Db, projectId: int): (r: (Result<(), ProjectError>, Db))
    ensures r.0.Err? <==> projectId !in db.projects
    ensures r.0.Err? ==> r.0.error == ProjectNotFound && r.1 == db
    ensures r.0.Ok? ==>
      && r.1.projects.Keys == db.projects.Keys - {projectId}
      && (forall k :: k in r.1.projects ==> r.1.projects[k] == db.projects[k])
      && (forall t :: t in r.1.tasks <==> t in db.tasks && db.tasks[t].projectId != projectId)
      && (forall t :: t in r.1.tasks ==> r.1.tasks[t] == db.tasks[t])
  {
    match Repository.GetProject(db, projectId)
    case None => (Err(ProjectNotFound), db)
    case Some(_) => (Ok(()), Repository.DeleteProject(db, projectId))
  }
}

/**
 * The web variant's TaskService: strip and bound the title before looking the
 * project up; parse the status before looking the task up.
 */
module ApiTaskService {
  import opened Common
  import opened Models
  import opened Text
  import opened Repository

  const MaxTitleLength := 100

  datatype ValidationReason = TitleLength | ProjectMissing | InvalidStatus

  /** This service's two exception classes; a missing project is a validation error here. */
  datatype TaskError = ValidationError(reason: ValidationReason) | TaskNotFound

  /** `add_task`. */
  function AddTask(db: Db, projectId: int, title: string, description: string, deadline: Option<int>)
    : (r: (Result<ApiTask, TaskError>, Db))
    ensures r.0 == Err(ValidationError(TitleLength)) <==> !(1 <= |Strip(title)| <= MaxTitleLength)
    ensures r.0 == Err(ValidationError(ProjectMissing)) <==>
      1 <= |Strip(title)| <= MaxTitleLength && projectId !in db.projects
    ensures r.0.Ok? <==> 1 <= |Strip(title)| <= MaxTitleLength && projectId in db.projects
    ensures r.0 != Err(TaskNotFound)
    ensures r.0.Err? ==> r.1 == db
    ensures r.0.Ok? ==>
      && r.0.value == ApiTask(r.0.value.id, projectId, Strip(title), description, Todo, deadline, None)
      && r.1.tasks == db.tasks[r.0.value.id := r.0.value]
      && r.1.projects == db.projects
    ensures Valid(db) ==> Valid(r.1)
    ensures r.0.Ok? ==> r.0.value.id !in db.tasks
  {
    var stripped := Strip(title);
    if !(1 <= |stripped| <= MaxTitleLength) then (Err(ValidationError(TitleLength)), db)
    else
      match Repository.GetProject(db, projectId)
      case None => (Err(ValidationError(ProjectMissing)), db)
      case Some(_) =>
        var (t, db') := Repository.CreateTask(db, projectId, stripped, description, deadline);
        (Ok(t), db')
  }

  /** `get_task`. */
  function GetTask(db: Db, taskId: int): (r: Result<ApiTask, TaskError>)
    ensures r.Err? <==> taskId !in db.tasks
    ensures r.Err? ==> r.error == TaskNotFound
    ensures r.Ok? ==> r.value == db.tasks[taskId]
  {
    match Repository.GetTask(db, taskId)
    case None => Err(TaskNotFound)
    case Some(t) => Ok(t)
  }

  /** `change_status`: an unknown status string is refused before the task is looked up. */
  function ChangeStatus(db: Db, taskId: int, newStatus: string): (r: (Result<ApiTask, TaskError>, Db))
    ensures r.0 == Err(ValidationError(InvalidStatus)) <==> ParseStatus(newStatus).None?
    ensures r.0 == Err(TaskNotFound) <==> ParseStatus(newStatus).Some? && taskId !in db.tasks
    ensures r.0.Ok? <==> ParseStatus(newStatus).Some? && taskId in db.tasks
    ensures r.0.Err? ==> r.1 == db
    ensures r.0.Ok? ==>
      && StatusValue(r.0.value.status) == newStatus
      && r.0.value == db.tasks[taskId].(status := r.0.value.status)
      && r.1.tasks == db.tasks[taskId := r.0.value]
      && r.1.projects == db.projects
  {
    match ParseStatus(newStatus)
    case None => (Err(ValidationError(InvalidStatus)), db)
    case Some(st) =>
      match Repository.GetTask(db, taskId)
      case None => (Err(TaskNotFound), db)
      case Some(_) =>
        var (t, db') := Repository.ChangeStatus(db, taskId, st);
        (Ok(t.value), db')
  }
}
