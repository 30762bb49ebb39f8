/**
 * The web variant's services keep one invariant of the database: ids are
 * valid, every task belongs to a stored project, project names are pairwise
 * distinct, and every stored name is in stripped form.
 */
module WebInvariants {
  import opened Common
  import opened Text
  import opened Repository
  import ApiProjectService
  import ApiTaskService

  /** Every stored name is already in stripped form. */
  ghost predicate NamesStripped(db: Db) {
    forall id :: id in db.projects ==> IsStripped(db.projects[id].name)
  }

  /** Everything the web services promise of the database between requests. */
  ghost predicate WebInv(db: Db) {
    && Valid(db)
    && TasksReferenceProjects(db)
    && NamesUnique(db)
    && NamesStripped(db)
  }

  /** `create_project` stores a stripped name that no project holds. */
  lemma CreateProjectPreservesWebInv(db: Db, name: string, description: string)
    requires WebInv(db)
    ensures WebInv(ApiProjectService.CreateProject(db, name, description).1)
  {
  }

  /** `delete_project` takes the project's tasks with it, so no task is left dangling. */
  lemma DeleteProjectPreservesWebInv(db: Db, projectId: int)
    requires WebInv(db)
    ensures WebInv(ApiProjectService.DeleteProject(db, projectId).1)
    ensures forall t :: t in ApiProjectService.DeleteProject(db, projectId).1.tasks ==>
      ApiProjectService.DeleteProject(db, projectId).1.tasks[t].projectId != projectId
  {
  }

  /** `add_task` only adds a task to a stored project. */
  lemma AddTaskPreservesWebInv(db: Db, projectId: int, title: string, description: string, deadline: Option<int>)
    requires WebInv(db)
    ensures WebInv(ApiTaskService.AddTask(db, projectId, title, description, deadline).1)
  {
  }

  /** `change_status` changes one status column and nothing else. */
  lemma ChangeStatusPreservesWebInv(db: Db, taskId: int, newStatus: string)
    requires WebInv(db)
    ensures WebInv(ApiTaskService.ChangeStatus(db, taskId, newStatus).1)
  {
  }

  /** One request that changes the database. */
  datatype Request =
    | CreateProjectReq(name: string, description: string)
    | DeleteProjectReq(projectId: int)
    | AddTaskReq(taskProjectId: int, title: string, taskDescription: string, deadline: Option<int>)
    | ChangeStatusReq(taskId: int, newStatus: string)

  function Serve(db: Db, q: Request): (db': Db)
    requires WebInv(db)
    ensures WebInv(db')
  {
    match q
    case CreateProjectReq(name, description) =>
      CreateProjectPreservesWebInv(db, name, description);
      ApiProjectService.CreateProject(db, name, description).1
    case DeleteProjectReq(id) =>
      DeleteProjectPreservesWebInv(db, id);
      ApiProjectService.DeleteProject(db, id).1
    case AddTaskReq(pid, title, description, deadline) =>
      AddTaskPreservesWebInv(db, pid, title, description, deadline);
      ApiTaskService.AddTask(db, pid, title, description, deadline).1
    case ChangeStatusReq(id, status) =>
      ChangeStatusPreservesWebInv(db, id, status);
      ApiTaskService.ChangeStatus(db, id, status).1
  }

  /** The database after a sequence of requests; the invariant holds after every one. */
  function ServeAll(db: Db, qs: seq<Request>): (db': Db)
    requires WebInv(db)
    ensures WebInv(db')
    decreases |qs|
  {
    if qs == [] then db else ServeAll(Serve(db, qs[0]), qs[1..])
  }

  /** From an empty database, whatever the requests, the invariant holds. */
  lemma ReachableDbsSatisfyWebInv(qs: seq<Request>)
    ensures WebInv(ServeAll(Db(map[], map[]), qs))
  {
  }
}
