/** The records of the command-line variant: a project owns tasks, a task has a status. */
module Models {
  import opened Common

  /** The three states a task moves between. */
  datatype TaskStatus = Todo | Doing | Done

  /** A project; its creation time stamp is not modelled. */
  datatype Project = Project(id: int, name: string, description: string)

  /** A task; `deadline` is a point in time as an integer, `None` when unset. */
  datatype Task = Task(
    id: int,
    projectId: int,
    title: string,
    description: string,
    status: TaskStatus,
    deadline: Option<int>)
}
