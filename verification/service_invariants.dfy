/**
 * The services keep the store's global invariant: ids are valid, project names
 * are unique, every task belongs to an existing project, every field is within
 * its length bounds, and neither cap is exceeded.
 */
module ServiceInvariants {
  import opened Common
  import opened Models
  import Storage
  import opened Services

  lemma InitSatisfiesInv(cfg: Config)
    requires 0 <= cfg.maxProjects && 0 <= cfg.maxTasksPerProject
    ensures Inv(cfg, Storage.Init())
  {
  }

  lemma SubsetCard(a: set<int>, b: set<int>)
    requires a <= b
    ensures |a| <= |b|
  {
    assert b == a + (b - a);
  }

  /** A project that is not stored owns no task. */
  lemma NoTasksOfMissingProject(s: Storage.Store, pid: int)
    requires TasksReferenceProjects(s)
    requires pid !in s.projects
    ensures Storage.TaskIdsOf(s, pid) == {}
  {
    assert forall id :: id in s.tasks ==> s.tasks[id].projectId != pid;
  }

  lemma CreateProjectPreservesInv(cfg: Config, s: Storage.Store, name: string, description: string)
    requires Inv(cfg, s)
    ensures Inv(cfg, CreateProject(cfg, s, name, description).store)
  {
    var r := CreateProject(cfg, s, name, description);
    if r.result.Ok? {
      var p := r.result.value;
      assert r.store == Storage.CreateProject(s, Project(0, name, description)).1;
      AddProjectPreservesInv(cfg, s, r.store, p);
    }
  }

  /** Adding a fresh, well-formed project under an unused name, below the cap, keeps the invariant. */
  lemma AddProjectPreservesInv(cfg: Config, s: Storage.Store, s': Storage.Store, p: Project)
    requires Inv(cfg, s)
    requires p.id == s.nextProjectId && |s.projects| < cfg.maxProjects && !NameHeld(s, p.name)
    requires LengthIn(p.name, MaxNameLength) && LengthIn(p.description, MaxDescriptionLength)
    requires s' == s.(projects := s.projects[p.id := p], nextProjectId := p.id + 1)
    ensures Inv(cfg, s')
  {
    assert p.id !in s.projects;
    assert Storage.Valid(s');
    assert NamesUnique(s');
    AddProjectKeepsCaps(cfg, s, s', p);
  }

  /** A fresh project with no tasks, added below the project cap, keeps both caps. */
  lemma AddProjectKeepsCaps(cfg: Config, s: Storage.Store, s': Storage.Store, p: Project)
    requires Inv(cfg, s)
    requires p.id !in s.projects && |s.projects| < cfg.maxProjects
    requires s'.projects == s.projects[p.id := p] && s'.tasks == s.tasks
    ensures WithinCaps(cfg, s')
  {
    forall pid | pid in s'.projects ensures |Storage.TaskIdsOf(s', pid)| <= cfg.maxTasksPerProject {
      assert Storage.TaskIdsOf(s', pid) == Storage.TaskIdsOf(s, pid);
      if pid == p.id {
        NoTasksOfMissingProject(s, pid);
      }
    }
  }

  lemma EditProjectPreservesInv(cfg: Config, s: Storage.Store, projectId: int, newName: string, newDescription: string)
    requires Inv(cfg, s)
    ensures Inv(cfg, EditProject(s, projectId, newName, newDescription).store)
  {
    var r := EditProject(s, projectId, newName, newDescription);
    if r.result.Ok? {
      var s' := r.store;
      assert !NameHeldByOther(s, newName, projectId);
      forall pid | pid in s'.projects ensures Storage.TaskIdsOf(s', pid) == Storage.TaskIdsOf(s, pid) {
      }
    }
  }

  lemma DeleteProjectPreservesInv(cfg: Config, s: Storage.Store, projectId: int)
    requires Inv(cfg, s)
    ensures Inv(cfg, DeleteProject(s, projectId).store)
  {
    var r := DeleteProject(s, projectId);
    if r.result.Ok? {
      var s' := r.store;
      SubsetCard(s'.projects.Keys, s.projects.Keys);
      forall pid | pid in s'.projects ensures Storage.TaskIdsOf(s', pid) == Storage.TaskIdsOf(s, pid) {
      }
    }
  }

  lemma CreateTaskPreservesInv(cfg: Config, s: Storage.Store, projectId: int, title: string, description: string,
                               deadline: Option<int>, now: int)
    requires Inv(cfg, s)
    ensures Inv(cfg, CreateTask(cfg, s, projectId, title, description, deadline, now).store)
  {
    var r := CreateTask(cfg, s, projectId, title, description, deadline, now);
    if r.result.Ok? {
      var s' := r.store;
      var t := r.result.value;
      assert Storage.Valid(s') by {
        assert s' == Storage.CreateTask(s, Task(0, projectId, title, description, Todo, deadline)).1;
      }
      assert TasksReferenceProjects(s');
      assert NamesUnique(s');
      assert FieldsInBounds(s');
      forall pid | pid in s'.projects ensures |Storage.TaskIdsOf(s', pid)| <= cfg.maxTasksPerProject {
        TaskIdsAfterCreate(s, s', t, pid);
      }
    }
  }

  /** Adding a fresh task adds its id to its own project's task ids and to no other. */
  lemma TaskIdsAfterCreate(s: Storage.Store, s': Storage.Store, t: Task, pid: int)
    requires t.id !in s.tasks
    requires s'.tasks == s.tasks[t.id := t]
    ensures pid == t.projectId ==> Storage.TaskIdsOf(s', pid) == Storage.TaskIdsOf(s, pid) + {t.id}
    ensures pid == t.projectId ==> t.id !in Storage.TaskIdsOf(s, pid)
    ensures pid != t.projectId ==> Storage.TaskIdsOf(s', pid) == Storage.TaskIdsOf(s, pid)
  {
  }

  lemma ChangeTaskStatusPreservesInv(cfg: Config, s: Storage.Store, taskId: int, newStatus: TaskStatus)
    requires Inv(cfg, s)
    ensures Inv(cfg, ChangeTaskStatus(s, taskId, newStatus).store)
  {
    var r := ChangeTaskStatus(s, taskId, newStatus);
    if r.result.Ok? {
      var s' := r.store;
      forall pid | pid in s'.projects ensures Storage.TaskIdsOf(s', pid) == Storage.TaskIdsOf(s, pid) {
      }
    }
  }

  /** Replacing one task by one with the same id, project and bounded fields keeps the invariant. */
  lemma ReplaceTaskPreservesInv(cfg: Config, s: Storage.Store, s': Storage.Store, taskId: int, t: Task)
    requires Inv(cfg, s)
    requires taskId in s.tasks
    requires t.id == taskId && t.projectId == s.tasks[taskId].projectId
    requires LengthIn(t.title, MaxTitleLength) && LengthIn(t.description, MaxDescriptionLength)
    requires s' == s.(tasks := s.tasks[taskId := t])
    ensures Inv(cfg, s')
  {
    forall pid | pid in s'.projects ensures Storage.TaskIdsOf(s', pid) == Storage.TaskIdsOf(s, pid) {
    }
  }

  /** Even the partial edits `EditTask` leaves behind on failure keep the invariant. */
  lemma EditTaskPreservesInv(cfg: Config, s: Storage.Store, taskId: int, newTitle: Option<string>,
                             newDescription: Option<string>, newStatus: Option<TaskStatus>, newDeadline: Option<int>, now: int)
    requires Inv(cfg, s)
    ensures Inv(cfg, EditTask(s, taskId, newTitle, newDescription, newStatus, newDeadline, now).store)
  {
    var r := EditTask(s, taskId, newTitle, newDescription, newStatus, newDeadline, now);
    if r.result == Err(TaskDescriptionLength) {
      ReplaceTaskPreservesInv(cfg, s, r.store, taskId, EditFields(s.tasks[taskId], newTitle, None, None, None));
    } else if r.result == Err(DeadlineInPast) {
      ReplaceTaskPreservesInv(cfg, s, r.store, taskId,
        EditFields(s.tasks[taskId], newTitle, newDescription, newStatus, None));
    } else if r.result.Ok? {
      ReplaceTaskPreservesInv(cfg, s, r.store, taskId,
        EditFields(s.tasks[taskId], newTitle, newDescription, newStatus, newDeadline));
    }
  }

  lemma EditTaskAtomicPreservesInv(cfg: Config, s: Storage.Store, taskId: int, newTitle: Option<string>,
                                   newDescription: Option<string>, newStatus: Option<TaskStatus>, newDeadline: Option<int>, now: int)
    requires Inv(cfg, s)
    ensures Inv(cfg, EditTaskAtomic(s, taskId, newTitle, newDescription, newStatus, newDeadline, now).store)
  {
    var r := EditTaskAtomic(s, taskId, newTitle, newDescription, newStatus, newDeadline, now);
    if r.result.Ok? {
      ReplaceTaskPreservesInv(cfg, s, r.store, taskId,
        EditFields(s.tasks[taskId], newTitle, newDescription, newStatus, newDeadline));
    }
  }

  lemma DeleteTaskPreservesInv(cfg: Config, s: Storage.Store, taskId: int)
    requires Inv(cfg, s)
    ensures Inv(cfg, DeleteTask(s, taskId).store)
  {
    var r := DeleteTask(s, taskId);
    if r.result.Ok? {
      var s' := r.store;
      forall pid | pid in s'.projects ensures |Storage.TaskIdsOf(s', pid)| <= cfg.maxTasksPerProject {
        SubsetCard(Storage.TaskIdsOf(s', pid), Storage.TaskIdsOf(s, pid));
      }
    }
  }

  // ---------------------------------------------------------------------------
  // Every store the services can reach

  /** One call into ProjectService or TaskService. */
  datatype Command =
    | CreateProjectCmd(name: string, description: string)
    | EditProjectCmd(projectId: int, newName: string, newDescription: string)
    | DeleteProjectCmd(projectId: int)
    | CreateTaskCmd(projectId: int, title: string, description: string, deadline: Option<int>, now: int)
    | ChangeTaskStatusCmd(taskId: int, newStatus: TaskStatus)
    | EditTaskCmd(taskId: int, newTitle: Option<string>, newTaskDescription: Option<string>,
                  newTaskStatus: Option<TaskStatus>, newDeadline: Option<int>, now: int)
    | DeleteTaskCmd(taskId: int)

  function Step(cfg: Config, s: Storage.Store, c: Command): (s': Storage.Store)
    requires Inv(cfg, s)
    ensures Inv(cfg, s')
    ensures s.nextProjectId <= s'.nextProjectId && s.nextTaskId <= s'.nextTaskId
  {
    match c
    case CreateProjectCmd(name, description) =>
      CreateProjectPreservesInv(cfg, s, name, description);
      CreateProject(cfg, s, name, description).store
    case EditProjectCmd(id, name, description) =>
      EditProjectPreservesInv(cfg, s, id, name, description);
      EditProject(s, id, name, description).store
    case DeleteProjectCmd(id) =>
      DeleteProjectPreservesInv(cfg, s, id);
      DeleteProject(s, id).store
    case CreateTaskCmd(pid, title, description, deadline, now) =>
      CreateTaskPreservesInv(cfg, s, pid, title, description, deadline, now);
      CreateTask(cfg, s, pid, title, description, deadline, now).store
    case ChangeTaskStatusCmd(id, status) =>
      ChangeTaskStatusPreservesInv(cfg, s, id, status);
      ChangeTaskStatus(s, id, status).store
    case EditTaskCmd(id, title, description, status, deadline, now) =>
      EditTaskPreservesInv(cfg, s, id, title, description, status, deadline, now);
      EditTask(s, id, title, description, status, deadline, now).store
    case DeleteTaskCmd(id) =>
      DeleteTaskPreservesInv(cfg, s, id);
      DeleteTask(s, id).store
  }

  /** The store after a sequence of service calls; the invariant holds after every one of them. */
  function RunCommands(cfg: Config, s: Storage.Store, cs: seq<Command>): (s': Storage.Store)
    requires Inv(cfg, s)
    ensures Inv(cfg, s')
    ensures s.nextProjectId <= s'.nextProjectId && s.nextTaskId <= s'.nextTaskId
    decreases |cs|
  {
    if cs == [] then s else RunCommands(cfg, Step(cfg, s, cs[0]), cs[1..])
  }

  /**
   * After any sequence of calls, the next project or task created gets an id
   * that no project or task had before those calls, deleted ones included.
   */
  lemma CreatedIdsAreNew(cfg: Config, s: Storage.Store, cs: seq<Command>, name: string, description: string,
                         projectId: int, title: string, taskDescription: string, deadline: Option<int>, now: int)
    requires Inv(cfg, s)
    ensures var s' := RunCommands(cfg, s, cs);
      var p := CreateProject(cfg, s', name, description).result;
      p.Ok? ==> s.nextProjectId <= p.value.id && p.value.id !in s.projects
    ensures var s' := RunCommands(cfg, s, cs);
      var t := CreateTask(cfg, s', projectId, title, taskDescription, deadline, now).result;
      t.Ok? ==> s.nextTaskId <= t.value.id && t.value.id !in s.tasks
  {
  }

  /** From an empty store, whatever the calls, the invariant holds. */
  lemma ReachableStoresSatisfyInv(cfg: Config, cs: seq<Command>)
    requires 0 <= cfg.maxProjects && 0 <= cfg.maxTasksPerProject
    ensures Inv(cfg, RunCommands(cfg, Storage.Init(), cs))
  {
    InitSatisfiesInv(cfg);
  }

  // ---------------------------------------------------------------------------
  // `edit_task` is not atomic

  /**
   * A failed `edit_task` can still change the task: a valid new title with a
   * deadline in the past raises, yet the stored title has already changed.
   */
  lemma EditTaskFailureChangesTitle(s: Storage.Store, taskId: int, newTitle: string, newDeadline: int, now: int)
    requires Storage.Valid(s)
    requires taskId in s.tasks
    requires LengthIn(newTitle, MaxTitleLength) && newTitle != s.tasks[taskId].title
    requires newDeadline < now
    ensures EditTask(s, taskId, Some(newTitle), None, None, Some(newDeadline), now).result == Err(DeadlineInPast)
    ensures EditTask(s, taskId, Some(newTitle), None, None, Some(newDeadline), now).store.tasks[taskId].title == newTitle
    ensures EditTask(s, taskId, Some(newTitle), None, None, Some(newDeadline), now).store != s
  {
    var r := EditTask(s, taskId, Some(newTitle), None, None, Some(newDeadline), now);
    assert r.store.tasks[taskId].title == newTitle;
  }

  /** One concrete store on which the failed edit shows. */
  lemma EditTaskPartialExample()
    ensures var s := Storage.Store(map[1 := Project(1, "home", "chores")],
                                   map[1 := Task(1, 1, "old", "wash", Todo, None)], 2, 2);
            var r := EditTask(s, 1, Some("new"), None, None, Some(5), 10);
            r.result.Err? && r.store.tasks[1].title == "new"
  {
    var s := Storage.Store(map[1 := Project(1, "home", "chores")],
                           map[1 := Task(1, 1, "old", "wash", Todo, None)], 2, 2);
    EditTaskFailureChangesTitle(s, 1, "new", 5, 10);
  }

  /**
   * The corrected edit raises the same errors in the same order and, when it
   * succeeds, leaves the same store; only the failed edits differ.
   */
  lemma EditTaskAtomicAgreesWithEditTask(s: Storage.Store, taskId: int, newTitle: Option<string>,
                                         newDescription: Option<string>, newStatus: Option<TaskStatus>,
                                         newDeadline: Option<int>, now: int)
    requires Storage.Valid(s)
    ensures EditTaskAtomic(s, taskId, newTitle, newDescription, newStatus, newDeadline, now).result
         == EditTask(s, taskId, newTitle, newDescription, newStatus, newDeadline, now).result
    ensures EditTask(s, taskId, newTitle, newDescription, newStatus, newDeadline, now).result.Ok? ==>
              (EditTaskAtomic(s, taskId, newTitle, newDescription, newStatus, newDeadline, now).store
               == EditTask(s, taskId, newTitle, newDescription, newStatus, newDeadline, now).store)
  {
  }
}
