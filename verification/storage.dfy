/**
 * The dictionary-backed store of the command-line variant: two maps keyed by
 * id, each with its own counter that hands out the next id. Python mutates the
 * store in place; here every operation returns the store it leaves behind.
 */
module Storage {
  import opened Common
  import opened Models

  datatype Store = Store(
    projects: map<int, Project>,
    tasks: map<int, Task>,
    nextProjectId: int,
    nextTaskId: int)

  /**
   * What the store's own methods keep true: every key was handed out by its
   * counter (so it lies in [1, counter)) and each record carries its key as id.
   */
  ghost predicate Valid(s: Store) {
    && 1 <= s.nextProjectId
    && 1 <= s.nextTaskId
    && (forall id :: id in s.projects ==> 1 <= id < s.nextProjectId && s.projects[id].id == id)
    && (forall id :: id in s.tasks ==> 1 <= id < s.nextTaskId && s.tasks[id].id == id)
  }

  /** A fresh store: both maps empty, both counters at 1. */
  function Init(): (s: Store)
    ensures Valid(s)
    ensures |s.projects| == 0 && |s.tasks| == 0
  {
    Store(map[], map[], 1, 1)
  }

  // ---------------------------------------------------------------------------
  // Listing in dictionary order. Keys are inserted in counter order and never
  // re-inserted, so a dict's iteration order is ascending id.

  /** The keys in [1, n) whose value satisfies `keep`, in ascending order. */
  function KeysBelow<V>(m: map<int, V>, n: int, keep: V -> bool): (ks: seq<int>)
    ensures forall i :: 0 <= i < |ks| ==> ks[i] in m && 1 <= ks[i] < n && keep(m[ks[i]])
    ensures forall k :: k in m && 1 <= k < n && keep(m[k]) ==> k in ks
    ensures forall i, j :: 0 <= i < j < |ks| ==> ks[i] < ks[j]
    decreases n
  {
    if n <= 1 then []
    else KeysBelow(m, n - 1, keep) + (if n - 1 in m && keep(m[n - 1]) then [n - 1] else [])
  }

  ghost function KeySet<V>(m: map<int, V>, n: int, keep: V -> bool): set<int> {
    set k | k in m && 1 <= k < n && keep(m[k])
  }

  lemma {:induction false} KeysBelowCount<V>(m: map<int, V>, n: int, keep: V -> bool)
    ensures |KeysBelow(m, n, keep)| == |KeySet(m, n, keep)|
    decreases n
  {
    if n <= 1 {
      assert KeySet(m, n, keep) == {};
    } else {
      KeysBelowCount(m, n - 1, keep);
      KeySetStep(m, n, keep);
    }
  }

  /** Raising the bound by one adds key n - 1 when it is present and kept. */
  lemma KeySetStep<V>(m: map<int, V>, n: int, keep: V -> bool)
    requires n > 1
    ensures n - 1 in m && keep(m[n - 1]) ==>
      KeySet(m, n, keep) == KeySet(m, n - 1, keep) + {n - 1} && n - 1 !in KeySet(m, n - 1, keep)
    ensures !(n - 1 in m && keep(m[n - 1])) ==> KeySet(m, n, keep) == KeySet(m, n - 1, keep)
  {
    var below := KeySet(m, n - 1, keep);
    forall k | k in KeySet(m, n, keep) && k != n - 1 ensures k in below {
      assert k in m && 1 <= k < n - 1 && keep(m[k]);
    }
  }

  function ValuesAt<V>(m: map<int, V>, ks: seq<int>): (vs: seq<V>)
    requires forall i :: 0 <= i < |ks| ==> ks[i] in m
    ensures |vs| == |ks|
    ensures forall i :: 0 <= i < |ks| ==> vs[i] == m[ks[i]]
  {
    seq(|ks|, i requires 0 <= i < |ks| => m[ks[i]])
  }

  predicate AnyProject(p: Project) {
    true
  }

  function InProject(pid: int): (keep: Task -> bool) {
    (t: Task) => t.projectId == pid
  }

  /** The ids of the stored tasks that belong to project `pid`. */
  ghost function TaskIdsOf(s: Store, pid: int): set<int> {
    set id | id in s.tasks && s.tasks[id].projectId == pid
  }

  // ---------------------------------------------------------------------------
  // Projects

  /** Stores `p` under the current project counter, which becomes its id, and advances the counter. */
  function CreateProject(s: Store, p: Project): (r: (Project, Store))
    ensures r.0 == p.(id := s.nextProjectId)
    ensures r.1.projects == s.projects[r.0.id := r.0]
    ensures r.1.tasks == s.tasks && r.1.nextTaskId == s.nextTaskId
    ensures r.1.nextProjectId == r.0.id + 1
    ensures Valid(s) ==> r.0.id !in s.projects && Valid(r.1)
    ensures Valid(s) ==> forall id :: id in s.projects ==> id < r.0.id
  {
    var created := p.(id := s.nextProjectId);
    (created, s.(projects := s.projects[created.id := created], nextProjectId := s.nextProjectId + 1))
  }

  /** Every stored project, in ascending id order. */
  function GetAllProjects(s: Store): (ps: seq<Project>)
    ensures forall i :: 0 <= i < |ps| ==> ps[i] in s.projects.Values
    ensures Valid(s) ==> |ps| == |s.projects|
    ensures Valid(s) ==> forall id :: id in s.projects ==> s.projects[id] in ps
    ensures Valid(s) ==> forall i, j :: 0 <= i < j < |ps| ==> ps[i].id < ps[j].id
  {
    var ks := KeysBelow(s.projects, s.nextProjectId, AnyProject);
    KeysBelowCount(s.projects, s.nextProjectId, AnyProject);
    assert Valid(s) ==> KeySet(s.projects, s.nextProjectId, AnyProject) == s.projects.Keys;
    ValuesAt(s.projects, ks)
  }

  /** The stored project with this id, or `None` exactly when the id is not a key. */
  function GetProjectById(s: Store, id: int): (r: Option<Project>)
    ensures r.None? <==> id !in s.projects
    ensures r.Some? ==> r.value == s.projects[id]
  {
    if id in s.projects then Some(s.projects[id]) else None
  }

  /** Replaces the project stored under `p.id`; false, changing nothing, when there is none. */
  function UpdateProject(s: Store, p: Project): (r: (bool, Store))
    ensures r.0 <==> p.id in s.projects
    ensures !r.0 ==> r.1 == s
    ensures r.0 ==> r.1.projects.Keys == s.projects.Keys && r.1.projects[p.id] == p
    ensures forall id :: id in s.projects && id != p.id ==> r.1.projects[id] == s.projects[id]
    ensures r.1.tasks == s.tasks
    ensures r.1.nextProjectId == s.nextProjectId && r.1.nextTaskId == s.nextTaskId
    ensures Valid(s) ==> Valid(r.1)
  {
    if p.id in s.projects then (true, s.(projects := s.projects[p.id := p])) else (false, s)
  }

  /** Removes the project and, in cascade, every task whose project is it. */
  function DeleteProject(s: Store, id: int): (r: (bool, Store))
    ensures r.0 <==> id in s.projects
    ensures !r.0 ==> r.1 == s
    ensures r.0 ==> r.1.projects.Keys == s.projects.Keys - {id}
    ensures forall k :: k in r.1.projects ==> r.1.projects[k] == s.projects[k]
    ensures r.0 ==> forall t :: t in r.1.tasks <==> t in s.tasks && s.tasks[t].projectId != id
    ensures forall t :: t in r.1.tasks ==> r.1.tasks[t] == s.tasks[t]
    ensures r.1.nextProjectId == s.nextProjectId && r.1.nextTaskId == s.nextTaskId
    ensures Valid(s) ==> Valid(r.1)
  {
    if id in s.projects then
      var doomed := set t | t in s.tasks && s.tasks[t].projectId == id;
      (true, s.(projects := s.projects - {id}, tasks := s.tasks - doomed))
    else
      (false, s)
  }

  // ---------------------------------------------------------------------------
  // Tasks

  /** Stores `t` under the current task counter, which becomes its id, and advances the counter. */
  function CreateTask(s: Store, t: Task): (r: (Task, Store))
    ensures r.0 == t.(id := s.nextTaskId)
    ensures r.1.tasks == s.tasks[r.0.id := r.0]
    ensures r.1.projects == s.projects && r.1.nextProjectId == s.nextProjectId
    ensures r.1.nextTaskId == r.0.id + 1
    ensures Valid(s) ==> r.0.id !in s.tasks && Valid(r.1)
    ensures Valid(s) ==> forall id :: id in s.tasks ==> id < r.0.id
  {
    var created := t.(id := s.nextTaskId);
    (created, s.(tasks := s.tasks[created.id := created], nextTaskId := s.nextTaskId + 1))
  }

  /** The stored tasks of project `pid`, in ascending id order. */
  function GetTasksByProjectId(s: Store, pid: int): (ts: seq<Task>)
    ensures forall i :: 0 <= i < |ts| ==> ts[i] in s.tasks.Values && ts[i].projectId == pid
    ensures Valid(s) ==> |ts| == |TaskIdsOf(s, pid)|
    ensures Valid(s) ==> forall id :: id in TaskIdsOf(s, pid) ==> s.tasks[id] in ts
    ensures Valid(s) ==> forall i, j :: 0 <= i < j < |ts| ==> ts[i].id < ts[j].id
  {
    var ks := KeysBelow(s.tasks, s.nextTaskId, InProject(pid));
    KeysBelowCount(s.tasks, s.nextTaskId, InProject(pid));
    assert Valid(s) ==> KeySet(s.tasks, s.nextTaskId, InProject(pid)) == TaskIdsOf(s, pid);
    ValuesAt(s.tasks, ks)
  }

  /** The stored task with this id, or `None` exactly when the id is not a key. */
  function GetTaskById(s: Store, id: int): (r: Option<Task>)
    ensures r.None? <==> id !in s.tasks
    ensures r.Some? ==> r.value == s.tasks[id]
  {
    if id in s.tasks then Some(s.tasks[id]) else None
  }

  /** Replaces the task stored under `t.id`; false, changing nothing, when there is none. */
  function UpdateTask(s: Store, t: Task): (r: (bool, Store))
    ensures r.0 <==> t.id in s.tasks
    ensures !r.0 ==> r.1 == s
    ensures r.0 ==> r.1.tasks.Keys == s.tasks.Keys && r.1.tasks[t.id] == t
    ensures forall id :: id in s.tasks && id != t.id ==> r.1.tasks[id] == s.tasks[id]
    ensures r.1.projects == s.projects
    ensures r.1.nextProjectId == s.nextProjectId && r.1.nextTaskId == s.nextTaskId
    ensures Valid(s) ==> Valid(r.1)
  {
    if t.id in s.tasks then (true, s.(tasks := s.tasks[t.id := t])) else (false, s)
  }

  /** Removes one task; false, changing nothing, when the id is not a key. */
  function DeleteTask(s: Store, id: int): (r: (bool, Store))
    ensures r.0 <==> id in s.tasks
    ensures !r.0 ==> r.1 == s
    ensures r.1.tasks.Keys == s.tasks.Keys - {id}
    ensures forall t :: t in r.1.tasks ==> r.1.tasks[t] == s.tasks[t]
    ensures r.1.projects == s.projects
    ensures r.1.nextProjectId == s.nextProjectId && r.1.nextTaskId == s.nextTaskId
    ensures Valid(s) ==> Valid(r.1)
  {
    if id in s.tasks then (true, s.(tasks := s.tasks - {id})) else (false, s)
  }

  // ---------------------------------------------------------------------------
  // Id freshness over any sequence of store operations

  datatype Op =
    | CreateProjectOp(project: Project)
    | UpdateProjectOp(project: Project)
    | DeleteProjectOp(projectId: int)
    | CreateTaskOp(task: Task)
    | UpdateTaskOp(task: Task)
    | DeleteTaskOp(taskId: int)

  /** The store after `ops`, with the project ids and task ids the creations handed out, in order. */
  datatype Trace = Trace(store: Store, projectIds: seq<int>, taskIds: seq<int>)

  function Run(s: Store, ops: seq<Op>): (trace: Trace)
    decreases |ops|
  {
    if ops == [] then Trace(s, [], [])
    else
      match ops[0]
      case CreateProjectOp(p) =>
        var (q, s1) := CreateProject(s, p);
        var rest := Run(s1, ops[1..]);
        rest.(projectIds := [q.id] + rest.projectIds)
      case UpdateProjectOp(p) => Run(UpdateProject(s, p).1, ops[1..])
      case DeleteProjectOp(id) => Run(DeleteProject(s, id).1, ops[1..])
      case CreateTaskOp(t) =>
        var (u, s1) := CreateTask(s, t);
        var rest := Run(s1, ops[1..]);
        rest.(taskIds := [u.id] + rest.taskIds)
      case UpdateTaskOp(t) => Run(UpdateTask(s, t).1, ops[1..])
      case DeleteTaskOp(id) => Run(DeleteTask(s, id).1, ops[1..])
  }

  ghost predicate Increasing(xs: seq<int>) {
    forall i, j :: 0 <= i < j < |xs| ==> xs[i] < xs[j]
  }

  /**
   * Whatever is created, updated or deleted in between, the ids handed out are
   * strictly increasing, at least the starting counter (so above every id the
   * store held or had deleted), and below the final counter.
   */
  lemma {:induction false} IdsNeverReused(s: Store, ops: seq<Op>)
    requires Valid(s)
    ensures var r := Run(s, ops);
      && Valid(r.store)
      && s.nextProjectId <= r.store.nextProjectId
      && s.nextTaskId <= r.store.nextTaskId
      && Increasing(r.projectIds) && Increasing(r.taskIds)
      && (forall i :: 0 <= i < |r.projectIds| ==> s.nextProjectId <= r.projectIds[i] < r.store.nextProjectId)
      && (forall i :: 0 <= i < |r.taskIds| ==> s.nextTaskId <= r.taskIds[i] < r.store.nextTaskId)
    decreases |ops|
  {
    if ops != [] {
      match ops[0]
      case CreateProjectOp(p) => IdsNeverReused(CreateProject(s, p).1, ops[1..]);
      case UpdateProjectOp(p) => IdsNeverReused(UpdateProject(s, p).1, ops[1..]);
      case DeleteProjectOp(id) => IdsNeverReused(DeleteProject(s, id).1, ops[1..]);
      case CreateTaskOp(t) => IdsNeverReused(CreateTask(s, t).1, ops[1..]);
      case UpdateTaskOp(t) => IdsNeverReused(UpdateTask(s, t).1, ops[1..]);
      case DeleteTaskOp(id) => IdsNeverReused(DeleteTask(s, id).1, ops[1..]);
    }
  }
}
