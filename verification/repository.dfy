/**
 * The web variant's tables and the repository calls its services make. The
 * database is two maps keyed by id. A new row's id is chosen as SQLite chooses
 * the rowid of an `INTEGER PRIMARY KEY` table declared without the
 * AUTOINCREMENT keyword: one more than the largest id stored, or 1 in an empty
 * table. So the id of a deleted newest row is handed out again.
 */
module Repository {
  import opened Common
  import opened Models

  /** A row of `projects`. */
  datatype ApiProject = ApiProject(id: int, name: string, description: string)

  /** A row of `tasks`; `closedAt` is set when the task is force-closed. */
  datatype ApiTask = ApiTask(
    id: int,
    projectId: int,
    title: string,
    description: string,
    status: TaskStatus,
    deadline: Option<int>,
    closedAt: Option<int>)

  datatype Db = Db(projects: map<int, ApiProject>, tasks: map<int, ApiTask>)

  /** Ids are positive, and every row sits under its own id. */
  ghost predicate Valid(db: Db) {
    && (forall id :: id in db.projects ==> 1 <= id && db.projects[id].id == id)
    && (forall id :: id in db.tasks ==> 1 <= id && db.tasks[id].id == id)
  }

  /** Every task row's `project_id` names a stored project (the foreign key). */
  ghost predicate TasksReferenceProjects(db: Db) {
    forall id :: id in db.tasks ==> db.tasks[id].projectId in db.projects
  }

  ghost predicate NamesUnique(db: Db) {
    forall a, b :: a in db.projects && b in db.projects && a != b ==> db.projects[a].name != db.projects[b].name
  }

  // ---------------------------------------------------------------------------
  // The status column's enumeration

  /** The value each `StatusEnum` member is stored and sent as. */
  function StatusValue(st: TaskStatus): (value: string)
    ensures ParseStatus(value) == Some(st)
  {
    match st
    case Todo => "todo"
    case Doing => "doing"
    case Done => "done"
  }

  /** `StatusEnum(value)`: the member with that exact value, `None` where Python raises ValueError. */
  function ParseStatus(value: string): (r: Option<TaskStatus>)
    ensures r.Some? <==> value == "todo" || value == "doing" || value == "done"
  {
    if value == "todo" then Some(Todo)
    else if value == "doing" then Some(Doing)
    else if value == "done" then Some(Done)
    else None
  }

  /** Parsing inverts `StatusValue`, and accepts nothing else. */
  lemma ParseStatusRoundTrip(st: TaskStatus, value: string)
    ensures ParseStatus(StatusValue(st)) == Some(st)
    ensures ParseStatus(value).Some? ==> StatusValue(ParseStatus(value).value) == value
  {
  }

  // ---------------------------------------------------------------------------
  // Row ids

  /** The largest element of a finite non-empty set of ids. */
  lemma {:induction false} Largest(ids: set<int>) returns (m: int)
    requires ids != {}
    ensures m in ids && forall k :: k in ids ==> k <= m
    decreases |ids|
  {
    if forall k :: k !in ids {
      assert false;
    }
    var x :| x in ids;
    if ids == {x} {
      m := x;
    } else {
      var y := Largest(ids - {x});
      assert forall k :: k in ids ==> k == x || k in ids - {x};
      m := if x < y then y else x;
    }
  }

  /** The smallest element of a finite non-empty set of ids. */
  lemma {:induction false} Smallest(ids: set<int>) returns (m: int)
    requires ids != {}
    ensures m in ids && forall k :: k in ids ==> m <= k
    decreases |ids|
  {
    if forall k :: k !in ids {
      assert false;
    }
    var x :| x in ids;
    if ids == {x} {
      m := x;
    } else {
      var y := Smallest(ids - {x});
      assert forall k :: k in ids ==> k == x || k in ids - {x};
      m := if y < x then y else x;
    }
  }

  /**
   * The id SQLite gives a new row: one more than the largest id in the table,
   * 1 when the table is empty.
   */
  function NextRowId<V>(rows: map<int, V>): (n: int)
    ensures n !in rows
    ensures forall k :: k in rows ==> k < n
    ensures rows.Keys == {} ==> n == 1
    ensures rows.Keys != {} ==> n - 1 in rows
  {
    if rows.Keys == {} then 1
    else
      assert exists m :: m in rows.Keys && forall k :: k in rows.Keys ==> k <= m by {
        var w := Largest(rows.Keys);
      }
      var m :| m in rows.Keys && forall k :: k in rows.Keys ==> k <= m;
      m + 1
  }

  // ---------------------------------------------------------------------------
  // ProjectRepository

  /** `get`: the row whose `id` column equals `id`, `None` exactly when there is none. */
  function GetProject(db: Db, id: int): (r: Option<ApiProject>)
    ensures r.None? <==> id !in db.projects
    ensures r.Some? ==> r.value == db.projects[id]
    ensures Valid(db) && r.Some? ==> r.value.id == id
  {
    if id in db.projects then Some(db.projects[id]) else None
  }

  /** Some stored project has exactly this name. */
  ghost predicate NameTaken(db: Db, name: string) {
    exists id :: id in db.projects && db.projects[id].name == name
  }

  /**
   * `get_by_name`: a project with exactly this name, `None` when there is none.
   * The query has no ORDER BY; the model answers with the lowest id, which is
   * the only one while names are unique.
   */
  function GetByName(db: Db, name: string): (r: Option<ApiProject>)
    ensures r.None? <==> !NameTaken(db, name)
    ensures r.Some? ==> r.value.name == name && r.value in db.projects.Values
    ensures r.Some? && Valid(db) && NamesUnique(db) ==>
      forall id :: id in db.projects && db.projects[id].name == name ==> db.projects[id] == r.value
  {
    var ids := set id | id in db.projects && db.projects[id].name == name;
    if ids == {} then
      assert forall id :: id in db.projects && db.projects[id].name == name ==> id in ids;
      None
    else
      assert exists m :: m in ids && forall k :: k in ids ==> m <= k by {
        var w := Smallest(ids);
      }
      var m :| m in ids && forall k :: k in ids ==> m <= k;
      Some(db.projects[m])
  }

  /** `create`: a new row under the id SQLite picks. */
  function CreateProject(db: Db, name: string, description: string): (r: (ApiProject, Db))
    ensures r.0.name == name && r.0.description == description
    ensures r.0.id !in db.projects && forall k :: k in db.projects ==> k < r.0.id
    ensures db.projects.Keys == {} ==> r.0.id == 1
    ensures db.projects.Keys != {} ==> r.0.id - 1 in db.projects
    ensures Valid(db) ==> Valid(r.1)
    ensures r.1.projects == db.projects[r.0.id := r.0]
    ensures r.1.tasks == db.tasks
  {
    var p := ApiProject(NextRowId(db.projects), name, description);
    (p, db.(projects := db.projects[p.id := p]))
  }

  /** `delete`: the row goes, and with it every task of the project (`cascade="all, delete-orphan"`). */
  function DeleteProject(db: Db, id: int): (r: Db)
    ensures id !in db.projects ==> r == db
    ensures r.projects.Keys == db.projects.Keys - {id}
    ensures forall k :: k in r.projects ==> r.projects[k] == db.projects[k]
    ensures id in db.projects ==> forall t :: t in r.tasks <==> t in db.tasks && db.tasks[t].projectId != id
    ensures forall t :: t in r.tasks ==> r.tasks[t] == db.tasks[t]
    ensures Valid(db) ==> Valid(r)
  {
    if id in db.projects then
      var doomed := set t | t in db.tasks && db.tasks[t].projectId == id;
      db.(projects := db.projects - {id}, tasks := db.tasks - doomed)
    else db
  }

  // ---------------------------------------------------------------------------
  // TaskRepository

  /** `get`: the row whose `id` column equals `id`, `None` exactly when there is none. */
  function GetTask(db: Db, id: int): (r: Option<ApiTask>)
    ensures r.None? <==> id !in db.tasks
    ensures r.Some? ==> r.value == db.tasks[id]
    ensures Valid(db) && r.Some? ==> r.value.id == id
  {
    if id in db.tasks then Some(db.tasks[id]) else None
  }

  /** `create`: a new row under the id SQLite picks, with the column defaults: status TODO, not closed. */
  function CreateTask(db: Db, projectId: int, title: string, description: string, deadline: Option<int>): (r: (ApiTask, Db))
    ensures r.0 == ApiTask(r.0.id, projectId, title, description, Todo, deadline, None)
    ensures r.0.id !in db.tasks && forall k :: k in db.tasks ==> k < r.0.id
    ensures db.tasks.Keys == {} ==> r.0.id == 1
    ensures db.tasks.Keys != {} ==> r.0.id - 1 in db.tasks
    ensures Valid(db) ==> Valid(r.1)
    ensures r.1.tasks == db.tasks[r.0.id := r.0]
    ensures r.1.projects == db.projects
  {
    var t := ApiTask(NextRowId(db.tasks), projectId, title, description, Todo, deadline, None);
    (t, db.(tasks := db.tasks[t.id := t]))
  }

  /**
   * Without AUTOINCREMENT an id can come back: create projects 1 and 2, delete
   * 2, and the next project created is 2 again.
   */
  lemma DeletedNewestIdIsReused()
    ensures var db0 := Db(map[], map[]);
      var (p1, db1) := CreateProject(db0, "a", "");
      var (p2, db2) := CreateProject(db1, "b", "");
      var (p3, _) := CreateProject(DeleteProject(db2, p2.id), "c", "");
      p1.id == 1 && p2.id == 2 && p3.id == 2
  {
  }

  /** `change_status`: sets the status column only; `None` for a missing task. */
  function ChangeStatus(db: Db, id: int, st: TaskStatus): (r: (Option<ApiTask>, Db))
    ensures r.0.None? <==> id !in db.tasks
    ensures r.0.None? ==> r.1 == db
    ensures r.0.Some? ==> r.0.value == db.tasks[id].(status := st) && r.1.tasks == db.tasks[id := r.0.value]
    ensures r.1.projects == db.projects
    ensures Valid(db) ==> Valid(r.1)
  {
    match GetTask(db, id)
    case None => (None, db)
    case Some(t) =>
      var t' := t.(status := st);
      (Some(t'), db.(tasks := db.tasks[id := t']))
  }
}
