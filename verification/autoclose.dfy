/**
 * One run of the overdue job: select the open tasks whose deadline has passed,
 * close each of them at one time stamp, commit once if anything was closed, and
 * report how many were closed. The table is a sequence of rows; the clock
 * reading `now` is a parameter.
 */
module Autoclose {
  import opened Common
  import opened Models
  import opened Repository

  /**
   * The query's predicate `deadline < now and status != DONE`. A task with no
   * deadline is not overdue: SQL's `NULL < now` is not true.
   */
  function IsOverdueOpen(t: ApiTask, now: int): (overdue: bool)
    ensures t.deadline.None? ==> !overdue
    ensures t.status == Done ==> !overdue
    ensures t.deadline.Some? && t.status != Done ==> (overdue <==> t.deadline.value < now)
  {
    t.deadline.Some? && t.deadline.value < now && t.status != Done
  }

  /** Once overdue and open, a task stays so at every later clock reading. */
  lemma OverdueStaysOverdue(t: ApiTask, now: int, later: int)
    requires IsOverdueOpen(t, now) && now <= later
    ensures IsOverdueOpen(t, later)
  {
  }

  /** The loop body: DONE, closed at `now`, every other column kept. */
  function Close(t: ApiTask, now: int): (c: ApiTask)
    ensures c.status == Done && c.closedAt == Some(now)
    ensures c.id == t.id && c.projectId == t.projectId && c.title == t.title
    ensures c.description == t.description && c.deadline == t.deadline
    ensures forall later :: !IsOverdueOpen(c, later)
  {
    t.(status := Done, closedAt := Some(now))
  }

  /** `list_overdue_open_tasks`: the positions of the matching rows, in table order. */
  function ListOverdueOpen(tasks: seq<ApiTask>, now: int): (ix: seq<int>)
    ensures forall k :: 0 <= k < |ix| ==> 0 <= ix[k] < |tasks| && IsOverdueOpen(tasks[ix[k]], now)
    ensures forall i :: 0 <= i < |tasks| && IsOverdueOpen(tasks[i], now) ==> i in ix
    ensures forall a, b :: 0 <= a < b < |ix| ==> ix[a] < ix[b]
    decreases |tasks|
  {
    if tasks == [] then []
    else
      var last := |tasks| - 1;
      ListOverdueOpen(tasks[..last], now) + (if IsOverdueOpen(tasks[last], now) then [last] else [])
  }

  /** The `for` loop: closes the rows at the given positions, one after another. */
  function CloseAt(tasks: seq<ApiTask>, ix: seq<int>, now: int): (r: seq<ApiTask>)
    requires forall k :: 0 <= k < |ix| ==> 0 <= ix[k] < |tasks|
    ensures |r| == |tasks|
    ensures forall i :: 0 <= i < |tasks| && i in ix ==> r[i] == Close(tasks[i], now)
    ensures forall i :: 0 <= i < |tasks| && i !in ix ==> r[i] == tasks[i]
    decreases |ix|
  {
    if ix == [] then tasks
    else CloseAt(tasks[ix[0] := Close(tasks[ix[0]], now)], ix[1..], now)
  }

  /** The rows afterwards, how many were closed (the return value), and whether a commit happened. */
  datatype AutocloseRun = AutocloseRun(tasks: seq<ApiTask>, closed: int, committed: bool)

  ghost function OverduePositions(tasks: seq<ApiTask>, now: int): set<int> {
    set i | 0 <= i < |tasks| && IsOverdueOpen(tasks[i], now)
  }

  lemma {:induction false} IncreasingCard(ix: seq<int>)
    requires forall a, b :: 0 <= a < b < |ix| ==> ix[a] < ix[b]
    ensures |set x | x in ix| == |ix|
    decreases |ix|
  {
    if ix != [] {
      var init := ix[..|ix| - 1];
      IncreasingCard(init);
      assert (set x | x in ix) == (set x | x in init) + {ix[|ix| - 1]};
      assert ix[|ix| - 1] !in init;
    }
  }

  /** `autoclose_overdue_tasks`. */
  function AutocloseOverdueTasks(tasks: seq<ApiTask>, now: int): (r: AutocloseRun)
    ensures |r.tasks| == |tasks|
    ensures forall i :: 0 <= i < |tasks| && IsOverdueOpen(tasks[i], now) ==>
      && r.tasks[i].status == Done
      && r.tasks[i].closedAt == Some(now)
      && r.tasks[i] == tasks[i].(status := Done, closedAt := Some(now))
    ensures forall i :: 0 <= i < |tasks| && !IsOverdueOpen(tasks[i], now) ==> r.tasks[i] == tasks[i]
    ensures r.closed == |OverduePositions(tasks, now)|
    ensures r.committed <==> r.closed > 0
  {
    var ix := ListOverdueOpen(tasks, now);
    IncreasingCard(ix);
    assert (set x | x in ix) == OverduePositions(tasks, now);
    AutocloseRun(CloseAt(tasks, ix, now), |ix|, |ix| > 0)
  }

  /** After a run nothing is overdue and open at the same `now`: a second run closes nothing and commits nothing. */
  lemma RerunClosesNothing(tasks: seq<ApiTask>, now: int)
    ensures var first := AutocloseOverdueTasks(tasks, now);
      AutocloseOverdueTasks(first.tasks, now) == AutocloseRun(first.tasks, 0, false)
  {
    var first := AutocloseOverdueTasks(tasks, now);
    assert OverduePositions(first.tasks, now) == {};
  }
}
