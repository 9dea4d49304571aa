/**
 * The task listings: the active-task page with its optional search, and the
 * "all tasks" page with its counts.
 */
module Listing {
  import opened Wrappers
  import opened Strings
  import opened Models

  /**
   * The order of `order_by('priority')`, or of `order_by('completed',
   * 'priority')` when `byCompleted` holds (not-completed tasks first). Rows
   * that tie may come in any order.
   */
  ghost predicate Precedes(a: Task, b: Task, byCompleted: bool) {
    if byCompleted && a.completed != b.completed then !a.completed else a.priority <= b.priority
  }

  ghost predicate Sorted(rows: TaskTable, r: seq<TaskId>, byCompleted: bool)
    requires forall k :: 0 <= k < |r| ==> r[k] in rows
  {
    forall i, j :: 0 <= i < j < |r| ==> Precedes(rows[r[i]], rows[r[j]], byCompleted)
  }

  lemma PrecedesTotal(a: Task, b: Task, byCompleted: bool)
    ensures Precedes(a, b, byCompleted) || Precedes(b, a, byCompleted)
  {
  }

  lemma PrecedesTransitive(a: Task, b: Task, c: Task, byCompleted: bool)
    requires Precedes(a, b, byCompleted) && Precedes(b, c, byCompleted)
    ensures Precedes(a, c, byCompleted)
  {
  }

  /** A set of ids holds one that comes first in list order. */
  lemma {:induction false} Least(rows: TaskTable, ids: set<TaskId>, byCompleted: bool) returns (m: TaskId)
    requires ids != {} && ids <= rows.Keys
    ensures m in ids && forall x :: x in ids ==> Precedes(rows[m], rows[x], byCompleted)
    decreases |ids|
  {
    var y :| y in ids;
    if ids == {y} {
      m := y;
    } else {
      var rest := ids - {y};
      m := Least(rows, rest, byCompleted);
      PrecedesTotal(rows[m], rows[y], byCompleted);
      if Precedes(rows[m], rows[y], byCompleted) {
        assert forall x :: x in ids ==> x == y || x in rest;
      } else {
        forall x | x in ids
          ensures Precedes(rows[y], rows[x], byCompleted)
        {
          if x != y {
            PrecedesTransitive(rows[y], rows[m], rows[x], byCompleted);
          }
        }
        m := y;
      }
    }
  }

  lemma LeastExists(rows: TaskTable, ids: set<TaskId>, byCompleted: bool)
    requires ids != {} && ids <= rows.Keys
    ensures exists m :: m in ids && forall x :: x in ids ==> Precedes(rows[m], rows[x], byCompleted)
  {
    var m := Least(rows, ids, byCompleted);
  }

  /** The ids in `ids`, each once, in list order. */
  ghost function OrderedIds(rows: TaskTable, ids: set<TaskId>, byCompleted: bool): (r: seq<TaskId>)
    requires ids <= rows.Keys
    ensures |r| == |ids|
    ensures forall x :: x in r <==> x in ids
    ensures forall i, j :: 0 <= i < j < |r| ==> r[i] != r[j]
    ensures Sorted(rows, r, byCompleted)
    decreases |ids|
  {
    if ids == {} then []
    else
      LeastExists(rows, ids, byCompleted);
      var m :| m in ids && forall x :: x in ids ==> Precedes(rows[m], rows[x], byCompleted);
      var rest := OrderedIds(rows, ids - {m}, byCompleted);
      SortedCons(rows, m, rest, ids - {m}, byCompleted);
      [m] + rest
  }

  lemma SortedCons(rows: TaskTable, m: TaskId, rest: seq<TaskId>, others: set<TaskId>, byCompleted: bool)
    requires m in rows && others <= rows.Keys
    requires forall x :: x in rest <==> x in others
    requires forall i, j :: 0 <= i < j < |rest| ==> rest[i] != rest[j]
    requires Sorted(rows, rest, byCompleted)
    requires forall x :: x in others ==> Precedes(rows[m], rows[x], byCompleted)
    requires m !in others
    ensures forall i, j :: 0 <= i < j < |[m] + rest| ==> ([m] + rest)[i] != ([m] + rest)[j]
    ensures Sorted(rows, [m] + rest, byCompleted)
  {
    var r := [m] + rest;
    forall i, j | 0 <= i < j < |r|
      ensures r[i] != r[j] && Precedes(rows[r[i]], rows[r[j]], byCompleted)
    {
      assert r[j] == rest[j - 1];
      if i > 0 {
        assert r[i] == rest[i - 1];
      } else {
        assert rest[j - 1] in others;
      }
    }
  }

  /** `if search_term: tasks = tasks.filter(title__icontains=search_term)`; an empty term filters nothing. */
  ghost predicate MatchesSearch(title: string, search: Option<string>) {
    search.None? || search.value == "" || ContainsIgnoringCase(title, search.value)
  }

  /** `GenericTaskView.get_queryset`: the user's active tasks matching the search, by priority. */
  ghost function ActiveListing(rows: TaskTable, u: UserId, search: Option<string>): (r: seq<TaskId>)
    ensures forall id :: id in r <==> id in rows && ActiveOf(rows[id], u) && MatchesSearch(rows[id].title, search)
    ensures forall i, j :: 0 <= i < j < |r| ==> r[i] != r[j]
    ensures forall i, j :: 0 <= i < j < |r| ==> rows[r[i]].priority <= rows[r[j]].priority
  {
    var r := OrderedIds(rows, set id | id in rows && ActiveOf(rows[id], u) && MatchesSearch(rows[id].title, search), false);
    assert forall i, j :: 0 <= i < j < |r| ==> Precedes(rows[r[i]], rows[r[j]], false);
    r
  }

  /** The context of the "all tasks" page. */
  datatype AllTasksPage = AllTasksPage(
    allTasks: seq<TaskId>,
    tasks: seq<TaskId>,
    completedTasks: seq<TaskId>,
    completedCount: nat,
    allCount: nat)

  ghost function NotDeleted(rows: TaskTable, u: UserId): set<TaskId> {
    set id | id in rows && !rows[id].deleted && rows[id].owner == Some(u)
  }

  ghost function CompletedIds(rows: TaskTable, u: UserId): set<TaskId> {
    set id | id in rows && rows[id].completed && rows[id].owner == Some(u)
  }

  ghost function CompletedNotDeleted(rows: TaskTable, u: UserId): set<TaskId> {
    set id | id in rows && !rows[id].deleted && rows[id].completed && rows[id].owner == Some(u)
  }

  /** The user's non-deleted tasks split into active and completed ones. */
  lemma CountSplit(rows: TaskTable, u: UserId)
    ensures |NotDeleted(rows, u)| == |ActiveIds(rows, u)| + |CompletedNotDeleted(rows, u)|
    ensures |CompletedNotDeleted(rows, u)| <= |CompletedIds(rows, u)|
  {
    var all, active, done, doneAll := NotDeleted(rows, u), ActiveIds(rows, u), CompletedNotDeleted(rows, u), CompletedIds(rows, u);
    assert all == active + done && active * done == {};
    assert doneAll == done + (doneAll - done) && done * (doneAll - done) == {};
  }

  /**
   * `GenericAllTaskView.get_queryset` and `get_context_data`: the user's
   * non-deleted tasks by `('completed', 'priority')`, the active listing, the
   * user's completed tasks by priority, and the two counts of the
   * non-deleted tasks.
   */
  ghost function AllTasksContext(rows: TaskTable, u: UserId): (page: AllTasksPage)
    ensures forall id :: id in page.allTasks <==> id in NotDeleted(rows, u)
    ensures forall k :: 0 <= k < |page.allTasks| ==> page.allTasks[k] in rows
    ensures forall i, j :: 0 <= i < j < |page.allTasks| ==> page.allTasks[i] != page.allTasks[j]
    ensures forall i, j :: 0 <= i < j < |page.allTasks| ==>
      (rows[page.allTasks[i]].completed ==> rows[page.allTasks[j]].completed)
    ensures forall i, j :: (0 <= i < j < |page.allTasks| &&
      rows[page.allTasks[i]].completed == rows[page.allTasks[j]].completed) ==>
      rows[page.allTasks[i]].priority <= rows[page.allTasks[j]].priority
    ensures page.tasks == ActiveListing(rows, u, None)
    ensures forall id :: id in page.completedTasks <==> id in rows && rows[id].completed && rows[id].owner == Some(u)
    ensures forall k :: 0 <= k < |page.completedTasks| ==> page.completedTasks[k] in rows
    ensures forall i, j :: 0 <= i < j < |page.completedTasks| ==> page.completedTasks[i] != page.completedTasks[j]
    ensures forall i, j :: 0 <= i < j < |page.completedTasks| ==>
      rows[page.completedTasks[i]].priority <= rows[page.completedTasks[j]].priority
    ensures page.allCount == |page.allTasks| == |NotDeleted(rows, u)|
    ensures page.completedCount == |CompletedNotDeleted(rows, u)|
    ensures page.allCount == |page.tasks| + page.completedCount
    ensures page.completedCount <= |page.completedTasks|
  {
    var allTasks := OrderedIds(rows, NotDeleted(rows, u), true);
    var tasks := ActiveListing(rows, u, None);
    var completedTasks := OrderedIds(rows, CompletedIds(rows, u), false);
    AllTasksOrder(rows, allTasks);
    ByPriority(rows, completedTasks);
    SetOfListing(tasks, ActiveIds(rows, u));
    CountSplit(rows, u);
    AllTasksPage(allTasks, tasks, completedTasks, |CompletedNotDeleted(rows, u)|, |allTasks|)
  }

  /**
   * `GenericTaskCompleteListView.get_queryset`: the user's completed,
   * non-deleted tasks by priority.
   */
  ghost function CompletedListing(rows: TaskTable, u: UserId): (r: seq<TaskId>)
    ensures forall id :: id in r <==> id in rows && rows[id].completed && !rows[id].deleted && rows[id].owner == Some(u)
    ensures forall i, j :: 0 <= i < j < |r| ==> r[i] != r[j]
    ensures forall i, j :: 0 <= i < j < |r| ==> rows[r[i]].priority <= rows[r[j]].priority
    ensures |r| == AllTasksContext(rows, u).completedCount
  {
    var r := OrderedIds(rows, CompletedNotDeleted(rows, u), false);
    ByPriority(rows, r);
    r
  }

  /** Without the completed key, list order is priority order. */
  lemma ByPriority(rows: TaskTable, r: seq<TaskId>)
    requires forall k :: 0 <= k < |r| ==> r[k] in rows
    requires Sorted(rows, r, false)
    ensures forall i, j :: 0 <= i < j < |r| ==> rows[r[i]].priority <= rows[r[j]].priority
  {
    forall i, j | 0 <= i < j < |r|
      ensures rows[r[i]].priority <= rows[r[j]].priority
    {
      assert Precedes(rows[r[i]], rows[r[j]], false);
    }
  }

  lemma AllTasksOrder(rows: TaskTable, r: seq<TaskId>)
    requires forall k :: 0 <= k < |r| ==> r[k] in rows
    requires Sorted(rows, r, true)
    ensures forall i, j :: 0 <= i < j < |r| ==> (rows[r[i]].completed ==> rows[r[j]].completed)
    ensures forall i, j :: (0 <= i < j < |r| && rows[r[i]].completed == rows[r[j]].completed) ==>
      rows[r[i]].priority <= rows[r[j]].priority
  {
    forall i, j | 0 <= i < j < |r|
      ensures rows[r[i]].completed ==> rows[r[j]].completed
      ensures rows[r[i]].completed == rows[r[j]].completed ==> rows[r[i]].priority <= rows[r[j]].priority
    {
      assert Precedes(rows[r[i]], rows[r[j]], true);
    }
  }

  /** A duplicate-free listing has as many entries as the set it lists. */
  lemma {:induction false} SetOfListing(r: seq<TaskId>, s: set<TaskId>)
    requires forall x :: x in r <==> x in s
    requires forall i, j :: 0 <= i < j < |r| ==> r[i] != r[j]
    ensures |r| == |s|
  {
    if r != [] {
      var rest := r[1..];
      assert forall x :: x in rest <==> x in s - {r[0]};
      SetOfListing(rest, s - {r[0]});
    }
  }

  /**
   * A task created through the form, whose title was upper-cased, is found
   * by searching for the title as typed, in any case.
   */
  lemma CreatedTitleIsFound(rows: TaskTable, u: UserId, id: TaskId, typed: string)
    requires id in rows && ActiveOf(rows[id], u) && rows[id].title == Upper(typed)
    ensures id in ActiveListing(rows, u, Some(typed))
  {
    UpperContainsOriginal(typed);
  }

  /** After a soft delete or a completion the task is no longer listed. */
  lemma RetiredTaskIsNotListed(rows: TaskTable, u: UserId, id: TaskId, search: Option<string>)
    requires id in rows && (rows[id].deleted || rows[id].completed)
    ensures id !in ActiveListing(rows, u, search)
  {
  }
}
