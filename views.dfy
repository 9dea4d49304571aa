/**
 * The task views: the create and update forms with their priority cascade,
 * the title check, soft delete and completion, the session counter and the
 * report-time form. Each request is one sequential step on the tables.
 */
module Views {
  import opened Wrappers
  import opened Strings
  import opened Models
  import opened Signals
  import opened Priority
  import opened Store
  import Listing
  import Reports

  /** The fields `TaskCreateForm` posts. */
  datatype TaskForm = TaskForm(title: string, description: string, priority: nat, completed: bool, status: Status)

  /** What a view answers: a redirect to the list, a 404, or the form again with its error. */
  datatype Response = Redirect | NotFound | FormInvalid(error: string)

  const TitleTooShort := "Data too small"

  /**
   * `TaskCreateForm.clean_title`: a title shorter than five characters is
   * rejected; an accepted one comes back upper-cased, of the same length and
   * equal to the typed title when case is ignored.
   */
  function CleanTitle(title: string): (r: Result<string, string>)
    ensures r.Success? <==> |title| >= 5
    ensures r.Failure? ==> r.error == TitleTooShort
    ensures r.Success? ==> r.value == Upper(title)
    ensures r.Success? ==> |r.value| == |title| && Fold(r.value) == Fold(title) && Upper(r.value) == r.value
  {
    if |title| < 5 then Failure(TitleTooShort)
    else
      FoldUpper(title);
      UpperIdempotent(title);
      Success(Upper(title))
  }

  /** Cleaning an accepted title again accepts it and changes nothing. */
  lemma CleanTitleIdempotent(title: string)
    requires CleanTitle(title).Success?
    ensures CleanTitle(CleanTitle(title).value) == CleanTitle(title)
  {
  }

  // ----- create -----

  /** The unsaved instance `form.save()` builds on create: model defaults plus the posted fields. */
  function FormInstance(f: TaskForm, now: int): (t: Task)
    ensures !t.deleted && t.owner == None && t.createdDate == now
    ensures t.title == f.title && t.description == f.description && t.priority == f.priority
    ensures t.completed == f.completed && t.status == f.status
  {
    DefaultTask(f.title, f.description, now).(completed := f.completed, priority := f.priority, status := f.status)
  }

  /**
   * The table after a create of form `f` (title already cleaned) that received
   * the fresh id `id`: the new row holds the posted fields and belongs to `u`,
   * and rows other than the user's active tasks are left as they were.
   */
  ghost function CreateResult(rows: TaskTable, u: UserId, f: TaskForm, now: int, id: TaskId): (r: TaskTable)
    ensures r.Keys == rows.Keys + {id}
    ensures r[id] == FormInstance(f, now).(owner := Some(u))
    ensures forall k :: k in rows && k != id && !ActiveOf(rows[k], u) ==> r[k] == rows[k]
  {
    Cascade(rows, u, f.priority)[id := FormInstance(f, now).(owner := Some(u))]
  }

  /** When no active task of the user holds the requested priority, no stored task moves. */
  lemma CreateWhenTargetFree(rows: TaskTable, u: UserId, f: TaskForm, now: int, id: TaskId)
    requires id !in rows && !Occupied(rows, u, f.priority)
    ensures CreateResult(rows, u, f, now, id).Keys == rows.Keys + {id}
    ensures forall k :: k in rows ==> CreateResult(rows, u, f, now, id)[k] == rows[k]
    ensures CreateResult(rows, u, f, now, id)[id].priority == f.priority
    ensures CreateResult(rows, u, f, now, id)[id].owner == Some(u)
  {
  }

  /**
   * When the requested priority is taken, the first free value above it lies
   * strictly higher; exactly the user's active tasks in the block from `p` up
   * to that gap move up by one, and the new task takes `p`.
   */
  lemma CreateWhenTargetTaken(rows: TaskTable, u: UserId, f: TaskForm, now: int, id: TaskId)
    requires id !in rows && Occupied(rows, u, f.priority)
    ensures FirstFree(rows, u, f.priority) > f.priority
    ensures CreateResult(rows, u, f, now, id).Keys == rows.Keys + {id}
    ensures forall k :: k in rows ==>
      CreateResult(rows, u, f, now, id)[k] ==
        (if ActiveOf(rows[k], u) && f.priority <= rows[k].priority < FirstFree(rows, u, f.priority)
         then rows[k].(priority := rows[k].priority + 1)
         else rows[k])
    ensures CreateResult(rows, u, f, now, id)[id].priority == f.priority
  {
    GapInRangeIsHarmless(rows, u, f.priority);
    forall k | k in rows
      ensures CreateResult(rows, u, f, now, id)[k] ==
        if ActiveOf(rows[k], u) && f.priority <= rows[k].priority < FirstFree(rows, u, f.priority)
        then rows[k].(priority := rows[k].priority + 1)
        else rows[k]
    {
      CascadeEffect(rows, u, f.priority, k);
    }
  }

  /** Writing `e` at `id` keeps priorities distinct when no other active task of `w` holds `e`'s priority. */
  lemma PlaceKeepsDistinct(base: TaskTable, id: TaskId, e: Task, w: UserId)
    requires DistinctActive(base, w)
    requires ActiveOf(e, w) ==> forall b :: b in base && b != id && ActiveOf(base[b], w) ==> base[b].priority != e.priority
    ensures DistinctActive(base[id := e], w)
  {
  }

  /** A create keeps every user's active priorities pairwise distinct. */
  lemma CreateKeepsDistinct(rows: TaskTable, u: UserId, f: TaskForm, now: int, id: TaskId, w: UserId)
    requires DistinctActive(rows, w)
    ensures DistinctActive(CreateResult(rows, u, f, now, id), w)
  {
    var base := Cascade(rows, u, f.priority);
    var e := FormInstance(f, now).(owner := Some(u));
    CascadeKeepsDistinct(rows, u, f.priority, w);
    CascadeFreesTarget(rows, u, f.priority);
    forall b | b in base && b != id && ActiveOf(base[b], w) && ActiveOf(e, w)
      ensures base[b].priority != e.priority
    {
      HolderOccupies(base, u, b);
    }
    PlaceKeepsDistinct(base, id, e, w);
  }

  // ----- update -----

  /** `AuthorizedTaskManager.get_queryset`: the object exists, is not deleted and belongs to the user. */
  predicate Visible(rows: TaskTable, u: UserId, id: TaskId)
    ensures Visible(rows, u, id) <==> id in Listing.NotDeleted(rows, u)
  {
    id in rows && !rows[id].deleted && rows[id].owner == Some(u)
  }

  /** The loaded object with the form's fields written over it by `form.save()`. */
  function Edited(obj: Task, f: TaskForm): (t: Task)
    ensures t.title == f.title && t.description == f.description && t.priority == f.priority
    ensures t.completed == f.completed && t.status == f.status
    ensures t.deleted == obj.deleted && t.owner == obj.owner && t.createdDate == obj.createdDate
  {
    obj.(title := f.title, description := f.description, priority := f.priority,
         completed := f.completed, status := f.status)
  }

  /** `'priority' in form.changed_data`: the posted priority differs from the loaded one. */
  predicate PriorityChanged(obj: Task, f: TaskForm) {
    f.priority != obj.priority
  }

  /** The form unchecks `completed` on a completed task, making it active again. */
  predicate Reactivates(obj: Task, f: TaskForm) {
    obj.completed && !f.completed
  }

  /**
   * The table after an update of visible task `id` with form `f` (title
   * already cleaned), as written: `id` holds the edited object owned by `u`,
   * and rows other than the user's active tasks are left as they were.
   */
  ghost function UpdateResult(rows: TaskTable, u: UserId, id: TaskId, f: TaskForm): (r: TaskTable)
    requires id in rows
    ensures r.Keys == rows.Keys
    ensures r[id] == Edited(rows[id], f).(owner := Some(u))
    ensures forall k :: k in rows && k != id && !ActiveOf(rows[k], u) ==> r[k] == rows[k]
    ensures !PriorityChanged(rows[id], f) ==> forall k :: k in rows && k != id ==> r[k] == rows[k]
  {
    var base := if PriorityChanged(rows[id], f) then Cascade(rows, u, f.priority) else rows;
    base[id := Edited(rows[id], f).(owner := Some(u))]
  }

  /**
   * The edited task ends at exactly the posted priority, even though the scan
   * counted it and the bulk update may have moved it; the other rows move only
   * when the priority changed, and then only in the occupied block.
   */
  lemma UpdateEffect(rows: TaskTable, u: UserId, id: TaskId, f: TaskForm)
    requires Visible(rows, u, id)
    ensures UpdateResult(rows, u, id, f).Keys == rows.Keys
    ensures UpdateResult(rows, u, id, f)[id] == Edited(rows[id], f)
    ensures UpdateResult(rows, u, id, f)[id].priority == f.priority
    ensures forall k :: k in rows && k != id ==>
      UpdateResult(rows, u, id, f)[k] ==
        (if PriorityChanged(rows[id], f) && Occupied(rows, u, f.priority) && ActiveOf(rows[k], u)
            && f.priority <= rows[k].priority < FirstFree(rows, u, f.priority)
         then rows[k].(priority := rows[k].priority + 1)
         else rows[k])
  {
    forall k | k in rows && k != id
      ensures UpdateResult(rows, u, id, f)[k] ==
        if PriorityChanged(rows[id], f) && Occupied(rows, u, f.priority) && ActiveOf(rows[k], u)
           && f.priority <= rows[k].priority < FirstFree(rows, u, f.priority)
        then rows[k].(priority := rows[k].priority + 1)
        else rows[k]
    {
      CascadeEffect(rows, u, f.priority, k);
    }
  }

  /** An update that keeps the priority moves no other task. */
  lemma UpdateWithoutPriorityChange(rows: TaskTable, u: UserId, id: TaskId, f: TaskForm)
    requires Visible(rows, u, id) && !PriorityChanged(rows[id], f)
    ensures UpdateResult(rows, u, id, f) == rows[id := Edited(rows[id], f)]
  {
  }

  /**
   * An update keeps every user's active priorities distinct, except when it
   * reactivates a completed task without changing its priority.
   */
  lemma UpdateKeepsDistinct(rows: TaskTable, u: UserId, id: TaskId, f: TaskForm, w: UserId)
    requires Visible(rows, u, id) && DistinctActive(rows, w)
    requires !(Reactivates(rows[id], f) && !PriorityChanged(rows[id], f))
    ensures DistinctActive(UpdateResult(rows, u, id, f), w)
  {
    var e := Edited(rows[id], f).(owner := Some(u));
    if PriorityChanged(rows[id], f) {
      var base := Cascade(rows, u, f.priority);
      CascadeKeepsDistinct(rows, u, f.priority, w);
      CascadeFreesTarget(rows, u, f.priority);
      forall b | b in base && b != id && ActiveOf(base[b], w) && ActiveOf(e, w)
        ensures base[b].priority != e.priority
      {
        HolderOccupies(base, u, b);
      }
      PlaceKeepsDistinct(base, id, e, w);
    } else {
      PlaceKeepsDistinct(rows, id, e, w);
    }
  }

  /**
   * The gap the cascade leaves open: task 1 is completed at priority 1 while
   * task 0 is active there; unchecking `completed` on task 1 without touching
   * its priority skips the cascade and leaves two active tasks at priority 1.
   */
  lemma ReactivatingUpdateCollides()
    ensures var a := Task("FIRST", "", false, 0, false, Some(7), 1, Pending);
      var rows := map[0 := a, 1 := a.(title := "SECOND", completed := true)];
      var f := TaskForm("SECOND", "", 1, false, Pending);
      Visible(rows, 7, 1) && DistinctActive(rows, 7) && !DistinctActive(UpdateResult(rows, 7, 1, f), 7)
  {
    var a := Task("FIRST", "", false, 0, false, Some(7), 1, Pending);
    var rows := map[0 := a, 1 := a.(title := "SECOND", completed := true)];
    var f := TaskForm("SECOND", "", 1, false, Pending);
    var r := UpdateResult(rows, 7, 1, f);
    assert r[0] == a && r[1].priority == 1 && ActiveOf(r[1], 7);
  }

  /**
   * The update with the cascade also run when the form reactivates a
   * completed task; it differs from `UpdateResult` only in that case.
   */
  ghost function CorrectedUpdateResult(rows: TaskTable, u: UserId, id: TaskId, f: TaskForm): (r: TaskTable)
    requires id in rows
    ensures r.Keys == rows.Keys
    ensures r[id] == Edited(rows[id], f).(owner := Some(u))
    ensures forall k :: k in rows && k != id && !ActiveOf(rows[k], u) ==> r[k] == rows[k]
    ensures !Reactivates(rows[id], f) ==> r == UpdateResult(rows, u, id, f)
  {
    var base := if PriorityChanged(rows[id], f) || Reactivates(rows[id], f) then Cascade(rows, u, f.priority) else rows;
    base[id := Edited(rows[id], f).(owner := Some(u))]
  }

  /** The corrected update keeps every user's active priorities distinct, for every form. */
  lemma CorrectedUpdateKeepsDistinct(rows: TaskTable, u: UserId, id: TaskId, f: TaskForm, w: UserId)
    requires Visible(rows, u, id) && DistinctActive(rows, w)
    ensures DistinctActive(CorrectedUpdateResult(rows, u, id, f), w)
  {
    var e := Edited(rows[id], f).(owner := Some(u));
    if PriorityChanged(rows[id], f) || Reactivates(rows[id], f) {
      var base := Cascade(rows, u, f.priority);
      CascadeKeepsDistinct(rows, u, f.priority, w);
      CascadeFreesTarget(rows, u, f.priority);
      forall b | b in base && b != id && ActiveOf(base[b], w) && ActiveOf(e, w)
        ensures base[b].priority != e.priority
      {
        HolderOccupies(base, u, b);
      }
      PlaceKeepsDistinct(base, id, e, w);
    } else {
      PlaceKeepsDistinct(rows, id, e, w);
    }
  }

  /** The corrected update agrees with the code as written on every other form. */
  lemma CorrectedUpdateAgrees(rows: TaskTable, u: UserId, id: TaskId, f: TaskForm)
    requires id in rows && !(Reactivates(rows[id], f) && !PriorityChanged(rows[id], f))
    ensures CorrectedUpdateResult(rows, u, id, f) == UpdateResult(rows, u, id, f)
  {
  }

  /**
   * Tasks at priorities 1, 2 and 4; task 2 is moved to priority 1. The scan
   * finds the gap at 3, task 1 moves to 2, task 2 lands on 1, task 4 stays.
   */
  lemma UpdateCascadeWithGap()
    ensures var t := Task("ABCDEFG1", "test", false, 0, false, Some(7), 1, Pending);
      var rows := map[1 := t, 2 := t.(title := "ABCDEFG2", priority := 2), 3 := t.(title := "ABCDEFG4", priority := 4)];
      var r := UpdateResult(rows, 7, 2, TaskForm("ABCDEFG2", "test", 1, false, Pending));
      r[1].priority == 2 && r[2].priority == 1 && r[3].priority == 4
  {
    var t := Task("ABCDEFG1", "test", false, 0, false, Some(7), 1, Pending);
    var rows := map[1 := t, 2 := t.(title := "ABCDEFG2", priority := 2), 3 := t.(title := "ABCDEFG4", priority := 4)];
    assert 1 in Holders(rows, 7, 1);
    assert 2 in Holders(rows, 7, 2);
    assert Holders(rows, 7, 3) == {} by {
      assert forall id :: id in rows ==> rows[id].priority != 3;
    }
    FirstFreeIsLeast(rows, 7, 1, 2);
    CascadeEffect(rows, 7, 1, 1);
    CascadeEffect(rows, 7, 1, 3);
  }

  // ----- the view methods -----

  /**
   * `GenericTaskCreateView.form_valid` after `clean_title`: the cascade, then
   * `form.save()` and the second save that sets the owner. Neither save
   * records a status change: the first inserts, the second keeps the status.
   */
  method CreateTaskView(db: TaskDb, u: UserId, f: TaskForm, now: int) returns (r: Result<TaskId, string>)
    requires db.Valid()
    modifies db
    ensures db.Valid()
    ensures r.Failure? <==> CleanTitle(f.title).Failure?
    ensures r.Failure? ==> r.error == TitleTooShort && db.rows == old(db.rows) && db.history == old(db.history)
    ensures r.Success? ==>
      r.value !in old(db.rows) && db.history == old(db.history) &&
      db.rows == CreateResult(old(db.rows), u, f.(title := CleanTitle(f.title).value), now, r.value)
  {
    var title := CleanTitle(f.title);
    if title.Failure? {
      return Failure(title.error);
    }
    var cf := f.(title := title.value);
    var p := cf.priority;
    ghost var base := Cascade(db.rows, u, p);
    if Occupied(db.rows, u, p) {
      var i := ScanForGap(db.rows, u, p);
      db.BumpPriorities(u, p, p + i);
    }
    assert db.rows == base;
    var obj := FormInstance(cf, now);
    var id := db.Save(None, obj, now);
    ghost var placed := db.rows;
    id := db.Save(Some(id), obj.(owner := Some(u)), now);
    assert db.rows == placed[id := obj.(owner := Some(u))] == base[id := obj.(owner := Some(u))];
    r := Success(id);
  }

  /**
   * `GenericTaskUpdateView`: a 404 unless the task is visible to the user,
   * the form again when the title is too short, otherwise the cascade (only
   * when the priority changed) and the two saves of the loaded object. The
   * history gains the record of the first save, if the status changed.
   */
  method UpdateTaskView(db: TaskDb, u: UserId, id: TaskId, f: TaskForm, now: int) returns (resp: Response)
    requires db.Valid()
    modifies db
    ensures db.Valid()
    ensures !Visible(old(db.rows), u, id) ==> resp == NotFound && db.rows == old(db.rows) && db.history == old(db.history)
    ensures Visible(old(db.rows), u, id) && CleanTitle(f.title).Failure? ==>
      resp == FormInvalid(TitleTooShort) && db.rows == old(db.rows) && db.history == old(db.history)
    ensures Visible(old(db.rows), u, id) && CleanTitle(f.title).Success? ==>
      resp == Redirect &&
      db.rows == UpdateResult(old(db.rows), u, id, f.(title := CleanTitle(f.title).value)) &&
      db.history == old(db.history) + HookRecords(old(db.rows), Some(id), f.status, now)
  {
    if !Visible(db.rows, u, id) {
      return NotFound;
    }
    var obj := db.rows[id];
    var title := CleanTitle(f.title);
    if title.Failure? {
      return FormInvalid(title.error);
    }
    var cf := f.(title := title.value);
    ghost var before := db.rows;
    ghost var base := if PriorityChanged(obj, cf) then Cascade(before, u, cf.priority) else before;
    if PriorityChanged(obj, cf) && Occupied(db.rows, u, cf.priority) {
      var i := ScanForGap(db.rows, u, cf.priority);
      db.BumpPriorities(u, cf.priority, cf.priority + i);
    }
    assert db.rows == base;
    assert base[id].status == before[id].status;
    var saved := Edited(obj, cf);
    var first := db.Save(Some(id), saved, now);
    var second := db.Save(Some(id), saved.(owner := Some(u)), now);
    assert db.rows == base[id := saved][id := saved.(owner := Some(u))];
    assert db.rows == base[id := saved.(owner := Some(u))];
    resp := Redirect;
  }

  /** The integrity error SQLite reports on saving a task whose title is null. */
  const NullTitle := "NOT NULL constraint failed: tasks_task.title"

  /**
   * `add_task_view`: stores `Task(title=…)` from the `task` query parameter
   * as it is, with no title check, no cascade and no owner. Without the
   * parameter the title is null and the save fails.
   */
  method AddTaskView(db: TaskDb, task: Option<string>, now: int) returns (r: Result<TaskId, string>)
    requires db.Valid()
    modifies db
    ensures db.Valid()
    ensures task.None? ==> r == Failure(NullTitle) && db.rows == old(db.rows) && db.history == old(db.history)
    ensures task.Some? ==>
      r.Success? && r.value !in old(db.rows) && db.history == old(db.history) &&
      db.rows == old(db.rows)[r.value := DefaultTask(task.value, "", now)]
  {
    if task.None? {
      return Failure(NullTitle);
    }
    var id := db.Save(None, DefaultTask(task.value, "", now), now);
    r := Success(id);
  }

  /**
   * A task stored without an owner is nobody's: every user keeps the same
   * active tasks, so their priorities stay distinct, and no listing shows it.
   */
  lemma OwnerlessAddIsInvisible(rows: TaskTable, id: TaskId, t: Task, w: UserId, search: Option<string>)
    requires id !in rows && t.owner == None
    ensures ActiveIds(rows[id := t], w) == ActiveIds(rows, w)
    ensures DistinctActive(rows, w) ==> DistinctActive(rows[id := t], w)
    ensures id !in Listing.ActiveListing(rows[id := t], w, search)
  {
  }

  /** `GenericTaskDeleteView.form_valid`: the soft delete of a visible task. */
  method DeleteTaskView(db: TaskDb, u: UserId, id: TaskId) returns (resp: Response)
    requires db.Valid()
    modifies db
    ensures db.Valid()
    ensures resp == (if Visible(old(db.rows), u, id) then Redirect else NotFound)
    ensures db.rows == (if Visible(old(db.rows), u, id) then WithDeleted(old(db.rows), id) else old(db.rows))
    ensures db.history == old(db.history)
  {
    if !Visible(db.rows, u, id) {
      return NotFound;
    }
    db.MarkDeleted(id);
    resp := Redirect;
  }

  /** `GenericTaskCompleteView.form_valid`: the bulk `completed = True` of a visible task. */
  method CompleteTaskView(db: TaskDb, u: UserId, id: TaskId) returns (resp: Response)
    requires db.Valid()
    modifies db
    ensures db.Valid()
    ensures resp == (if Visible(old(db.rows), u, id) then Redirect else NotFound)
    ensures db.rows == (if Visible(old(db.rows), u, id) then WithCompleted(old(db.rows), id) else old(db.rows))
    ensures db.history == old(db.history)
  {
    if !Visible(db.rows, u, id) {
      return NotFound;
    }
    db.MarkCompleted(id);
    resp := Redirect;
  }

  /**
   * `GenericTaskCompleteUpdateView.form_valid`: whatever `completed` was
   * posted, the second save stores it as true; the status is untouched, so
   * no change is recorded.
   */
  method CompleteUpdateTaskView(db: TaskDb, u: UserId, id: TaskId, posted: bool, now: int) returns (resp: Response)
    requires db.Valid()
    modifies db
    ensures db.Valid()
    ensures resp == (if Visible(old(db.rows), u, id) then Redirect else NotFound)
    ensures db.rows == (if Visible(old(db.rows), u, id) then WithCompleted(old(db.rows), id) else old(db.rows))
    ensures db.history == old(db.history)
  {
    if !Visible(db.rows, u, id) {
      return NotFound;
    }
    var obj := db.rows[id].(completed := posted);
    var first := db.Save(Some(id), obj, now);
    var second := db.Save(Some(id), obj.(completed := true), now);
    resp := Redirect;
  }

  // ----- session counter -----

  /** The request's session store. */
  class Session {
    var data: map<string, int>

    constructor ()
      ensures data == map[]
    {
      data := map[];
    }
  }

  const TotalViewsKey := "total_views"

  /** `session.get('total_views', 0)`. */
  function ViewsSoFar(data: map<string, int>): (n: int)
    ensures TotalViewsKey !in data ==> n == 0
    ensures TotalViewsKey in data ==> n == data[TotalViewsKey]
  {
    if TotalViewsKey in data then data[TotalViewsKey] else 0
  }

  function SessionBody(views: int, user: string): string {
    "Total views is " + IntToString(views) + " and the user id is " + user
  }

  /** `session_storage_view`: shows the count so far and stores it plus one. */
  method SessionStorageView(session: Session, user: string) returns (body: string)
    modifies session
    ensures session.data == old(session.data)[TotalViewsKey := ViewsSoFar(old(session.data)) + 1]
    ensures body == SessionBody(ViewsSoFar(old(session.data)), user)
  {
    var views := if TotalViewsKey in session.data then session.data[TotalViewsKey] else 0;
    session.data := session.data[TotalViewsKey := views + 1];
    body := "Total views is " + IntToString(views) + " and the user id is " + user;
  }

  /** Two requests in a fresh session show the counts 0 and then 1. */
  method SessionTwice(user: string) returns (first: string, second: string)
    ensures first == SessionBody(0, user) && second == SessionBody(1, user)
  {
    var session := new Session();
    first := SessionStorageView(session, user);
    second := SessionStorageView(session, user);
  }

  // ----- report time -----

  /** `ReportConfig.objects.filter(user=u).first()`, as a position in id order. */
  function FirstConfigOf(cs: seq<ReportConfig>, u: UserId): (r: Option<nat>)
    ensures r.Some? ==> r.value < |cs| && cs[r.value].user == Some(u)
    ensures r.Some? ==> forall j :: 0 <= j < r.value ==> cs[j].user != Some(u)
    ensures r.None? <==> forall j :: 0 <= j < |cs| ==> cs[j].user != Some(u)
  {
    if cs == [] then None
    else if cs[0].user == Some(u) then Some(0)
    else
      var rest := FirstConfigOf(cs[1..], u);
      assert forall j :: 1 <= j < |cs| ==> cs[j] == cs[1..][j - 1];
      if rest.None? then None else Some(rest.value + 1)
  }

  /**
   * The configurations after the report form saves `time` for user `u`: the
   * user's first configuration now holds `time`, a new one is appended only
   * when the user had none, and every other row is kept.
   */
  function SavedReport(cs: seq<ReportConfig>, u: UserId, time: TimeOfDay): (r: seq<ReportConfig>)
    ensures |r| == if FirstConfigOf(cs, u).None? then |cs| + 1 else |cs|
    ensures FirstConfigOf(r, u).Some? && r[FirstConfigOf(r, u).value].time == time
    ensures forall j :: 0 <= j < |cs| && cs[j].user != Some(u) ==> r[j] == cs[j]
  {
    match FirstConfigOf(cs, u)
    case Some(k) =>
      var r := cs[k := cs[k].(time := time, user := Some(u))];
      assert r[k].user == Some(u) && forall j :: 0 <= j < k ==> r[j] == cs[j];
      r
    case None =>
      var r := cs + [ReportConfig(Some(u), time, None)];
      assert r[|cs|].user == Some(u) && forall j :: 0 <= j < |cs| ==> r[j] == cs[j];
      r
  }

  /**
   * Saving the report form leaves exactly one configuration for the user,
   * holding the posted time, and keeps at most one per user; the other
   * users' configurations are untouched.
   */
  lemma SavedReportKeepsOnePerUser(cs: seq<ReportConfig>, u: UserId, time: TimeOfDay)
    requires OnePerUser(cs)
    ensures var r := SavedReport(cs, u, time);
      OnePerUser(r) &&
      FirstConfigOf(r, u).Some? && r[FirstConfigOf(r, u).value].time == time &&
      (forall j :: 0 <= j < |r| && r[j].user == Some(u) ==> j == FirstConfigOf(r, u).value) &&
      (forall j :: 0 <= j < |cs| && cs[j].user != Some(u) ==> r[j] == cs[j])
  {
    var r := SavedReport(cs, u, time);
    match FirstConfigOf(cs, u)
    case Some(k) =>
      assert r[k].user == Some(u);
      assert forall j :: 0 <= j < k ==> r[j] == cs[j];
    case None =>
      assert r[|cs|].user == Some(u);
      assert forall j :: 0 <= j < |cs| ==> r[j] == cs[j];
  }

  /** `GenericReportUpdateView`: the user's first configuration, or a new one, saved with the posted time. */
  method ReportUpdateView(store: Reports.ReportStore, u: UserId, time: TimeOfDay)
    modifies store
    ensures store.configs == SavedReport(old(store.configs), u, time)
    ensures store.notifications == old(store.notifications)
  {
    var found := FirstConfigOf(store.configs, u);
    if found.Some? {
      var k := found.value;
      var obj := store.configs[k].(time := time);
      store.configs := store.configs[k := obj];
      store.configs := store.configs[k := obj.(user := Some(u))];
    } else {
      var obj := ReportConfig(None, time, None);
      store.configs := store.configs + [obj];
      store.configs := store.configs[|store.configs| - 1 := obj.(user := Some(u))];
    }
  }
}
