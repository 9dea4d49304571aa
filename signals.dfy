/**
 * The before-save hook on tasks: it re-reads the stored row and records one
 * status change when the stored status differs from the one being saved.
 */
module Signals {
  import opened Wrappers
  import opened Models

  /**
   * The records the hook appends when the instance with primary key `key`
   * (None for an instance never saved) is about to be saved with status
   * `incoming`, given the stored table `rows`.
   */
  function HookRecords(rows: TaskTable, key: Option<TaskId>, incoming: Status, now: int): (r: seq<StatusChange>)
    ensures |r| <= 1
    ensures |r| == 1 <==> key.Some? && key.value in rows && rows[key.value].status != incoming
    ensures |r| == 1 ==> r[0].task == key.value && r[0].oldStatus == rows[key.value].status
                         && r[0].newStatus == incoming && r[0].timestamp == now
  {
    if key.Some? && key.value in rows && rows[key.value].status != incoming then
      [StatusChange(rows[key.value].status, incoming, now, key.value)]
    else
      []
  }

  /**
   * Saving the same instance again right after a save records nothing: the
   * second comparison reads the row the first save wrote.
   */
  lemma SecondSaveRecordsNothing(rows: TaskTable, id: TaskId, t: Task, again: Task, now: int, later: int)
    requires again.status == t.status
    ensures HookRecords(rows[id := t], Some(id), again.status, later) == []
  {
  }

  /** No record for `h[k]`'s task comes strictly after position `k`. */
  ghost predicate LastFor(h: seq<StatusChange>, k: int)
    requires 0 <= k < |h|
  {
    forall m :: k < m < |h| ==> h[m].task != h[k].task
  }

  /** No record for `h[i]`'s task lies strictly between positions `i` and `j`. */
  ghost predicate NoneBetween(h: seq<StatusChange>, i: int, j: int)
    requires 0 <= i < |h|
  {
    forall m :: i < m < j && 0 <= m < |h| ==> h[m].task != h[i].task
  }

  /**
   * The status history agrees with the table: every record names a stored
   * task and a real transition, consecutive records of one task chain up, and
   * the last record of a task ends in its current status.
   */
  ghost predicate Consistent(rows: TaskTable, h: seq<StatusChange>) {
    && (forall k :: 0 <= k < |h| ==> h[k].task in rows && h[k].oldStatus != h[k].newStatus)
    && (forall k :: 0 <= k < |h| && LastFor(h, k) ==> h[k].newStatus == rows[h[k].task].status)
    && (forall i, j :: 0 <= i < j < |h| && h[i].task == h[j].task && NoneBetween(h, i, j) ==>
          h[i].newStatus == h[j].oldStatus)
  }

  /** One save through the hook keeps the history consistent with the table. */
  lemma {:induction false} SaveKeepsConsistent(rows: TaskTable, h: seq<StatusChange>, key: Option<TaskId>,
                                               id: TaskId, t: Task, now: int)
    requires Consistent(rows, h)
    requires key.Some? ==> id == key.value
    requires key.None? ==> id !in rows
    ensures Consistent(rows[id := t], h + HookRecords(rows, key, t.status, now))
  {
    var rec := HookRecords(rows, key, t.status, now);
    if rec == [] {
      assert h + rec == h;
      UnrecordedSaveKeepsConsistent(rows, h, id, t);
    } else {
      RecordedSaveKeepsConsistent(rows, h, id, t, now);
    }
  }

  lemma UnrecordedSaveKeepsConsistent(rows: TaskTable, h: seq<StatusChange>, id: TaskId, t: Task)
    requires Consistent(rows, h)
    requires id in rows ==> rows[id].status == t.status
    ensures Consistent(rows[id := t], h)
  {
    var rows' := rows[id := t];
    forall k | 0 <= k < |h| && LastFor(h, k)
      ensures h[k].newStatus == rows'[h[k].task].status
    {
    }
  }

  lemma RecordedSaveKeepsConsistent(rows: TaskTable, h: seq<StatusChange>, id: TaskId, t: Task, now: int)
    requires Consistent(rows, h)
    requires id in rows && rows[id].status != t.status
    ensures Consistent(rows[id := t], h + [StatusChange(rows[id].status, t.status, now, id)])
  {
    var rec := StatusChange(rows[id].status, t.status, now, id);
    var h' := h + [rec];
    var rows' := rows[id := t];
    forall k | 0 <= k < |h'|
      ensures h'[k].task in rows' && h'[k].oldStatus != h'[k].newStatus
    {
    }
    forall k | 0 <= k < |h'| && LastFor(h', k)
      ensures h'[k].newStatus == rows'[h'[k].task].status
    {
      if k < |h| {
        assert h'[|h|].task == id;
        assert h[k].task != id;
        assert forall m :: k < m < |h| ==> h[m] == h'[m];
        assert LastFor(h, k);
      }
    }
    forall i, j | 0 <= i < j < |h'| && h'[i].task == h'[j].task && NoneBetween(h', i, j)
      ensures h'[i].newStatus == h'[j].oldStatus
    {
      assert forall m :: 0 <= m < |h| ==> h[m] == h'[m];
      if j == |h| {
        assert LastFor(h, i);
      } else {
        assert NoneBetween(h, i, j);
      }
    }
  }

  /** Writes that keep every stored status (bulk flag and priority updates) keep the history consistent. */
  lemma SameStatusKeepsConsistent(rows: TaskTable, rows': TaskTable, h: seq<StatusChange>)
    requires Consistent(rows, h)
    requires rows.Keys <= rows'.Keys
    requires forall id :: id in rows ==> rows'[id].status == rows[id].status
    ensures Consistent(rows', h)
  {
  }
}
