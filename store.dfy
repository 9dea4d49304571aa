/**
 * The task table and the status-change table, with the two ways the core
 * writes them: `Model.save()` (which runs the before-save hook) and bulk
 * queryset `.update()` calls (which do not).
 */
module Store {
  import opened Wrappers
  import opened Models
  import opened Signals
  import Priority

  class TaskDb {
    var rows: TaskTable
    var history: seq<StatusChange>
    var nextId: TaskId

    /** Ids below `nextId` are the ones handed out; the history agrees with the table. */
    ghost predicate Valid()
      reads this
    {
      (forall id :: id in rows ==> id < nextId) && Consistent(rows, history)
    }

    constructor ()
      ensures Valid() && rows == map[] && history == [] && nextId == 0
    {
      rows, history, nextId := map[], [], 0;
    }

    /** The `pre_save` receiver for tasks. */
    method OnPreSave(key: Option<TaskId>, incoming: Status, now: int)
      modifies this`history
      ensures history == old(history) + HookRecords(rows, key, incoming, now)
    {
      if key.Some? && key.value in rows {
        var stored := rows[key.value];
        if stored.status != incoming {
          history := history + [StatusChange(stored.status, incoming, now, key.value)];
        }
      }
    }

    /**
     * `instance.save()` for an instance whose primary key is `key` (None for
     * one never saved, which gets a fresh id): the hook runs first, then the
     * row is written in full.
     */
    method Save(key: Option<TaskId>, t: Task, now: int) returns (id: TaskId)
      requires Valid()
      modifies this
      ensures Valid()
      ensures key.Some? ==> id == key.value
      ensures key.None? ==> id == old(nextId) && id !in old(rows)
      ensures rows == old(rows)[id := t]
      ensures history == old(history) + HookRecords(old(rows), key, t.status, now)
    {
      OnPreSave(key, t.status, now);
      if key.Some? {
        id := key.value;
        if nextId <= id {
          nextId := id + 1;
        }
      } else {
        id := nextId;
        nextId := nextId + 1;
      }
      SaveKeepsConsistent(rows, old(history), key, id, t, now);
      rows := rows[id := t];
    }

    /** The bulk priority update of the cascade: active tasks of `u` with priority in `[lo, hi]` move up by one. */
    method BumpPriorities(u: UserId, lo: nat, hi: nat)
      requires Valid()
      modifies this`rows
      ensures Valid()
      ensures rows == Priority.Bumped(old(rows), u, lo, hi)
    {
      SameStatusKeepsConsistent(rows, Priority.Bumped(rows, u, lo, hi), history);
      rows := Priority.Bumped(rows, u, lo, hi);
    }

    /** `Task.objects.filter(id=id).update(deleted=True)`. */
    method MarkDeleted(id: TaskId)
      requires Valid()
      modifies this`rows
      ensures Valid()
      ensures rows == WithDeleted(old(rows), id)
    {
      SameStatusKeepsConsistent(rows, WithDeleted(rows, id), history);
      rows := WithDeleted(rows, id);
    }

    /** `Task.objects.filter(id=id).update(completed=True)`. */
    method MarkCompleted(id: TaskId)
      requires Valid()
      modifies this`rows
      ensures Valid()
      ensures rows == WithCompleted(old(rows), id)
    {
      SameStatusKeepsConsistent(rows, WithCompleted(rows, id), history);
      rows := WithCompleted(rows, id);
    }
  }

  /** The soft delete touches one field of one row; a missing id matches nothing. */
  function WithDeleted(rows: TaskTable, id: TaskId): (r: TaskTable)
    ensures r.Keys == rows.Keys
    ensures id in rows ==> r[id].deleted && r[id] == rows[id].(deleted := true)
    ensures forall k :: k in rows && k != id ==> r[k] == rows[k]
  {
    if id in rows then rows[id := rows[id].(deleted := true)] else rows
  }

  /** Marking complete touches one field of one row; a missing id matches nothing. */
  function WithCompleted(rows: TaskTable, id: TaskId): (r: TaskTable)
    ensures r.Keys == rows.Keys
    ensures id in rows ==> r[id].completed && r[id] == rows[id].(completed := true)
    ensures forall k :: k in rows && k != id ==> r[k] == rows[k]
  {
    if id in rows then rows[id := rows[id].(completed := true)] else rows
  }

  /** Deleting or completing a task takes it out of the active set, so distinct priorities stay distinct. */
  lemma RetiringKeepsDistinct(rows: TaskTable, id: TaskId, w: UserId)
    requires Priority.DistinctActive(rows, w)
    ensures Priority.DistinctActive(WithDeleted(rows, id), w)
    ensures Priority.DistinctActive(WithCompleted(rows, id), w)
  {
  }
}
