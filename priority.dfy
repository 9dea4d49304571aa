/**
 * The priority cascade of the create and update views: scan upward from the
 * requested priority for the first value no active task of the user holds,
 * then move every active task of the user in the occupied block up by one.
 */
module Priority {
  import opened Wrappers
  import opened Models

  /** The user's active tasks at priority `v`: `filter(priority=v, deleted=False, completed=False, user=u)`. */
  function Holders(rows: TaskTable, u: UserId, v: int): set<TaskId> {
    set id | id in rows && ActiveOf(rows[id], u) && rows[id].priority == v
  }

  predicate Occupied(rows: TaskTable, u: UserId, v: int) {
    Holders(rows, u, v) != {}
  }

  /** An active task of `u` occupies its own priority. */
  lemma HolderOccupies(rows: TaskTable, u: UserId, id: TaskId)
    requires id in rows && ActiveOf(rows[id], u)
    ensures id in Holders(rows, u, rows[id].priority)
  {
  }

  ghost function ActiveFrom(rows: TaskTable, u: UserId, v: nat): set<TaskId> {
    set id | id in rows && ActiveOf(rows[id], u) && rows[id].priority >= v
  }

  /** The user's active tasks hold pairwise distinct priorities. */
  ghost predicate DistinctActive(rows: TaskTable, u: UserId) {
    forall a, b :: a in rows && b in rows && a != b && ActiveOf(rows[a], u) && ActiveOf(rows[b], u) ==>
      rows[a].priority != rows[b].priority
  }

  lemma ActiveFromShrinks(rows: TaskTable, u: UserId, v: nat)
    requires Occupied(rows, u, v)
    ensures |ActiveFrom(rows, u, v + 1)| < |ActiveFrom(rows, u, v)|
  {
    var id :| id in Holders(rows, u, v);
    var small, big := ActiveFrom(rows, u, v + 1), ActiveFrom(rows, u, v);
    assert id in big - small;
    assert big == small + (big - small);
    assert small * (big - small) == {};
  }

  /** The least value at or above `v` that no active task of `u` holds. */
  ghost function FirstFree(rows: TaskTable, u: UserId, v: nat): (g: nat)
    ensures v <= g && !Occupied(rows, u, g)
    ensures forall w :: v <= w < g ==> Occupied(rows, u, w)
    decreases |ActiveFrom(rows, u, v)|
  {
    if !Occupied(rows, u, v) then v
    else
      ActiveFromShrinks(rows, u, v);
      FirstFree(rows, u, v + 1)
  }

  /** The user's active tasks with priority in `[lo, hi)`. */
  ghost function Block(rows: TaskTable, u: UserId, lo: nat, hi: nat): set<TaskId> {
    set id | id in rows && ActiveOf(rows[id], u) && lo <= rows[id].priority < hi
  }

  lemma {:induction false} BlockSize(rows: TaskTable, u: UserId, lo: nat, n: nat)
    requires forall w :: lo <= w < lo + n ==> Occupied(rows, u, w)
    ensures |Block(rows, u, lo, lo + n)| >= n
  {
    if n > 0 {
      BlockSize(rows, u, lo, n - 1);
      var last := Holders(rows, u, lo + n - 1);
      assert Occupied(rows, u, lo + n - 1);
      assert Block(rows, u, lo, lo + n) == Block(rows, u, lo, lo + n - 1) + last;
      assert Block(rows, u, lo, lo + n - 1) * last == {};
    }
  }

  /**
   * The scan ends within one more than the number of the user's active
   * tasks: each occupied value below the gap is held by a different task.
   */
  lemma GapBound(rows: TaskTable, u: UserId, p: nat)
    ensures FirstFree(rows, u, p) - p <= |ActiveIds(rows, u)|
  {
    var g := FirstFree(rows, u, p);
    BlockSize(rows, u, p, g - p);
    var b, all := Block(rows, u, p, g), ActiveIds(rows, u);
    assert b <= all;
    assert all == b + (all - b);
    assert b * (all - b) == {};
  }

  /** The scan loop of the views: the offset of the first free value at or above `p`. */
  method ScanForGap(rows: TaskTable, u: UserId, p: nat) returns (i: nat)
    ensures !Occupied(rows, u, p + i)
    ensures forall w :: p <= w < p + i ==> Occupied(rows, u, w)
    ensures p + i == FirstFree(rows, u, p)
    ensures i <= |ActiveIds(rows, u)|
  {
    i := 0;
    var count := |Holders(rows, u, p)|;
    while true
      invariant count == |Holders(rows, u, p + i)|
      invariant forall w :: p <= w < p + i ==> Occupied(rows, u, w)
      decreases |ActiveFrom(rows, u, p + i)|
    {
      if count == 0 {
        break;
      }
      ActiveFromShrinks(rows, u, p + i);
      i := i + 1;
      count := |Holders(rows, u, p + i)|;
    }
    FirstFreeIsLeast(rows, u, p, i);
    GapBound(rows, u, p);
  }

  lemma FirstFreeIsLeast(rows: TaskTable, u: UserId, p: nat, i: nat)
    requires !Occupied(rows, u, p + i)
    requires forall w :: p <= w < p + i ==> Occupied(rows, u, w)
    ensures p + i == FirstFree(rows, u, p)
  {
    var g := FirstFree(rows, u, p);
    assert g < p + i ==> Occupied(rows, u, g);
    assert g > p + i ==> Occupied(rows, u, p + i);
  }

  /** `.update(priority=F('priority')+1)` on the user's active tasks with priority in `[lo, hi]`. */
  function Bumped(rows: TaskTable, u: UserId, lo: nat, hi: nat): (r: TaskTable)
    ensures r.Keys == rows.Keys
  {
    map id | id in rows ::
      if ActiveOf(rows[id], u) && lo <= rows[id].priority <= hi
      then rows[id].(priority := rows[id].priority + 1)
      else rows[id]
  }

  /**
   * The table after the cascade for a task about to be placed at `p`: no row
   * is added or removed, only the user's active tasks can move, and when `p`
   * is free nothing moves.
   */
  ghost function Cascade(rows: TaskTable, u: UserId, p: nat): (r: TaskTable)
    ensures r.Keys == rows.Keys
    ensures forall id :: id in rows && !ActiveOf(rows[id], u) ==> r[id] == rows[id]
    ensures !Occupied(rows, u, p) ==> r == rows
  {
    if Occupied(rows, u, p) then Bumped(rows, u, p, FirstFree(rows, u, p)) else rows
  }

  /**
   * What the cascade does to each row: an active task of the user whose
   * priority lies in the occupied block `[p, gap)` moves up by one; every
   * other row, including the tasks at or above the gap, the user's deleted
   * or completed tasks and all other users' tasks, is left as it was. When
   * `p` is free nothing moves at all.
   */
  lemma CascadeEffect(rows: TaskTable, u: UserId, p: nat, id: TaskId)
    requires id in rows
    ensures Cascade(rows, u, p).Keys == rows.Keys
    ensures Cascade(rows, u, p)[id] ==
      if Occupied(rows, u, p) && ActiveOf(rows[id], u) && p <= rows[id].priority < FirstFree(rows, u, p)
      then rows[id].(priority := rows[id].priority + 1)
      else rows[id]
  {
    if ActiveOf(rows[id], u) {
      HolderOccupies(rows, u, id);
    }
  }

  /**
   * Widening the bulk update to the gap itself changes nothing: no active
   * task of the user holds the gap value.
   */
  lemma GapInRangeIsHarmless(rows: TaskTable, u: UserId, p: nat)
    requires Occupied(rows, u, p)
    ensures FirstFree(rows, u, p) > p
    ensures Bumped(rows, u, p, FirstFree(rows, u, p)) == Bumped(rows, u, p, FirstFree(rows, u, p) - 1)
  {
    var g := FirstFree(rows, u, p);
    forall id | id in rows
      ensures Bumped(rows, u, p, g)[id] == Bumped(rows, u, p, g - 1)[id]
    {
      if ActiveOf(rows[id], u) {
        HolderOccupies(rows, u, id);
      }
    }
  }

  /** The cascade changes priorities only: owners, flags and statuses stay. */
  lemma CascadeKeepsAllButPriority(rows: TaskTable, u: UserId, p: nat)
    ensures Cascade(rows, u, p).Keys == rows.Keys
    ensures forall id :: id in rows ==> Cascade(rows, u, p)[id] == rows[id].(priority := Cascade(rows, u, p)[id].priority)
  {
  }

  /** After the cascade no active task of the user holds `p`. */
  lemma CascadeFreesTarget(rows: TaskTable, u: UserId, p: nat)
    ensures !Occupied(Cascade(rows, u, p), u, p)
  {
    var c := Cascade(rows, u, p);
    if Occupied(c, u, p) {
      var id :| id in Holders(c, u, p);
      CascadeEffect(rows, u, p, id);
      assert false;
    }
  }

  /** The cascade keeps every user's active priorities pairwise distinct. */
  lemma CascadeKeepsDistinct(rows: TaskTable, u: UserId, p: nat, w: UserId)
    requires DistinctActive(rows, w)
    ensures DistinctActive(Cascade(rows, u, p), w)
  {
    var c := Cascade(rows, u, p);
    forall a, b | a in c && b in c && a != b && ActiveOf(c[a], w) && ActiveOf(c[b], w)
      ensures c[a].priority != c[b].priority
    {
      CascadeEffect(rows, u, p, a);
      CascadeEffect(rows, u, p, b);
    }
  }
}
