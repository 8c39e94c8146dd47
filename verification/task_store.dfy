/** The three storage operations of the agent: `addTask`, `getPendingTasks`
    and `updateTaskStatus`. Each one catches whatever the database raises and
    only logs it, so a storage failure (the `ok` parameters) never reaches
    the caller: an insert or update that fails leaves the table as it was,
    and a query that fails returns no tasks. */
module TaskStore {
  import opened Tasks

  /** `addTask(type, data)`: inserts a pending task whose id is the next
      value of the AUTOINCREMENT counter. The insert fails when the storage
      layer raises (`!ok`) or the counter is exhausted. */
  function AddTask(s: Store, kind: string, data: string, ok: bool): (r: Store)
    ensures ok && s.lastId < MaxRowId ==>
      && |r.rows| == |s.rows| + 1
      && r.rows[..|s.rows|] == s.rows
      && r.rows[|s.rows|].kind == kind
      && r.rows[|s.rows|].data == data
      && r.rows[|s.rows|].status == Pending
      && r.rows[|s.rows|].id == r.lastId > s.lastId
    ensures !ok || s.lastId >= MaxRowId ==> r == s
    ensures Valid(s) ==> Valid(r)
  {
    if ok && s.lastId < MaxRowId then
      Store(s.rows + [Task(s.lastId + 1, kind, Pending, data)], s.lastId + 1)
    else
      s
  }

  /** A successful insert into a valid table issues an id above every id
      already in the table. */
  lemma AddTaskIssuesFreshId(s: Store, kind: string, data: string)
    requires Valid(s) && s.lastId < MaxRowId
    ensures var r := AddTask(s, kind, data, true);
      forall i :: 0 <= i < |s.rows| ==> s.rows[i].id < r.rows[|s.rows|].id
  {
  }

  /** The pending rows of `rows`, in their table order. */
  function PendingOf(rows: seq<Task>): (r: seq<Task>)
    ensures |r| <= |rows|
    ensures forall t :: t in r <==> t in rows && t.status == Pending
  {
    if rows == [] then []
    else if rows[0].status == Pending then [rows[0]] + PendingOf(rows[1..])
    else PendingOf(rows[1..])
  }

  /** `getPendingTasks()`: the rows whose status is `'pending'`. A failed
      query (`!ok`, which includes a payload that does not parse) yields the
      empty list. */
  function GetPendingTasks(s: Store, ok: bool): (r: seq<Task>)
    ensures forall t :: t in r <==> ok && t in s.rows && t.status == Pending
    ensures !ok ==> |r| == 0
  {
    if ok then PendingOf(s.rows) else []
  }

  /** Filtering keeps table order: ascending ids stay ascending. */
  lemma {:induction false} PendingOfAscending(rows: seq<Task>)
    requires Ascending(rows)
    ensures Ascending(PendingOf(rows))
  {
    if rows != [] {
      var rest := PendingOf(rows[1..]);
      assert Ascending(rows[1..]);
      PendingOfAscending(rows[1..]);
      if rows[0].status == Pending {
        forall b | 0 <= b < |rest|
          ensures rows[0].id < rest[b].id
        {
          assert rest[b] in rows[1..];
        }
      }
    }
  }

  /** The pending tasks of a valid table come back in id order, hence each
      at most once. */
  lemma PendingTasksInTableOrder(s: Store, ok: bool)
    requires Valid(s)
    ensures Ascending(GetPendingTasks(s, ok))
  {
    PendingOfAscending(s.rows);
  }

  /** A table without pending rows yields an empty query. */
  lemma NothingPendingQueriesEmpty(rows: seq<Task>)
    requires forall i :: 0 <= i < |rows| ==> rows[i].status != Pending
    ensures PendingOf(rows) == []
  {
    if PendingOf(rows) != [] {
      assert PendingOf(rows)[0] in PendingOf(rows);
    }
  }

  /** Filtering distributes over concatenation. */
  lemma {:induction false} PendingOfAppend(a: seq<Task>, b: seq<Task>)
    ensures PendingOf(a + b) == PendingOf(a) + PendingOf(b)
  {
    if a != [] {
      assert (a + b)[1..] == a[1..] + b;
      PendingOfAppend(a[1..], b);
    } else {
      assert a + b == b;
    }
  }

  /** A task that was just added is the last task the next query returns,
      after the tasks that were already pending. */
  lemma AddedTaskIsPendingLast(s: Store, kind: string, data: string)
    requires Valid(s) && s.lastId < MaxRowId
    ensures GetPendingTasks(AddTask(s, kind, data, true), true)
         == GetPendingTasks(s, true) + [Task(s.lastId + 1, kind, Pending, data)]
  {
    var t := Task(s.lastId + 1, kind, Pending, data);
    assert AddTask(s, kind, data, true).rows == s.rows + [t];
    PendingOfAppend(s.rows, [t]);
    assert [t][1..] == [];
    assert PendingOf([t]) == [t];
  }

  /** The rows with the status of every row whose id is `id` replaced. */
  function SetStatus(rows: seq<Task>, id: int, status: Status): (r: seq<Task>)
    ensures |r| == |rows|
    ensures forall i :: 0 <= i < |rows| ==> SameRecord(r[i], rows[i])
    ensures forall i :: 0 <= i < |rows| && rows[i].id != id ==> r[i] == rows[i]
    ensures forall i :: 0 <= i < |rows| && rows[i].id == id ==> r[i].status == status
  {
    if rows == [] then []
    else
      [if rows[0].id == id then rows[0].(status := status) else rows[0]]
      + SetStatus(rows[1..], id, status)
  }

  /** `updateTaskStatus(id, status)`: only the status of the row with that
      id changes; the id, type and data of every row, every other row and the
      counter are untouched. A failed update (`!ok`) and an id that names no
      row leave the table as it was. */
  function UpdateTaskStatus(s: Store, id: int, status: Status, ok: bool): (r: Store)
    ensures |r.rows| == |s.rows| && r.lastId == s.lastId
    ensures forall i :: 0 <= i < |s.rows| ==> SameRecord(r.rows[i], s.rows[i])
    ensures forall i :: 0 <= i < |s.rows| && (!ok || s.rows[i].id != id) ==> r.rows[i] == s.rows[i]
    ensures forall i :: 0 <= i < |s.rows| && ok && s.rows[i].id == id ==> r.rows[i].status == status
    ensures (!ok || forall i :: 0 <= i < |s.rows| ==> s.rows[i].id != id) ==> r == s
    ensures Valid(s) ==> Valid(r)
  {
    if ok then Store(SetStatus(s.rows, id, status), s.lastId) else s
  }

  /** A task marked completed or failed is not returned by the next query. */
  lemma UpdatedTaskLeavesPending(s: Store, id: int, status: Status)
    requires status != Pending
    ensures forall t :: t in GetPendingTasks(UpdateTaskStatus(s, id, status, true), true) ==> t.id != id
  {
    var r := UpdateTaskStatus(s, id, status, true);
    forall t | t in GetPendingTasks(r, true)
      ensures t.id != id
    {
      var i :| 0 <= i < |r.rows| && r.rows[i] == t;
    }
  }
}
