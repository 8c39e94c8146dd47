/** One pass of `processTasks`: take a snapshot of the pending tasks, then
    run the executor over each task of the snapshot in order. The endless
    poll loop that repeats the pass every ten seconds is not modelled. */
module PollLoop {
  import opened Tasks
  import opened TaskStore
  import opened Executor

  /** The id of some pending row of `s`. */
  ghost predicate IsPendingId(s: Store, id: int) {
    exists i :: 0 <= i < |s.rows| && s.rows[i].id == id && s.rows[i].status == Pending
  }

  /** Every pending row's last status write lands. */
  predicate AllWritesLand(s: Store, world: int -> Outcome) {
    forall i :: 0 <= i < |s.rows| && s.rows[i].status == Pending ==>
      FinalWriteLands(s.rows[i], world(s.rows[i].id))
  }

  /** Table `r` is table `s` with only the rows of the tasks `done`
      written, and those only in their status. */
  ghost predicate KeptRows(s: Store, r: Store, done: seq<Task>) {
    && |r.rows| == |s.rows| && r.lastId == s.lastId
    && (forall i :: 0 <= i < |s.rows| ==> SameRecord(r.rows[i], s.rows[i]))
    && (forall i :: 0 <= i < |s.rows| && s.rows[i] !in done ==> r.rows[i] == s.rows[i])
  }

  /** In table `r`, each row of one of the tasks `done` holds the status of
      that task's last write that landed, or its old status when none did. */
  ghost predicate DoneRows(s: Store, r: Store, done: seq<Task>, world: int -> Outcome) {
    && |r.rows| == |s.rows|
    && (forall i :: 0 <= i < |s.rows| && s.rows[i] in done ==>
          r.rows[i].status == LastApplied(TaskWrites(s.rows[i], world(s.rows[i].id)), s.rows[i].status))
  }

  /** Table `r` is table `s` after the tasks `done` were processed. */
  ghost predicate ProcessedRows(s: Store, r: Store, done: seq<Task>, world: int -> Outcome) {
    KeptRows(s, r, done) && DoneRows(s, r, done, world)
  }

  /** The writes of `log` are in id order. */
  predicate SortedLog(log: seq<Write>) {
    forall a, b :: 0 <= a < b < |log| ==> log[a].id <= log[b].id
  }

  /** Every write of `log` is a terminal status for a pending row of `s`. */
  ghost predicate TerminalLog(s: Store, log: seq<Write>) {
    forall a :: 0 <= a < |log| ==> log[a].status != Pending && IsPendingId(s, log[a].id)
  }

  /** The log records the write of task `t`'s final status under outcome `o`,
      and whether it landed. */
  ghost predicate LoggedFinal(log: seq<Write>, t: Task, o: Outcome) {
    exists a :: 0 <= a < |log| && log[a] == Write(t.id, FinalStatus(t, o), FinalWriteLands(t, o))
  }

  /** Every row of `s` that is one of the tasks `done` has its final write
      in the log. */
  ghost predicate LogCovers(s: Store, log: seq<Write>, done: seq<Task>, world: int -> Outcome) {
    forall i :: 0 <= i < |s.rows| && s.rows[i] in done ==>
      LoggedFinal(log, s.rows[i], world(s.rows[i].id))
  }

  /** Appending the writes of the next snapshot task, which end with its
      final write, extends `LogCovers` by that task. */
  lemma LogCoversStep(s: Store, log: seq<Write>, snap: seq<Task>, j: int, world: int -> Outcome, step: seq<Write>)
    requires 0 <= j < |snap| && LogCovers(s, log, snap[..j], world)
    requires |step| >= 1
    requires step[|step| - 1] == Write(snap[j].id, FinalStatus(snap[j], world(snap[j].id)),
                                       FinalWriteLands(snap[j], world(snap[j].id)))
    ensures LogCovers(s, log + step, snap[..j + 1], world)
  {
    var t := snap[j];
    var log' := log + step;
    assert snap[..j + 1] == snap[..j] + [t];
    assert log'[|log'| - 1] == step[|step| - 1];
    forall i | 0 <= i < |s.rows| && s.rows[i] in snap[..j + 1]
      ensures LoggedFinal(log', s.rows[i], world(s.rows[i].id))
    {
      if s.rows[i] in snap[..j] {
        var a :| 0 <= a < |log| && log[a] == Write(s.rows[i].id, FinalStatus(s.rows[i], world(s.rows[i].id)),
                                                   FinalWriteLands(s.rows[i], world(s.rows[i].id)));
        assert log'[a] == log[a];
      } else {
        assert s.rows[i] == t;
      }
    }
  }

  /** In a valid table a row with the id of one of its rows is that row. */
  lemma SameIdSameTask(s: Store, t: Task, i: int)
    requires Valid(s) && t in s.rows && 0 <= i < |s.rows| && s.rows[i].id == t.id
    ensures s.rows[i] == t
  {
    var j :| 0 <= j < |s.rows| && s.rows[j] == t;
    IdNamesOneRow(s, i, j);
  }

  /** The next snapshot task is none of the tasks before it, and the rows
      with its id are that task. */
  lemma NextTaskIsNew(s: Store, snap: seq<Task>, j: int)
    requires Valid(s) && Ascending(snap) && 0 < j <= |snap| && snap[j - 1] in s.rows
    ensures snap[j - 1] !in snap[..j - 1]
    ensures snap[..j] == snap[..j - 1] + [snap[j - 1]]
    ensures forall i :: 0 <= i < |s.rows| && s.rows[i].id == snap[j - 1].id ==> s.rows[i] == snap[j - 1]
  {
    forall k | 0 <= k < j - 1
      ensures snap[k] != snap[j - 1]
    {
      assert snap[k].id < snap[j - 1].id;
    }
    forall i | 0 <= i < |s.rows| && s.rows[i].id == snap[j - 1].id
      ensures s.rows[i] == snap[j - 1]
    {
      SameIdSameTask(s, snap[j - 1], i);
    }
  }

  /** Processing the next snapshot task writes only its own row, and only
      in its status. */
  lemma KeptRowsStep(s: Store, snap: seq<Task>, j: int, world: int -> Outcome)
    requires Valid(s) && Ascending(snap) && 0 < j <= |snap| && snap[j - 1] in s.rows
    requires KeptRows(s, PassTable(s, snap, j - 1, world), snap[..j - 1])
    ensures KeptRows(s, PassTable(s, snap, j, world), snap[..j])
  {
    var r := PassTable(s, snap, j - 1, world);
    var t := snap[j - 1];
    var r' := ProcessTask(r, t, world(t.id)).0;
    NextTaskIsNew(s, snap, j);
    forall i | 0 <= i < |s.rows| && s.rows[i] !in snap[..j]
      ensures r'.rows[i] == s.rows[i]
    {
      assert r.rows[i].id == s.rows[i].id;
    }
  }

  /** Processing the next snapshot task leaves its row in the status of its
      last write that landed, and keeps the rows of the earlier tasks. */
  lemma DoneRowsStep(s: Store, snap: seq<Task>, j: int, world: int -> Outcome)
    requires Valid(s) && SnapshotOf(s, snap) && 0 < j <= |snap|
    requires DoneRows(s, PassTable(s, snap, j - 1, world), snap[..j - 1], world)
    ensures DoneRows(s, PassTable(s, snap, j, world), snap[..j], world)
  {
    PrefixKept(s, snap, j - 1, world);
    var r := PassTable(s, snap, j - 1, world);
    var t := snap[j - 1];
    var r' := ProcessTask(r, t, world(t.id)).0;
    NextTaskIsNew(s, snap, j);
    forall i | 0 <= i < |s.rows| && s.rows[i] in snap[..j]
      ensures r'.rows[i].status == LastApplied(TaskWrites(s.rows[i], world(s.rows[i].id)), s.rows[i].status)
    {
      assert r.rows[i].id == s.rows[i].id;
      if s.rows[i].id == t.id {
        assert r.rows[i] == s.rows[i];
      }
    }
  }

  /** What a finished pass leaves behind, read off `ProcessedRows` for the
      whole snapshot. */
  lemma PassOutcome(s: Store, r: Store, readOk: bool, world: int -> Outcome)
    requires ProcessedRows(s, r, GetPendingTasks(s, readOk), world)
    ensures forall i :: 0 <= i < |s.rows| && !(readOk && s.rows[i].status == Pending) ==>
      r.rows[i] == s.rows[i]
    ensures forall i :: 0 <= i < |s.rows| && readOk && s.rows[i].status == Pending ==>
      (FinalWriteLands(s.rows[i], world(s.rows[i].id)) ==>
         r.rows[i].status == FinalStatus(s.rows[i], world(s.rows[i].id)))
    ensures forall i :: 0 <= i < |s.rows| && readOk && s.rows[i].status == Pending ==>
      r.rows[i].status == LastApplied(TaskWrites(s.rows[i], world(s.rows[i].id)), Pending)
    ensures readOk && AllWritesLand(s, world) ==> |GetPendingTasks(r, true)| == 0
  {
    var snap := GetPendingTasks(s, readOk);
    forall i | 0 <= i < |s.rows|
      ensures s.rows[i] in snap <==> readOk && s.rows[i].status == Pending
    {
      assert s.rows[i] in s.rows;
    }
    forall i | 0 <= i < |s.rows| && readOk && s.rows[i].status == Pending &&
               FinalWriteLands(s.rows[i], world(s.rows[i].id))
      ensures r.rows[i].status == FinalStatus(s.rows[i], world(s.rows[i].id))
    {
      var log := TaskWrites(s.rows[i], world(s.rows[i].id));
      assert log[|log| - 1].applied;
    }
    if readOk && AllWritesLand(s, world) {
      NothingPendingQueriesEmpty(r.rows);
    }
  }

  /** After the whole snapshot is handled, every task that was pending has
      its final write in the log. */
  lemma LogCoverage(s: Store, log: seq<Write>, readOk: bool, world: int -> Outcome)
    requires LogCovers(s, log, GetPendingTasks(s, readOk), world)
    ensures forall i :: 0 <= i < |s.rows| && readOk && s.rows[i].status == Pending ==>
      LoggedFinal(log, s.rows[i], world(s.rows[i].id))
  {
    forall i | 0 <= i < |s.rows| && readOk && s.rows[i].status == Pending
      ensures LoggedFinal(log, s.rows[i], world(s.rows[i].id))
    {
      assert s.rows[i] in s.rows;
    }
  }

  /** The table after the first `j` tasks of `snap` were handled, one after
      the other, starting from table `s`. */
  function PassTable(s: Store, snap: seq<Task>, j: int, world: int -> Outcome): Store
    requires 0 <= j <= |snap|
  {
    if j == 0 then s
    else ProcessTask(PassTable(s, snap, j - 1, world), snap[j - 1], world(snap[j - 1].id)).0
  }

  /** The writes logged while the first `j` tasks of `snap` were handled. */
  function PassWrites(snap: seq<Task>, j: int, world: int -> Outcome): seq<Write>
    requires 0 <= j <= |snap|
  {
    if j == 0 then []
    else PassWrites(snap, j - 1, world) + TaskWrites(snap[j - 1], world(snap[j - 1].id))
  }

  /** `snap` can serve as a snapshot of `s`: rows of `s`, in id order. */
  predicate SnapshotOf(s: Store, snap: seq<Task>) {
    Ascending(snap) && forall k :: 0 <= k < |snap| ==> snap[k] in s.rows
  }

  /** After the first `j` snapshot tasks the table is still valid. */
  lemma {:induction false} PrefixValid(s: Store, snap: seq<Task>, j: int, world: int -> Outcome)
    requires Valid(s) && 0 <= j <= |snap|
    ensures Valid(PassTable(s, snap, j, world))
  {
    if j > 0 {
      PrefixValid(s, snap, j - 1, world);
    }
  }

  /** After the first `j` snapshot tasks, only their rows have been
      written, and only in their status. */
  lemma {:induction false} PrefixKept(s: Store, snap: seq<Task>, j: int, world: int -> Outcome)
    requires Valid(s) && SnapshotOf(s, snap) && 0 <= j <= |snap|
    ensures KeptRows(s, PassTable(s, snap, j, world), snap[..j])
  {
    if j == 0 {
      assert snap[..0] == [];
    } else {
      PrefixKept(s, snap, j - 1, world);
      KeptRowsStep(s, snap, j, world);
    }
  }

  /** After the first `j` snapshot tasks, each of their rows holds the
      status of its last write that landed. */
  lemma {:induction false} PrefixDone(s: Store, snap: seq<Task>, j: int, world: int -> Outcome)
    requires Valid(s) && SnapshotOf(s, snap) && 0 <= j <= |snap|
    ensures DoneRows(s, PassTable(s, snap, j, world), snap[..j], world)
  {
    if j == 0 {
      assert snap[..0] == [];
    } else {
      PrefixDone(s, snap, j - 1, world);
      DoneRowsStep(s, snap, j, world);
    }
  }

  /** After the first `j` snapshot tasks, exactly those rows have been
      written, only in their status, and each holds the status of its last
      write that landed. */
  lemma PrefixRows(s: Store, snap: seq<Task>, j: int, world: int -> Outcome)
    requires Valid(s) && SnapshotOf(s, snap) && 0 <= j <= |snap|
    ensures ProcessedRows(s, PassTable(s, snap, j, world), snap[..j], world)
  {
    PrefixKept(s, snap, j, world);
    PrefixDone(s, snap, j, world);
  }

  /** Every id in `log` is below the id of each task of `snap` from
      position `j` on. */
  predicate LogBelow(log: seq<Write>, snap: seq<Task>, j: int) {
    forall a, k :: 0 <= a < |log| && 0 <= k < |snap| && j <= k ==> log[a].id < snap[k].id
  }

  /** After the first `j` snapshot tasks, every id in the log is below the
      id of each snapshot task still to come. */
  lemma {:induction false} PrefixLogBelow(snap: seq<Task>, j: int, world: int -> Outcome)
    requires Ascending(snap) && 0 <= j <= |snap|
    ensures LogBelow(PassWrites(snap, j, world), snap, j)
  {
    if j > 0 {
      PrefixLogBelow(snap, j - 1, world);
      var prev := PassWrites(snap, j - 1, world);
      var step := TaskWrites(snap[j - 1], world(snap[j - 1].id));
      var log := prev + step;
      forall a, k | 0 <= a < |log| && 0 <= k < |snap| && j <= k
        ensures log[a].id < snap[k].id
      {
        if a < |prev| {
          assert log[a] == prev[a];
        } else {
          assert log[a] == step[a - |prev|];
        }
      }
    }
  }

  /** Appending writes for one id above every id of a sorted log keeps it
      sorted. */
  lemma SortedAppend(log: seq<Write>, step: seq<Write>, id: int)
    requires SortedLog(log)
    requires forall a :: 0 <= a < |log| ==> log[a].id < id
    requires forall a :: 0 <= a < |step| ==> step[a].id == id
    ensures SortedLog(log + step)
  {
    var n := |log|;
    forall a, b | 0 <= a < b < |log + step|
      ensures (log + step)[a].id <= (log + step)[b].id
    {
      if b < n {
        assert (log + step)[a] == log[a] && (log + step)[b] == log[b];
      } else if a < n {
        assert (log + step)[a] == log[a] && (log + step)[b] == step[b - n];
      } else {
        assert (log + step)[a] == step[a - n] && (log + step)[b] == step[b - n];
      }
    }
  }

  /** After the first `j` snapshot tasks, the log is in id order. */
  lemma {:induction false} PrefixLogSorted(snap: seq<Task>, j: int, world: int -> Outcome)
    requires Ascending(snap) && 0 <= j <= |snap|
    ensures SortedLog(PassWrites(snap, j, world))
  {
    if j > 0 {
      PrefixLogSorted(snap, j - 1, world);
      PrefixLogBelow(snap, j - 1, world);
      var t := snap[j - 1];
      var prev := PassWrites(snap, j - 1, world);
      forall a | 0 <= a < |prev|
        ensures prev[a].id < t.id
      {
      }
      SortedAppend(prev, TaskWrites(t, world(t.id)), t.id);
    }
  }

  /** Appending terminal writes for a pending row of `s` keeps a log of
      terminal writes to pending rows. */
  lemma TerminalAppend(s: Store, log: seq<Write>, step: seq<Write>, t: Task)
    requires TerminalLog(s, log)
    requires t in s.rows && t.status == Pending
    requires forall a :: 0 <= a < |step| ==> step[a].id == t.id && step[a].status != Pending
    ensures TerminalLog(s, log + step)
  {
    var i :| 0 <= i < |s.rows| && s.rows[i] == t;
    assert IsPendingId(s, t.id);
    forall a | 0 <= a < |log + step|
      ensures (log + step)[a].status != Pending && IsPendingId(s, (log + step)[a].id)
    {
      if a < |log| {
        assert (log + step)[a] == log[a];
      } else {
        assert (log + step)[a] == step[a - |log|];
      }
    }
  }

  /** After the first `j` snapshot tasks, every logged write is a terminal
      status for a row of `s` that is pending. */
  lemma {:induction false} PrefixLogTerminal(s: Store, snap: seq<Task>, j: int, world: int -> Outcome)
    requires SnapshotOf(s, snap) && 0 <= j <= |snap|
    requires forall k :: 0 <= k < |snap| ==> snap[k].status == Pending
    ensures TerminalLog(s, PassWrites(snap, j, world))
  {
    if j > 0 {
      PrefixLogTerminal(s, snap, j - 1, world);
      var t := snap[j - 1];
      TerminalAppend(s, PassWrites(snap, j - 1, world), TaskWrites(t, world(t.id)), t);
    }
  }

  /** After the first `j` snapshot tasks, the log holds each one's final
      write. */
  lemma {:induction false} PrefixLogCovers(s: Store, snap: seq<Task>, j: int, world: int -> Outcome)
    requires 0 <= j <= |snap|
    ensures LogCovers(s, PassWrites(snap, j, world), snap[..j], world)
  {
    if j == 0 {
      assert snap[..0] == [];
    } else {
      PrefixLogCovers(s, snap, j - 1, world);
      var t := snap[j - 1];
      LogCoversStep(s, PassWrites(snap, j - 1, world), snap, j - 1, world, TaskWrites(t, world(t.id)));
    }
  }

  /** The query result is a snapshot of pending rows. */
  lemma PendingSnapshot(s: Store, readOk: bool)
    requires Valid(s)
    ensures var snap := GetPendingTasks(s, readOk);
      && SnapshotOf(s, snap)
      && (forall k :: 0 <= k < |snap| ==> snap[k].status == Pending)
  {
    PendingTasksInTableOrder(s, readOk);
    var snap := GetPendingTasks(s, readOk);
    forall k | 0 <= k < |snap|
      ensures snap[k] in s.rows && snap[k].status == Pending
    {
      assert snap[k] in snap;
    }
  }

  /** The effect of one pass on the table: only rows that were pending when
      the snapshot was taken are written, and only in their status; each of
      them whose last write lands ends in the final status its type and
      outcome decide; each of them holds the status of its last write that
      landed, and stays pending when none did; if every last write lands,
      nothing is left pending. */
  ghost predicate PassRows(s: Store, readOk: bool, world: int -> Outcome, r: Store) {
    && Valid(r)
    && |r.rows| == |s.rows| && r.lastId == s.lastId
    && (forall i :: 0 <= i < |s.rows| ==> SameRecord(r.rows[i], s.rows[i]))
    && (forall i :: 0 <= i < |s.rows| && !(readOk && s.rows[i].status == Pending) ==>
          r.rows[i] == s.rows[i])
    && (forall i :: 0 <= i < |s.rows| && readOk && s.rows[i].status == Pending ==>
          (FinalWriteLands(s.rows[i], world(s.rows[i].id)) ==>
             r.rows[i].status == FinalStatus(s.rows[i], world(s.rows[i].id))))
    && (forall i :: 0 <= i < |s.rows| && readOk && s.rows[i].status == Pending ==>
          r.rows[i].status == LastApplied(TaskWrites(s.rows[i], world(s.rows[i].id)), Pending))
    && (readOk && AllWritesLand(s, world) ==> |GetPendingTasks(r, true)| == 0)
  }

  /** The write log of one pass: terminal writes to tasks that were pending,
      in id order; nothing when the query failed; and the final-status write
      of every task of the snapshot. */
  ghost predicate PassLog(s: Store, readOk: bool, world: int -> Outcome, log: seq<Write>) {
    && SortedLog(log)
    && TerminalLog(s, log)
    && (!readOk ==> log == [])
    && (forall i :: 0 <= i < |s.rows| && readOk && s.rows[i].status == Pending ==>
          LoggedFinal(log, s.rows[i], world(s.rows[i].id)))
  }

  /** A finished pass leaves the table as `PassRows` describes. */
  lemma PassRowsHold(s: Store, readOk: bool, world: int -> Outcome)
    requires Valid(s)
    ensures var snap := GetPendingTasks(s, readOk);
      PassRows(s, readOk, world, PassTable(s, snap, |snap|, world))
  {
    var snap := GetPendingTasks(s, readOk);
    PendingSnapshot(s, readOk);
    PrefixValid(s, snap, |snap|, world);
    PrefixRows(s, snap, |snap|, world);
    assert snap[..|snap|] == snap;
    PassOutcome(s, PassTable(s, snap, |snap|, world), readOk, world);
  }

  /** A finished pass leaves the log `PassLog` describes. */
  lemma PassLogHolds(s: Store, readOk: bool, world: int -> Outcome)
    requires Valid(s)
    ensures var snap := GetPendingTasks(s, readOk);
      PassLog(s, readOk, world, PassWrites(snap, |snap|, world))
  {
    var snap := GetPendingTasks(s, readOk);
    PendingSnapshot(s, readOk);
    PrefixLogSorted(snap, |snap|, world);
    PrefixLogTerminal(s, snap, |snap|, world);
    PrefixLogCovers(s, snap, |snap|, world);
    assert snap[..|snap|] == snap;
    LogCoverage(s, PassWrites(snap, |snap|, world), readOk, world);
  }

  /** After a pass, a row that was pending and whose every status write
      was lost is still exactly as it was, so still pending. */
  lemma LostWritesKeepPending(s: Store, readOk: bool, world: int -> Outcome, r: Store, i: int)
    requires PassRows(s, readOk, world, r)
    requires 0 <= i < |s.rows| && s.rows[i].status == Pending
    requires AllWritesLost(s.rows[i], world(s.rows[i].id))
    ensures r.rows[i] == s.rows[i]
  {
    var t := s.rows[i];
    var o := world(t.id);
    if readOk {
      var log := TaskWrites(t, o);
      forall a | 0 <= a < |log|
        ensures !log[a].applied
      {
        assert a in o.lostWrites;
      }
      assert SameRecord(r.rows[i], t);
    }
  }

  /** Handles the tasks of `snap` one after the other, starting from table
      `s`; returns the table and the log of every write. */
  method RunSnapshot(s: Store, snap: seq<Task>, world: int -> Outcome) returns (p: (Store, seq<Write>))
    ensures p == (PassTable(s, snap, |snap|, world), PassWrites(snap, |snap|, world))
  {
    p := (s, []);
    for j := 0 to |snap|
      invariant p == (PassTable(s, snap, j, world), PassWrites(snap, j, world))
    {
      var t := snap[j];
      var step := ProcessTask(p.0, t, world(t.id));
      p := (step.0, p.1 + step.1);
    }
  }

  /** One pass over table `s`. `readOk` says whether the snapshot query
      succeeded; `world(id)` is what the network and the storage layer did
      while the task with that id was processed. The pass affects the table
      as `PassRows` says and logs its writes as `PassLog` says. */
  method ProcessTasks(s: Store, readOk: bool, world: int -> Outcome) returns (r: Store, log: seq<Write>)
    requires Valid(s)
    ensures PassRows(s, readOk, world, r)
    ensures PassLog(s, readOk, world, log)
  {
    var snap := GetPendingTasks(s, readOk);
    var p := RunSnapshot(s, snap, world);
    r, log := p.0, p.1;
    PassRowsHold(s, readOk, world);
    PassLogHolds(s, readOk, world);
  }
}
