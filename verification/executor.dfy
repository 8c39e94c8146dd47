/** The body of the `processTasks` loop for one task: dispatch on the task's
    type, call out to the network, and write a status.

    The network is not modelled. What it did for a task is an `Outcome` given
    to the model, and the model keeps only the control flow that turns that
    outcome into status writes. Two things about that flow stand out:
    - a failed transfer writes `'failed'` and then `continue`s (or, when its
      payload is `null`, escapes to the outer handler, which writes
      `'failed'`), so it skips the shared `'completed'` write that ends the
      dispatch;
    - a failed `dex_trade` writes `'failed'` and then falls through to that
      shared write, so a failed trade is stamped `'completed'`. The model
      keeps this behaviour as written. */
module Executor {
  import opened Tasks
  import opened TaskStore

  /** What the outside world did while one task was being processed. */
  datatype Outcome = Outcome(
    /** The stored payload is `null` (a JSON `null` or a NULL column), so
        reading `task.data.to` throws: first in the transfer handler, before
        any address is parsed, and again while that failure is reported. A
        `null` payload therefore always escapes to the outer handler. */
    payloadNull: bool,
    /** `new PublicKey(task.data.to)` accepted the recipient. */
    addressValid: bool,
    /** `transferSol` sent the transfer and saw it confirmed. */
    transferConfirmed: bool,
    /** Every Raydium lookup, the swap build, the send and the confirmation
        succeeded. */
    tradeConfirmed: bool,
    /** Positions (0 for the first) of this task's status writes that the
        storage layer rejected; `updateTaskStatus` swallows the error. */
    lostWrites: set<nat>)

  /** The way through the dispatch that one task takes. `attempted` records
      whether `transferSol` was called at all; an escaped transfer never gets
      that far. */
  datatype Path =
    | TransferSent
    | TransferRejected(attempted: bool)
    | TransferEscaped
    | TradeSent
    | TradeFailed
    | Unhandled

  /** The dispatch on `task.type`. */
  function Dispatch(t: Task, o: Outcome): (p: Path)
    ensures (p.TransferSent? || p.TransferRejected? || p.TransferEscaped?) <==> t.kind == "transfer"
    ensures (p.TradeSent? || p.TradeFailed?) <==> t.kind == "dex_trade"
    ensures p.TransferEscaped? <==> t.kind == "transfer" && o.payloadNull
    ensures p.TransferRejected? ==> (p.attempted <==> o.addressValid)
    ensures p.TransferSent? ==> !o.payloadNull && o.addressValid && o.transferConfirmed
    ensures t.kind == "transfer" ==> (p.TransferSent? <==> !TransferFails(o))
    ensures t.kind == "dex_trade" ==> (p.TradeSent? <==> o.tradeConfirmed)
  {
    if t.kind == "transfer" then
      if o.payloadNull then TransferEscaped
      else if o.addressValid && o.transferConfirmed then TransferSent
      else TransferRejected(o.addressValid)
    else if t.kind == "dex_trade" then
      if o.tradeConfirmed then TradeSent else TradeFailed
    else
      Unhandled
  }

  /** The status writes each path issues, in order. */
  function PathWrites(p: Path): (ws: seq<Status>)
  {
    match p
    case TransferSent => [Completed]
    case TransferRejected(_) => [Failed]
    case TransferEscaped => [Failed]
    case TradeSent => [Completed]
    case TradeFailed => [Failed, Completed]
    case Unhandled => [Completed]
  }

  /** Something in the transfer handler throws: the payload is `null`, the
      address does not parse, or the transfer is not confirmed. */
  predicate TransferFails(o: Outcome) {
    o.payloadNull || !(o.addressValid && o.transferConfirmed)
  }

  /** The status writes issued for task `t`, in order. */
  function StatusWrites(t: Task, o: Outcome): (ws: seq<Status>)
    ensures 1 <= |ws| <= 2
    ensures forall k :: 0 <= k < |ws| ==> ws[k] != Pending
    // a failed transfer writes `'failed'` once, either before `continue` or in
    // the outer handler; either way the shared write is skipped
    ensures t.kind == "transfer" && TransferFails(o) ==> ws == [Failed]
    ensures t.kind == "transfer" && !TransferFails(o) ==> ws == [Completed]
    // a failed trade writes `'failed'`, then the shared write stamps `'completed'`
    ensures t.kind == "dex_trade" && !o.tradeConfirmed ==> ws == [Failed, Completed]
    ensures t.kind == "dex_trade" && o.tradeConfirmed ==> ws == [Completed]
    // an unknown type runs no handler and reaches the shared write
    ensures t.kind != "transfer" && t.kind != "dex_trade" ==> ws == [Completed]
  {
    PathWrites(Dispatch(t, o))
  }

  /** The status a task is left with when its last write reaches the table. */
  function FinalStatus(t: Task, o: Outcome): (st: Status)
    ensures st != Pending
    ensures t.kind == "transfer" ==> (st == Failed <==> TransferFails(o))
    ensures t.kind != "transfer" ==> st == Completed
    ensures Dispatch(t, o).TransferEscaped? ==> st == Failed
  {
    var ws := StatusWrites(t, o);
    ws[|ws| - 1]
  }

  /** The last status write of task `t` is not lost. */
  predicate FinalWriteLands(t: Task, o: Outcome) {
    |StatusWrites(t, o)| - 1 !in o.lostWrites
  }

  /** One call to `updateTaskStatus`, and whether the table took it. */
  datatype Write = Write(id: int, status: Status, applied: bool)

  /** The log of issuing the writes `ws` for task `id`, the first of them
      being this task's write number `k`: one entry per write, saying
      whether the table took it. */
  function WriteLog(id: int, ws: seq<Status>, lost: set<nat>, k: nat): (log: seq<Write>)
    decreases |ws|
    ensures |log| == |ws|
    ensures forall a :: 0 <= a < |ws| ==> log[a] == Write(id, ws[a], k + a !in lost)
  {
    if ws == [] then []
    else [Write(id, ws[0], k !in lost)] + WriteLog(id, ws[1..], lost, k + 1)
  }

  /** The status a row holds after the writes of `log` were issued to it,
      starting from status `st`: a write the table rejected changes nothing,
      since `updateTaskStatus` swallows the error, so the row keeps the
      status of the last write that landed, or `st` when none did. */
  function LastApplied(log: seq<Write>, st: Status): (r: Status)
    decreases |log|
    ensures (forall a :: 0 <= a < |log| ==> !log[a].applied) ==> r == st
    ensures forall a :: 0 <= a < |log| && log[a].applied && (forall b :: a < b < |log| ==> !log[b].applied) ==>
      r == log[a].status
    ensures log != [] && log[|log| - 1].applied ==> r == log[|log| - 1].status
  {
    if log == [] then st
    else
      var rest := log[1..];
      assert forall b :: 0 <= b < |rest| ==> rest[b] == log[b + 1];
      LastApplied(rest, if log[0].applied then log[0].status else st)
  }

  /** Issues the writes `ws` for task `id`, the first of them being this
      task's write number `k`; returns the table and the log of writes. A
      row with that id ends in the status of the last write that landed, or
      keeps its status when none did. */
  function Issue(s: Store, id: int, ws: seq<Status>, lost: set<nat>, k: nat): (r: (Store, seq<Write>))
    decreases |ws|
    ensures |r.0.rows| == |s.rows| && r.0.lastId == s.lastId
    ensures forall i :: 0 <= i < |s.rows| ==> SameRecord(r.0.rows[i], s.rows[i])
    ensures forall i :: 0 <= i < |s.rows| && s.rows[i].id != id ==> r.0.rows[i] == s.rows[i]
    ensures r.1 == WriteLog(id, ws, lost, k)
    ensures forall i :: 0 <= i < |s.rows| && s.rows[i].id == id ==>
      r.0.rows[i].status == LastApplied(r.1, s.rows[i].status)
  {
    if ws == [] then (s, [])
    else
      var w := Write(id, ws[0], k !in lost);
      var s1 := UpdateTaskStatus(s, id, ws[0], w.applied);
      assert forall i :: 0 <= i < |s.rows| && s.rows[i].id == id ==>
        s1.rows[i].status == (if w.applied then w.status else s.rows[i].status);
      var (s2, log) := Issue(s1, id, ws[1..], lost, k + 1);
      assert ([w] + log)[1..] == log;
      (s2, [w] + log)
  }

  /** The log of the status writes issued for task `t`. It does not depend
      on the table: every write is for this task and is terminal, and the
      last one is the write of the final status. */
  function TaskWrites(t: Task, o: Outcome): (log: seq<Write>)
    ensures |log| == |StatusWrites(t, o)|
    ensures forall a :: 0 <= a < |log| ==> log[a].id == t.id && log[a].status != Pending
    ensures log[|log| - 1] == Write(t.id, FinalStatus(t, o), FinalWriteLands(t, o))
  {
    WriteLog(t.id, StatusWrites(t, o), o.lostWrites, 0)
  }

  /** Entry `a` of a task's log is its status write `a`, flagged with
      whether the table took it. */
  lemma TaskWritesInOrder(t: Task, o: Outcome)
    ensures forall a :: 0 <= a < |TaskWrites(t, o)| ==>
      TaskWrites(t, o)[a] == Write(t.id, StatusWrites(t, o)[a], a !in o.lostWrites)
  {
  }

  /** Every status write of task `t` is lost. */
  predicate AllWritesLost(t: Task, o: Outcome) {
    forall a :: 0 <= a < |StatusWrites(t, o)| ==> a in o.lostWrites
  }

  /** One iteration of the `processTasks` loop: the task's writes are issued
      against the table. Only the row with the task's id can change, and only
      in its status, which becomes that of the last write that landed; so if
      the last write lands, the row ends in the task's final status, and if
      every write is lost, the row is unchanged. The log is the task's
      `TaskWrites`. */
  function ProcessTask(s: Store, t: Task, o: Outcome): (r: (Store, seq<Write>))
    ensures |r.0.rows| == |s.rows| && r.0.lastId == s.lastId
    ensures forall i :: 0 <= i < |s.rows| ==> SameRecord(r.0.rows[i], s.rows[i])
    ensures forall i :: 0 <= i < |s.rows| && s.rows[i].id != t.id ==> r.0.rows[i] == s.rows[i]
    ensures FinalWriteLands(t, o) ==>
      forall i :: 0 <= i < |s.rows| && s.rows[i].id == t.id ==> r.0.rows[i].status == FinalStatus(t, o)
    ensures forall i :: 0 <= i < |s.rows| && s.rows[i].id == t.id ==>
      r.0.rows[i].status == LastApplied(TaskWrites(t, o), s.rows[i].status)
    ensures AllWritesLost(t, o) ==>
      forall i :: 0 <= i < |s.rows| && s.rows[i].id == t.id ==> r.0.rows[i] == s.rows[i]
    ensures r.1 == TaskWrites(t, o)
    ensures Valid(s) ==> Valid(r.0)
  {
    Issue(s, t.id, StatusWrites(t, o), o.lostWrites, 0)
  }

  /** A pending `dex_trade` row ends `'failed'` only when the trade failed,
      the `'failed'` write landed and the `'completed'` write after it was
      lost; it stays `'pending'` only when every write was lost. */
  lemma {:induction false} TradeEndsFailedOnlyIfOverwriteLost(s: Store, t: Task, o: Outcome, i: int)
    requires t.kind == "dex_trade" && t.status == Pending
    requires 0 <= i < |s.rows| && s.rows[i] == t
    ensures var st := ProcessTask(s, t, o).0.rows[i].status;
      && (st == Failed <==> !o.tradeConfirmed && 0 !in o.lostWrites && 1 in o.lostWrites)
      && (st == Pending <==> 0 in o.lostWrites && (o.tradeConfirmed || 1 in o.lostWrites))
  {
    var lost := o.lostWrites;
    if o.tradeConfirmed {
      assert StatusWrites(t, o) == [Completed];
      var s1 := UpdateTaskStatus(s, t.id, Completed, 0 !in lost);
      assert Issue(s, t.id, [Completed], lost, 0).0 == Issue(s1, t.id, [], lost, 1).0 == s1;
    } else {
      assert StatusWrites(t, o) == [Failed, Completed];
      var s1 := UpdateTaskStatus(s, t.id, Failed, 0 !in lost);
      var s2 := UpdateTaskStatus(s1, t.id, Completed, 1 !in lost);
      assert [Failed, Completed][1..] == [Completed];
      assert Issue(s1, t.id, [Completed], lost, 1).0 == Issue(s2, t.id, [], lost, 2).0 == s2;
      assert Issue(s, t.id, [Failed, Completed], lost, 0).0 == s2;
    }
  }
}
