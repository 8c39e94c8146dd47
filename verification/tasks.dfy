/** The `tasks` table of the agent: one record per requested transfer or trade.

    The table is created with `id INTEGER PRIMARY KEY AUTOINCREMENT`, so ids
    are issued by a counter that only grows (SQLite keeps it in
    `sqlite_sequence`), and a scan without `ORDER BY` yields rows in rowid
    order, which is insertion order here because rows are never deleted.
 */
module Tasks {

  /** The largest rowid SQLite issues; once an AUTOINCREMENT table has used it,
      every further insert fails. */
  const MaxRowId: int := 0x7FFF_FFFF_FFFF_FFFF

  /** The three values the agent ever writes into the `status` column. */
  datatype Status = Pending | Completed | Failed

  /** One row. `kind` is the `type` column; `data` is the JSON text of the
      payload, which the model treats as opaque. */
  datatype Task = Task(id: int, kind: string, status: Status, data: string)

  /** The table: its rows in rowid order, and the AUTOINCREMENT counter, the
      largest id the table has ever issued (0 before the first insert). */
  datatype Store = Store(rows: seq<Task>, lastId: int)

  /** Ids strictly increase along the sequence. */
  predicate Ascending(ts: seq<Task>) {
    forall a, b :: 0 <= a < b < |ts| ==> ts[a].id < ts[b].id
  }

  /** What the table guarantees at every point: ids are issued by the
      counter, in order, and never exceed it. */
  predicate Valid(s: Store) {
    && 0 <= s.lastId <= MaxRowId
    && (forall i :: 0 <= i < |s.rows| ==> 1 <= s.rows[i].id <= s.lastId)
    && Ascending(s.rows)
  }

  /** The two records are the same task: only the status may differ. */
  predicate SameRecord(a: Task, b: Task) {
    a.id == b.id && a.kind == b.kind && a.data == b.data
  }

  /** The table as `CREATE TABLE IF NOT EXISTS` leaves it on a first run. */
  function Empty(): (s: Store)
    ensures Valid(s)
    ensures |s.rows| == 0
  {
    Store([], 0)
  }

  /** In a valid table an id names at most one row. */
  lemma IdNamesOneRow(s: Store, i: int, j: int)
    requires Valid(s)
    requires 0 <= i < |s.rows| && 0 <= j < |s.rows|
    requires s.rows[i].id == s.rows[j].id
    ensures i == j
  {
  }
}
