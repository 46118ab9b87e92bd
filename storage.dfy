/**
 * The stored metric tables: an append-only sequence of rows, and the
 * "latest data point" query the collectors issue against it.
 */
module Storage {
  import opened Results
  import opened Frames
  import Calendar

  /** How the database hands the date column back to Python. */
  datatype KeyColumn =
    | DateColumn       // a `datetime.date`; keys are day ordinals
    | TimestampColumn  // a `datetime`; keys are instants in milliseconds
    | TextColumn       // an ISO date string; keys are day ordinals

  /** The first column of a fetched row as Python receives it. */
  datatype Stored = Null | DateValue(day: int) | TimestampValue(ms: int) | TextValue(day: int)

  function Typed(column: KeyColumn, key: Option<int>): Stored {
    if key.None? then Null
    else match column
      case DateColumn => DateValue(key.value)
      case TimestampColumn => TimestampValue(key.value)
      case TextColumn => TextValue(key.value)
  }

  /** The calendar day a stored value denotes, None for NULL. */
  function StoredDay(v: Stored): Option<int> {
    match v
    case Null => None
    case DateValue(d) => Some(d)
    case TimestampValue(ms) => Some(Calendar.DayOf(ms))
    case TextValue(d) => Some(d)
  }

  /**
   * `SELECT * FROM t ORDER BY date DESC LIMIT 1`, first column: None when
   * the table is empty; NULL dates sort after every date in descending
   * order (CockroachDB's rule), so NULL comes back only when every date is NULL.
   */
  function Latest(rows: seq<Row>): (r: Option<Option<int>>)
    ensures r.None? <==> rows == []
    ensures r == Some(None) <==> rows != [] && forall i :: 0 <= i < |rows| ==> rows[i].key.None?
    ensures r.Some? && r.value.Some? ==>
      && (exists i :: 0 <= i < |rows| && rows[i].key == r.value)
      && forall i :: 0 <= i < |rows| && rows[i].key.Some? ==> rows[i].key.value <= r.value.value
  {
    if rows == [] then None
    else
      var rest := Latest(rows[1..]);
      var k := rows[0].key;
      assert forall i :: 1 <= i < |rows| ==> rows[i] == rows[1..][i - 1];
      if rest.None? || rest == Some(None) then Some(k)
      else if k.None? || k.value <= rest.value.value then
        ghost var j :| 0 <= j < |rows[1..]| && rows[1..][j].key == rest.value;
        assert rows[j + 1].key == rest.value;
        rest
      else Some(k)
  }

  /** The first column of the latest row as Python sees it; None when there is no row. */
  function PointOf(column: KeyColumn, rows: seq<Row>): (p: Option<Stored>)
    ensures p.None? <==> rows == []
  {
    match Latest(rows)
    case None => None
    case Some(k) => Some(Typed(column, k))
  }

  class Table {
    const name: string
    const keyColumn: KeyColumn
    var rows: seq<Row>

    constructor (name: string, keyColumn: KeyColumn, rows: seq<Row>)
      ensures this.name == name && this.keyColumn == keyColumn && this.rows == rows
    {
      this.name := name;
      this.keyColumn := keyColumn;
      this.rows := rows;
    }

    /** `get_latest_data_point`'s fetched row, first column: None when there is no row. */
    function LatestPoint(): Option<Stored>
      reads this
    {
      PointOf(keyColumn, rows)
    }

    /** `df.to_sql(table, conn, if_exists='append')`: the batch goes after the stored rows, which stay as they were. */
    method Append(batch: seq<Row>)
      modifies this
      ensures rows == old(rows) + batch
    {
      rows := rows + batch;
    }
  }

  /** The latest point never goes back in time when rows are appended. */
  lemma {:induction false} LatestGrows(rows: seq<Row>, batch: seq<Row>, i: nat)
    requires i < |batch| && batch[i].key.Some?
    ensures Latest(rows + batch).Some? && Latest(rows + batch).value.Some?
    ensures batch[i].key.value <= Latest(rows + batch).value.value
  {
    var all := rows + batch;
    assert all[|rows| + i] == batch[i];
  }
}
