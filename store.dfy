/**
 * The `gaze_logs` table as the handler sees it (server.js lines 57-105): whether
 * it exists, its column set and its rows. The three schema statements and the
 * insert are modelled as transitions of that state; the live database is a
 * `Table` object whose fields those statements change in place.
 */
module Store {
  import opened Wrappers
  import opened Js

  datatype Column =
    | Id | CreatedAt
    | ProlificPid | ProlificStudyId | ProlificSessionId
    | UserAgent | Ip | Summary | Rounds | CompletedTrials | Aborted

  /** Columns whose values the database generates (BIGSERIAL, DEFAULT NOW());
      the model does not track their values. */
  const ServerColumns: set<Column> := {Id, CreatedAt}

  /** The nine columns the INSERT of lines 82-93 names. */
  const InsertColumns: set<Column> :=
    {ProlificPid, ProlificStudyId, ProlificSessionId, UserAgent, Ip, Summary, Rounds, CompletedTrials, Aborted}

  /** The columns of the CREATE TABLE of lines 58-70. */
  const TableColumns: set<Column> := ServerColumns + InsertColumns

  /** The DEFAULT of each column: `aborted BOOLEAN DEFAULT FALSE`, null for the rest. */
  function ColumnDefault(c: Column): Json {
    if c == Aborted then JBool(false) else JNull
  }

  /** A row holds a value for every tracked column of the table. */
  type Row = map<Column, Json>

  datatype TableState = TableState(present: bool, columns: set<Column>, rows: seq<Row>)

  /** A missing table has no columns and no rows; a table has only known columns
      (it may come from an older schema and lack some), and every row has a
      cell for exactly the tracked columns. */
  predicate WellFormed(t: TableState) {
    && (!t.present ==> t.columns == {} && t.rows == [])
    && t.columns <= TableColumns
    && forall i :: 0 <= i < |t.rows| ==> t.rows[i].Keys == t.columns - ServerColumns
  }

  datatype Statement =
    | CreateTable           // CREATE TABLE IF NOT EXISTS gaze_logs (...)
    | AddColumn(c: Column)  // ALTER TABLE gaze_logs ADD COLUMN IF NOT EXISTS c
    | InsertRecord(values: Row)

  datatype StoreError =
    | QueryFailed(message: string)      // connectivity or any other failure of the query
    | NoSuchTable                       // the statement names a table that does not exist
    | NoSuchColumns(missing: set<Column>)

  /** CREATE TABLE IF NOT EXISTS: a new, empty table with every column, or the
      existing table as it is. */
  function Created(t: TableState): TableState {
    if t.present then t else TableState(true, TableColumns, [])
  }

  /** Every row with a cell for `c` set to `d`. */
  function WithCell(rows: seq<Row>, c: Column, d: Json): (r: seq<Row>)
    ensures |r| == |rows|
    ensures forall i :: 0 <= i < |rows| ==> r[i] == rows[i][c := d]
  {
    seq(|rows|, i requires 0 <= i < |rows| => rows[i][c := d])
  }

  /** ADD COLUMN IF NOT EXISTS on an existing table: a present column is left as
      it is; a new one is added and every existing row gets its default. */
  function WithColumn(t: TableState, c: Column): TableState {
    if c in t.columns then t
    else if c in ServerColumns then t.(columns := t.columns + {c})
    else t.(columns := t.columns + {c}, rows := WithCell(t.rows, c, ColumnDefault(c)))
  }

  /** The row an INSERT stores: the supplied values, and the default for every
      other tracked column. */
  function NewRow(t: TableState, values: Row): (r: Row)
    ensures r.Keys == t.columns - ServerColumns
  {
    map c | c in t.columns - ServerColumns :: if c in values then values[c] else ColumnDefault(c)
  }

  /** What one statement does to the table when the database carries it out. */
  function Exec(t: TableState, stmt: Statement): Result<TableState, StoreError> {
    match stmt
    case CreateTable => Ok(Created(t))
    case AddColumn(c) =>
      if !t.present then Err(NoSuchTable) else Ok(WithColumn(t, c))
    case InsertRecord(values) =>
      if !t.present then Err(NoSuchTable)
      else if !(values.Keys <= t.columns) then Err(NoSuchColumns(values.Keys - t.columns))
      else Ok(t.(rows := t.rows + [NewRow(t, values)]))
  }

  /** One query: the failure is one the database reports before the statement
      commits (a rejected statement or a refused connection), so it takes no
      effect; otherwise the statement runs. A reply lost after the commit is not
      a case of this model. */
  function Step(t: TableState, stmt: Statement, failure: Option<string>): Result<TableState, StoreError> {
    if failure.Some? then Err(QueryFailed(failure.value)) else Exec(t, stmt)
  }

  /** Every statement keeps the table well formed. */
  lemma ExecPreservesWellFormed(t: TableState, stmt: Statement)
    requires WellFormed(t)
    ensures Exec(t, stmt).Ok? ==> WellFormed(Exec(t, stmt).value)
  {
    if stmt.InsertRecord? && Exec(t, stmt).Ok? {
      var t' := Exec(t, stmt).value;
      assert forall i :: 0 <= i < |t.rows| ==> t'.rows[i] == t.rows[i];
    }
  }

  /** Only the INSERT adds a row; no statement alters or removes an existing
      value of an existing row. */
  lemma ExecKeepsRows(t: TableState, stmt: Statement)
    requires WellFormed(t) && Exec(t, stmt).Ok?
    ensures var t' := Exec(t, stmt).value;
            && |t'.rows| == |t.rows| + (if stmt.InsertRecord? then 1 else 0)
            && forall i, c :: 0 <= i < |t.rows| && c in t.rows[i] ==> c in t'.rows[i] && t'.rows[i][c] == t.rows[i][c]
  {
  }

  /** The two-column migration of lines 57-80, when every statement succeeds. */
  function EnsuredSchema(t: TableState): TableState {
    WithColumn(WithColumn(Created(t), CompletedTrials), Aborted)
  }

  /** After schema provisioning the table exists and has `completed_trials` and
      `aborted`; a new table has every column; an existing one keeps its
      columns, gains at most those two, and keeps its rows, each new cell
      holding the column's default. */
  lemma {:induction false} EnsuredSchemaProvides(t: TableState)
    requires WellFormed(t)
    ensures var e := EnsuredSchema(t);
            && WellFormed(e)
            && e.present && {CompletedTrials, Aborted} <= e.columns
            && e.columns == (if t.present then t.columns + {CompletedTrials, Aborted} else TableColumns)
            && |e.rows| == |t.rows|
            && (forall i, c :: 0 <= i < |t.rows| && c in t.rows[i] ==> c in e.rows[i] && e.rows[i][c] == t.rows[i][c])
            && (forall i, c :: 0 <= i < |t.rows| && c in e.rows[i] && c !in t.rows[i] ==> e.rows[i][c] == ColumnDefault(c))
  {
    var c0 := Created(t);
    var c1 := WithColumn(c0, CompletedTrials);
    ExecPreservesWellFormed(t, CreateTable);
    ExecPreservesWellFormed(c0, AddColumn(CompletedTrials));
    ExecPreservesWellFormed(c1, AddColumn(Aborted));
  }

  /** On a table that already has the current schema, provisioning changes
      nothing at all. */
  lemma EnsuredSchemaNoop(t: TableState)
    requires t.present && {CompletedTrials, Aborted} <= t.columns
    ensures EnsuredSchema(t) == t
  {
  }

  /** Provisioning twice is provisioning once. */
  lemma {:induction false} EnsuredSchemaIdempotent(t: TableState)
    ensures EnsuredSchema(EnsuredSchema(t)) == EnsuredSchema(t)
  {
    var e := EnsuredSchema(t);
    assert e.present && CompletedTrials in e.columns && Aborted in e.columns;
    EnsuredSchemaNoop(e);
  }

  /** Provisioning interrupted after its first or second statement leaves a
      well-formed table with the same rows and cells, from which provisioning
      reaches exactly the state a complete run reaches. */
  lemma {:induction false} InterruptedSchema(t: TableState)
    requires WellFormed(t)
    ensures var c0 := Created(t);
            var c1 := WithColumn(c0, CompletedTrials);
            && WellFormed(c0) && WellFormed(c1)
            && |c0.rows| == |t.rows| && |c1.rows| == |t.rows|
            && (forall i, c :: 0 <= i < |t.rows| && c in t.rows[i] ==> c in c0.rows[i] && c0.rows[i][c] == t.rows[i][c])
            && (forall i, c :: 0 <= i < |t.rows| && c in t.rows[i] ==> c in c1.rows[i] && c1.rows[i][c] == t.rows[i][c])
            && EnsuredSchema(c0) == EnsuredSchema(t) && EnsuredSchema(c1) == EnsuredSchema(t)
  {
    var c0 := Created(t);
    ExecPreservesWellFormed(t, CreateTable);
    ExecPreservesWellFormed(c0, AddColumn(CompletedTrials));
  }

  /** Provisioning `n` times in a row. */
  function EnsuredTimes(t: TableState, n: nat): TableState {
    if n == 0 then t else EnsuredSchema(EnsuredTimes(t, n - 1))
  }

  /** Provisioning on every request is safe: any positive number of runs gives
      the state a single run gives. */
  lemma {:induction false} EnsuredTimesIsOnce(t: TableState, n: nat)
    requires n >= 1
    ensures EnsuredTimes(t, n) == EnsuredSchema(t)
  {
    if n > 1 {
      EnsuredTimesIsOnce(t, n - 1);
      EnsuredSchemaIdempotent(t);
    }
  }

  /** The live table. Each `Query` is one autocommitted statement: it happens
      completely or, when it fails, not at all. */
  class Table {
    var present: bool
    var columns: set<Column>
    var rows: seq<Row>

    function State(): TableState
      reads this
    {
      TableState(present, columns, rows)
    }

    ghost predicate Valid()
      reads this
    {
      WellFormed(State())
    }

    /** The table as the database holds it when the process starts. */
    constructor (initial: TableState)
      requires WellFormed(initial)
      ensures Valid() && State() == initial
    {
      present, columns, rows := initial.present, initial.columns, initial.rows;
    }

    /** `pool.query(stmt)`. `failure` is the error the database or the
        connection raises, if any; the statement then takes no effect. */
    method Query(stmt: Statement, failure: Option<string>) returns (err: Option<StoreError>)
      requires Valid()
      modifies this
      ensures Valid()
      ensures Step(old(State()), stmt, failure).Ok? ==> err == None && State() == Step(old(State()), stmt, failure).value
      ensures Step(old(State()), stmt, failure).Err? ==>
                err == Some(Step(old(State()), stmt, failure).error) && State() == old(State())
    {
      ExecPreservesWellFormed(State(), stmt);
      if failure.Some? {
        return Some(QueryFailed(failure.value));
      }
      match stmt
      case CreateTable =>
        if !present {
          present, columns, rows := true, TableColumns, [];
        }
        err := None;
      case AddColumn(c) =>
        if !present {
          return Some(NoSuchTable);
        }
        if c !in columns {
          if c !in ServerColumns {
            rows := WithCell(rows, c, ColumnDefault(c));
          }
          columns := columns + {c};
        }
        err := None;
      case InsertRecord(values) =>
        if !present {
          return Some(NoSuchTable);
        }
        if !(values.Keys <= columns) {
          return Some(NoSuchColumns(values.Keys - columns));
        }
        rows := rows + [NewRow(State(), values)];
        err := None;
    }
  }
}
