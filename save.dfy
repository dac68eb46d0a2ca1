/**
 * The `/save` handler (server.js lines 35-112): normalise the submission,
 * then skip when no database is configured, or provision the schema and insert
 * one row, answering with the outcome.
 */
module SaveHandler {
  import opened Wrappers
  import opened Js
  import opened Ingest
  import opened Store

  /** The reason the skip response gives. */
  const NoDatabase: string := "no DATABASE_URL"

  /** The storage failure a request meets, if any: the query numbered `step`
      raises `message`. The handler issues four queries: 0 is CREATE TABLE, 1
      and 2 are the two ADD COLUMNs, 3 is the INSERT. */
  datatype Fault = NoFault | FailAt(step: nat, message: string)

  /** The error query number `step` raises under `f`. */
  function FailureAt(f: Fault, step: nat): Option<string> {
    if f.FailAt? && f.step == step then Some(f.message) else None
  }

  /** The handler's reply. */
  datatype Ack =
    | Skipped(reason: string, completedTrials: nat)
    | Saved(completedTrials: nat)
    | Failed(error: StoreError)

  /** The HTTP status: `res.json` answers 200, the catch block 500. */
  function Status(a: Ack): nat {
    if a.Failed? then 500 else 200
  }

  /** `String(e)` for the errors the model distinguishes. */
  function ErrorText(e: StoreError): string {
    match e
    case QueryFailed(m) => m
    case NoSuchTable => "relation gaze_logs does not exist"
    case NoSuchColumns(_) => "column of relation gaze_logs does not exist"
  }

  /** The JSON body of the reply (lines 53, 107 and 110). */
  function Body(a: Ack): Json {
    match a
    case Skipped(reason, n) =>
      JObj(map["ok" := JBool(true), "skip" := JStr(reason), "completedTrials" := JNum(n)])
    case Saved(n) => JObj(map["ok" := JBool(true), "completedTrials" := JNum(n)])
    case Failed(e) => JObj(map["ok" := JBool(false), "error" := JStr(ErrorText(e))])
  }

  /** Every reply is a JSON object whose `ok` is true exactly on status 200; it
      carries `completedTrials` unless it reports a failure, `skip` only on the
      skip path and `error` only on failure. */
  lemma ReplyShape(a: Ack)
    ensures Body(a).JObj? && "ok" in Body(a).fields
    ensures Body(a).fields["ok"] == JBool(Status(a) == 200)
    ensures "completedTrials" in Body(a).fields <==> !a.Failed?
    ensures "skip" in Body(a).fields <==> a.Skipped?
    ensures "error" in Body(a).fields <==> a.Failed?
  {
  }

  /** An optional string as a nullable cell. It agrees with `x || null` only
      because its callers never pass `Some("")` (see `UserAgentCell`, `IpCell`). */
  function OrNull(o: Option<string>): Json {
    if o.Some? then JStr(o.value) else JNull
  }

  /** Lines 94-104: the values bound to the nine placeholders of the INSERT. */
  function RecordOf(req: Request): (r: Row)
    ensures r.Keys == InsertColumns
  {
    var sub := Normalize(req);
    map[
      ProlificPid := sub.pid,
      ProlificStudyId := sub.study,
      ProlificSessionId := sub.session,
      UserAgent := OrNull(UserAgentOf(req.headers)),
      Ip := OrNull(ClientIp(req.headers, req.remoteAddress)),
      Summary := sub.summary,
      Rounds := sub.rounds,
      CompletedTrials := JNum(sub.completedTrials),
      Aborted := JBool(sub.aborted)]
  }

  /** No placeholder is bound to `undefined`: every cell is a value or null,
      and the two JSONB cells are never null, so `JSON.stringify` always yields
      a JSON document for them. */
  lemma RecordCellsDefined(req: Request)
    ensures forall c :: c in RecordOf(req) ==> RecordOf(req)[c] != Undefined
    ensures !Nullish(RecordOf(req)[Summary]) && !Nullish(RecordOf(req)[Rounds])
  {
    var sub := Normalize(req);
    var r := RecordOf(req);
    forall c | c in r
      ensures r[c] != Undefined
    {
      match c
      case ProlificPid => assert r[c] == sub.pid;
      case ProlificStudyId => assert r[c] == sub.study;
      case ProlificSessionId => assert r[c] == sub.session;
      case Summary => assert r[c] == sub.summary;
      case Rounds => assert r[c] == sub.rounds;
      case _ =>
    }
  }

  /** The four queries of one request, in order. */
  function Statements(req: Request): seq<Statement> {
    [CreateTable, AddColumn(CompletedTrials), AddColumn(Aborted), InsertRecord(RecordOf(req))]
  }

  /** Awaiting `stmts` one after another, numbering them from `step`: the first
      failure stops the sequence and leaves the effects of the earlier ones. */
  function Run(t: TableState, stmts: seq<Statement>, fault: Fault, step: nat): (TableState, Option<StoreError>)
    decreases |stmts|
  {
    if stmts == [] then (t, None)
    else
      match Step(t, stmts[0], FailureAt(fault, step))
      case Err(e) => (t, Some(e))
      case Ok(t') => Run(t', stmts[1..], fault, step + 1)
  }

  /** The new table and the reply of a request when a database is configured
      (lines 57-110). */
  function Save(t: TableState, req: Request, fault: Fault): (TableState, Ack) {
    var (t', err) := Run(t, Statements(req), fault, 0);
    (t', if err.Some? then Failed(err.value) else Saved(Normalize(req).completedTrials))
  }

  /** Lines 35-112. With no pool the store is not touched and the reply is the
      skip acknowledgement with the recomputed count; with one, the pool's
      table and the reply are those `Save` describes. */
  method HandleSave(pool: Table?, req: Request, fault: Fault) returns (ack: Ack)
    requires pool != null ==> pool.Valid()
    modifies pool
    ensures pool == null ==> ack == Skipped(NoDatabase, Normalize(req).completedTrials)
    ensures pool != null ==> pool.Valid() && (pool.State(), ack) == Save(old(pool.State()), req, fault)
  {
    var sub := Normalize(req);
    if pool == null {
      return Skipped(NoDatabase, sub.completedTrials);
    }
    var stmts := Statements(req);
    ghost var t0 := pool.State();
    var err := pool.Query(CreateTable, FailureAt(fault, 0));
    if err.Some? {
      return Failed(err.value);
    }
    ghost var t1 := pool.State();
    assert Run(t0, stmts, fault, 0) == Run(t1, stmts[1..], fault, 1);
    err := pool.Query(AddColumn(CompletedTrials), FailureAt(fault, 1));
    if err.Some? {
      return Failed(err.value);
    }
    ghost var t2 := pool.State();
    assert Run(t1, stmts[1..], fault, 1) == Run(t2, stmts[2..], fault, 2);
    err := pool.Query(AddColumn(Aborted), FailureAt(fault, 2));
    if err.Some? {
      return Failed(err.value);
    }
    ghost var t3 := pool.State();
    assert Run(t2, stmts[2..], fault, 2) == Run(t3, stmts[3..], fault, 3);
    err := pool.Query(InsertRecord(RecordOf(req)), FailureAt(fault, 3));
    if err.Some? {
      return Failed(err.value);
    }
    assert Run(t3, stmts[3..], fault, 3) == Run(pool.State(), [], fault, 4);
    return Saved(sub.completedTrials);
  }

  /** `fault` makes one of the four queries fail. */
  predicate Hits(fault: Fault) {
    fault.FailAt? && fault.step < 4
  }

  /** The stored `user_agent` is line 98's `req.headers['user-agent'] || null`
      evaluated with JavaScript truthiness: an absent or empty header gives null. */
  lemma UserAgentCell(req: Request)
    ensures RecordOf(req)[UserAgent] == Or(Header(req.headers, "user-agent"), JNull)
  {
  }

  /** The stored `ip` is line 99's chain evaluated with JavaScript truthiness:
      the first segment of `x-forwarded-for || ''`, else
      `req.socket.remoteAddress`, else null. */
  lemma IpCell(req: Request)
    ensures RecordOf(req)[Ip] ==
              Or(JStr(FirstSegment(ForwardedFor(req.headers))), Or(RemoteValue(req.remoteAddress), JNull))
  {
  }

  /** The four queries of a request run on a well-formed table, written out
      query by query: a failing query stops the run after the earlier queries
      took effect; the INSERT fails when the provisioned table still lacks one
      of its columns; otherwise exactly `rec` is appended to the provisioned
      table. */
  lemma {:induction false} RunClosedForm(t: TableState, rec: Row, fault: Fault)
    requires WellFormed(t) && rec.Keys == InsertColumns
    ensures var c0 := Created(t);
            var c1 := WithColumn(c0, CompletedTrials);
            var e := EnsuredSchema(t);
            Run(t, [CreateTable, AddColumn(CompletedTrials), AddColumn(Aborted), InsertRecord(rec)], fault, 0) ==
              if FailureAt(fault, 0).Some? then (t, Some(QueryFailed(fault.message)))
              else if FailureAt(fault, 1).Some? then (c0, Some(QueryFailed(fault.message)))
              else if FailureAt(fault, 2).Some? then (c1, Some(QueryFailed(fault.message)))
              else if FailureAt(fault, 3).Some? then (e, Some(QueryFailed(fault.message)))
              else if !(InsertColumns <= e.columns) then (e, Some(NoSuchColumns(InsertColumns - e.columns)))
              else (e.(rows := e.rows + [rec]), None)
  {
    var stmts := [CreateTable, AddColumn(CompletedTrials), AddColumn(Aborted), InsertRecord(rec)];
    var c0 := Created(t);
    var c1 := WithColumn(c0, CompletedTrials);
    var e := EnsuredSchema(t);
    EnsuredSchemaProvides(t);
    assert stmts[1..] == [AddColumn(CompletedTrials), AddColumn(Aborted), InsertRecord(rec)];
    assert stmts[1..][1..] == [AddColumn(Aborted), InsertRecord(rec)];
    assert stmts[1..][1..][1..] == [InsertRecord(rec)];
    assert stmts[1..][1..][1..][1..] == [];
    if FailureAt(fault, 0).None? {
      assert Step(t, CreateTable, None) == Ok(c0);
      assert Run(t, stmts, fault, 0) == Run(c0, stmts[1..], fault, 1);
      if FailureAt(fault, 1).None? {
        assert Step(c0, AddColumn(CompletedTrials), None) == Ok(c1);
        assert Run(c0, stmts[1..], fault, 1) == Run(c1, stmts[1..][1..], fault, 2);
        if FailureAt(fault, 2).None? {
          assert Step(c1, AddColumn(Aborted), None) == Ok(e);
          assert Run(c1, stmts[1..][1..], fault, 2) == Run(e, [InsertRecord(rec)], fault, 3);
          if FailureAt(fault, 3).None? && InsertColumns <= e.columns {
            assert NewRow(e, rec) == rec;
            assert Step(e, InsertRecord(rec), None) == Ok(e.(rows := e.rows + [rec]));
            assert [InsertRecord(rec)][1..] == [];
            assert Run(e, [InsertRecord(rec)], fault, 3) == Run(e.(rows := e.rows + [rec]), [], fault, 4);
          }
        }
      }
    }
  }

  /** What a request does to a well-formed table when a database is configured. */
  lemma {:induction false} SaveClosedForm(t: TableState, req: Request, fault: Fault)
    requires WellFormed(t)
    ensures var c0 := Created(t);
            var c1 := WithColumn(c0, CompletedTrials);
            var e := EnsuredSchema(t);
            Save(t, req, fault) ==
              if FailureAt(fault, 0).Some? then (t, Failed(QueryFailed(fault.message)))
              else if FailureAt(fault, 1).Some? then (c0, Failed(QueryFailed(fault.message)))
              else if FailureAt(fault, 2).Some? then (c1, Failed(QueryFailed(fault.message)))
              else if FailureAt(fault, 3).Some? then (e, Failed(QueryFailed(fault.message)))
              else if !(InsertColumns <= e.columns) then (e, Failed(NoSuchColumns(InsertColumns - e.columns)))
              else (e.(rows := e.rows + [RecordOf(req)]), Saved(Normalize(req).completedTrials))
  {
    RunClosedForm(t, RecordOf(req), fault);
  }

  /** A request meets no failure exactly when no query is made to fail and the
      provisioned table has every column the INSERT names; then it appends
      precisely its own record to the provisioned table and acknowledges the
      recomputed count. */
  lemma {:induction false} SaveSucceeds(t: TableState, req: Request, fault: Fault)
    requires WellFormed(t)
    ensures Save(t, req, fault).1.Saved? <==> !Hits(fault) && InsertColumns <= EnsuredSchema(t).columns
    ensures Save(t, req, fault).1.Saved? ==>
              var e := EnsuredSchema(t);
              Save(t, req, fault) == (e.(rows := e.rows + [RecordOf(req)]), Saved(Normalize(req).completedTrials))
  {
    SaveClosedForm(t, req, fault);
  }

  /** On a database where the table does not exist yet, a fault-free request
      creates it with the full schema and stores exactly its record. */
  lemma {:induction false} FirstSaveCreatesTable(t: TableState, req: Request)
    requires WellFormed(t) && !t.present
    ensures Save(t, req, NoFault) ==
              (TableState(true, TableColumns, [RecordOf(req)]), Saved(Normalize(req).completedTrials))
  {
    SaveClosedForm(t, req, NoFault);
    assert EnsuredSchema(t) == TableState(true, TableColumns, []);
    assert [] + [RecordOf(req)] == [RecordOf(req)];
  }

  /** The four queries keep the table well formed and every existing cell; a
      run that reports an error adds no row and leaves a table that
      provisioning completes exactly as before. */
  lemma {:induction false} RunKeepsHistory(t: TableState, rec: Row, fault: Fault)
    requires WellFormed(t) && rec.Keys == InsertColumns
    ensures var (t', err) := Run(t, [CreateTable, AddColumn(CompletedTrials), AddColumn(Aborted), InsertRecord(rec)], fault, 0);
            && WellFormed(t')
            && |t'.rows| == |t.rows| + (if err.None? then 1 else 0)
            && (forall i, c :: 0 <= i < |t.rows| && c in t.rows[i] ==> c in t'.rows[i] && t'.rows[i][c] == t.rows[i][c])
            && EnsuredSchema(t').columns == EnsuredSchema(t).columns
            && (err.Some? ==> EnsuredSchema(t') == EnsuredSchema(t))
  {
    RunClosedForm(t, rec, fault);
    EnsuredSchemaProvides(t);
    InterruptedSchema(t);
    var e := EnsuredSchema(t);
    EnsuredSchemaIdempotent(t);
    if !Hits(fault) && InsertColumns <= e.columns {
      var t' := e.(rows := e.rows + [rec]);
      assert WellFormed(t') by {
        ExecPreservesWellFormed(e, InsertRecord(rec));
        assert NewRow(e, rec) == rec;
      }
      assert forall i :: 0 <= i < |e.rows| ==> t'.rows[i] == e.rows[i];
      EnsuredSchemaNoop(t');
    }
  }

  /** Whatever happens, the table stays well formed and no existing cell
      changes; a request that is not acknowledged as saved adds no row, and
      leaves the table in a state that provisioning completes exactly as it
      would have before, so the failure corrupts nothing for later requests. */
  lemma {:induction false} SaveKeepsHistory(t: TableState, req: Request, fault: Fault)
    requires WellFormed(t)
    ensures var (t', ack) := Save(t, req, fault);
            && WellFormed(t')
            && |t'.rows| == |t.rows| + (if ack.Saved? then 1 else 0)
            && (forall i, c :: 0 <= i < |t.rows| && c in t.rows[i] ==> c in t'.rows[i] && t'.rows[i][c] == t.rows[i][c])
            && EnsuredSchema(t').columns == EnsuredSchema(t).columns
            && (!ack.Saved? ==> EnsuredSchema(t') == EnsuredSchema(t))
  {
    var rec := RecordOf(req);
    RunKeepsHistory(t, rec, fault);
    assert Statements(req) == [CreateTable, AddColumn(CompletedTrials), AddColumn(Aborted), InsertRecord(rec)];
    var r := Run(t, Statements(req), fault, 0);
    assert Save(t, req, fault).0 == r.0;
    assert Save(t, req, fault).1.Saved? <==> r.1.None?;
  }

  /** A storage failure does not stand in the way of the next request: after
      any request, fault-free or failed, a later fault-free request succeeds
      exactly when it would have succeeded before. */
  lemma {:induction false} FailureDoesNotCorrupt(t: TableState, first: Request, fault: Fault, next: Request)
    requires WellFormed(t)
    ensures Save(Save(t, first, fault).0, next, NoFault).1.Saved? <==> Save(t, next, NoFault).1.Saved?
  {
    var t' := Save(t, first, fault).0;
    SaveKeepsHistory(t, first, fault);
    SaveSucceeds(t, next, NoFault);
    SaveSucceeds(t', next, NoFault);
  }

  /** Submissions are not deduplicated: the same request saved twice without
      failure adds two identical, independent rows. */
  lemma {:induction false} RepeatedSaveAppendsTwice(t: TableState, req: Request)
    requires WellFormed(t) && InsertColumns <= EnsuredSchema(t).columns
    ensures var e := EnsuredSchema(t);
            Save(Save(t, req, NoFault).0, req, NoFault).0.rows == e.rows + [RecordOf(req), RecordOf(req)]
  {
    var e := EnsuredSchema(t);
    SaveSucceeds(t, req, NoFault);
    var t1 := Save(t, req, NoFault).0;
    SaveKeepsHistory(t, req, NoFault);
    SaveSucceeds(t1, req, NoFault);
  }
}
