/** The PostgreSQL connection that `db_migration/migrate.py` drives: what the
    server stores, what one transaction sees, and what each statement does. */
module MigrationSession {

  import opened Options

  type Table = string

  /** A foreign-key value: row `id` of table `table`. */
  datatype Ref = Ref(table: Table, id: int)

  datatype PaymentStatus = Paid | Partial | Unpaid

  /** The columns that carry legacy data. Money is in cents. */
  datatype Content =
    | Plain(data: int)
    | Invoice(grandTotal: int, paid: int, balanceDue: int, status: PaymentStatus)

  datatype Fields = Fields(refs: set<Ref>, content: Content)

  /** A stored row. `stamp` stands for the columns filled from the script's clock. */
  datatype Record = Record(fields: Fields, stamp: int)

  type Rows = map<int, Record>

  /** The transactional part of the database: rows, and the tables whose triggers
      (foreign-key triggers among them) are switched off. */
  datatype Catalog = Catalog(rows: map<Table, Rows>, untriggered: set<Table>)

  /** The constraints and rights the server enforces, left arbitrary: `check` for
      what depends on the row alone (types, NOT NULL, CHECK), `clash` for unique
      columns, which also depend on the rows already in the table. */
  datatype Server = Server(
    check: (Table, int, Fields) -> bool,
    clash: (Table, map<int, Fields>, int, Fields) -> bool,
    serial: set<Table>,
    alterable: set<Table>)

  datatype Policy = DoNothing | DoUpdate

  datatype Savepoint = Savepoint(name: string, saved: Catalog)

  datatype Session = Session(
    committed: Catalog,
    working: Catalog,
    savepoints: seq<Savepoint>,
    aborted: bool,
    sequences: map<Table, int>)

  datatype Statement =
    | SetSavepoint(name: string)
    | ReleaseSavepoint(name: string)
    | RollbackTo(name: string)
    | Insert(table: Table, id: int, record: Record, policy: Policy)
    | DisableTriggers(table: Table)
    | EnableTriggers(table: Table)
    | SetVal(table: Table, value: int)

  /** What a statement leaves behind, and whether the driver raised. */
  datatype Result = Result(session: Session, ok: bool)

  const SEQUENCE_MAX := 0x7FFF_FFFF

  function FieldsOf(rows: Rows): map<int, Fields> {
    map id | id in rows :: rows[id].fields
  }

  predicate RefsResolve(rows: map<Table, Rows>, refs: set<Ref>) {
    forall r | r in refs :: r.table in rows && r.id in rows[r.table]
  }

  /** One INSERT .. ON CONFLICT (id). None is a server-side error. Row checks come
      first; a conflict on id is settled before unique and foreign keys are looked
      at; DO UPDATE only takes the new content. */
  function Put(srv: Server, cat: Catalog, t: Table, id: int, rec: Record, policy: Policy): Option<Catalog> {
    if t !in cat.rows || !srv.check(t, id, rec.fields) then None
    else
      var own := cat.rows[t];
      if id in own then
        var merged := own[id].(fields := own[id].fields.(content := rec.fields.content));
        if policy == DoNothing || merged == own[id] then Some(cat)
        else if srv.clash(t, FieldsOf(own), id, merged.fields) then None
        else Some(cat.(rows := cat.rows[t := own[id := merged]]))
      else
        var rows := cat.rows[t := own[id := rec]];
        if srv.clash(t, FieldsOf(own), id, rec.fields) then None
        else if t !in cat.untriggered && !RefsResolve(rows, rec.fields.refs) then None
        else Some(cat.(rows := rows))
  }

  /** Position of the newest savepoint called `name`, or -1. */
  function Newest(savepoints: seq<Savepoint>, name: string): (k: int)
    ensures -1 <= k < |savepoints|
    ensures k >= 0 ==> savepoints[k].name == name
    ensures forall j | k < j < |savepoints| :: savepoints[j].name != name
  {
    if savepoints == [] then -1
    else if savepoints[|savepoints| - 1].name == name then |savepoints| - 1
    else Newest(savepoints[..|savepoints| - 1], name)
  }

  predicate SequenceRefuses(srv: Server, t: Table, v: int) {
    t in srv.serial && !(1 <= v <= SEQUENCE_MAX)
  }

  function Fail(s: Session): Result {
    Result(s.(aborted := true), false)
  }

  /** One statement. In an aborted transaction only ROLLBACK TO is served. */
  function Execute(srv: Server, s: Session, stmt: Statement): Result {
    if s.aborted && !stmt.RollbackTo? then Fail(s)
    else
      match stmt
      case SetSavepoint(name) =>
        Result(s.(savepoints := s.savepoints + [Savepoint(name, s.working)]), true)
      case ReleaseSavepoint(name) =>
        var k := Newest(s.savepoints, name);
        if k < 0 then Fail(s) else Result(s.(savepoints := s.savepoints[..k]), true)
      case RollbackTo(name) =>
        var k := Newest(s.savepoints, name);
        if k < 0 then Fail(s)
        else Result(s.(working := s.savepoints[k].saved, savepoints := s.savepoints[..k + 1], aborted := false), true)
      case Insert(t, id, rec, policy) =>
        (match Put(srv, s.working, t, id, rec, policy)
         case None => Fail(s)
         case Some(cat) => Result(s.(working := cat), true))
      case DisableTriggers(t) =>
        if t !in srv.alterable then Fail(s)
        else Result(s.(working := s.working.(untriggered := s.working.untriggered + {t})), true)
      case EnableTriggers(t) =>
        if t !in srv.alterable then Fail(s)
        else Result(s.(working := s.working.(untriggered := s.working.untriggered - {t})), true)
      case SetVal(t, v) =>
        if SequenceRefuses(srv, t, v) then Fail(s)
        else if t in srv.serial then Result(s.(sequences := s.sequences[t := v]), true)
        else Result(s, true)
  }

  /** COMMIT of an aborted transaction is a rollback; either way savepoints go. */
  function Commit(s: Session): Session {
    var kept := if s.aborted then s.committed else s.working;
    s.(committed := kept, working := kept, savepoints := [], aborted := false)
  }

  function Rollback(s: Session): Session {
    s.(working := s.committed, savepoints := [], aborted := false)
  }

  /** Not aborted, no savepoint, nothing uncommitted. */
  predicate Idle(s: Session) {
    !s.aborted && s.savepoints == [] && s.working == s.committed
  }

  // ---------------------------------------------------------------------------
  // Whole table functions, and the wrapper the orchestrator puts around each.

  /** One thing a table function does with its connection. A `guarded` statement
      sits in the per-row try block, so its error is swallowed. */
  datatype Action =
    | Do(stmt: Statement, guarded: bool)
    | DoCommit
    | DoRollback
    | Raise

  datatype Run = Run(session: Session, raised: bool)

  function Act(srv: Server, s: Session, a: Action): Run {
    match a
    case Do(stmt, guarded) =>
      var r := Execute(srv, s, stmt);
      Run(r.session, !r.ok && !guarded)
    case DoCommit => Run(Commit(s), false)
    case DoRollback => Run(Rollback(s), false)
    case Raise => Run(s, true)
  }

  function RunBody(srv: Server, s: Session, body: seq<Action>): Run
    decreases |body|
  {
    if body == [] then Run(s, false)
    else
      var r := Act(srv, s, body[0]);
      if r.raised then r else RunBody(srv, r.session, body[1..])
  }

  /** The except-branch: back to the savepoint, or a full rollback if that fails. */
  function Recover(srv: Server, s: Session, name: string): Session {
    var back := Execute(srv, s, RollbackTo(name));
    if !back.ok then Rollback(back.session)
    else
      var rel := Execute(srv, back.session, ReleaseSavepoint(name));
      if !rel.ok then Rollback(rel.session) else rel.session
  }

  /** One turn of the orchestrator's loop around an arbitrary table function;
      `raised` says that the step ended in its except-branch. */
  function WrapStep(srv: Server, s: Session, name: string, body: seq<Action>): Run {
    var begun := Execute(srv, s, SetSavepoint(name)).session;
    var r := RunBody(srv, begun, body);
    if r.raised then Run(Recover(srv, r.session, name), true)
    else
      var rel := Execute(srv, r.session, ReleaseSavepoint(name));
      if rel.ok then Run(Commit(rel.session), false)
      else Run(Recover(srv, rel.session, name), true)
  }

  /** Table functions never set, release or go back to savepoints themselves. */
  predicate LeavesSavepointsAlone(body: seq<Action>) {
    forall a | a in body && a.Do? :: a.stmt.Insert? || a.stmt.DisableTriggers? || a.stmt.EnableTriggers?
      || a.stmt.SetVal?
  }

  /** While a body runs, the savepoint is either still the only one, holding what
      was there before and with nothing committed since, or gone. */
  lemma {:induction false} BodyKeepsOrDropsSavepoint(srv: Server, s: Session, body: seq<Action>, sp: Savepoint,
                                                     base: Catalog)
    requires LeavesSavepointsAlone(body)
    requires s.savepoints == [] || (s.savepoints == [sp] && s.committed == base)
    ensures var e := RunBody(srv, s, body).session;
            e.savepoints == [] || (e.savepoints == [sp] && e.committed == base)
    decreases |body|
  {
    if body != [] {
      var r := Act(srv, s, body[0]);
      assert body[0] in body;
      if !r.raised {
        assert forall a | a in body[1..] :: a in body;
        BodyKeepsOrDropsSavepoint(srv, r.session, body[1..], sp, base);
      }
    }
  }

  /** Fault isolation: whatever a table function does (return, raise, commit,
      roll back, abort, carry on after errors), the connection is idle at the next
      loop head; everything the function committed stays; and its uncommitted work
      is kept exactly when it returned, unaborted, with its savepoint still there. */
  lemma WrapStepIsolates(srv: Server, s: Session, name: string, body: seq<Action>)
    requires Idle(s) && LeavesSavepointsAlone(body)
    ensures var w := WrapStep(srv, s, name, body);
            var begun := s.(savepoints := [Savepoint(name, s.working)]);
            var r := RunBody(srv, begun, body);
            && Idle(w.session)
            && (w.raised <==> r.raised || r.session.aborted || r.session.savepoints == [])
            && w.session.committed == (if w.raised then r.session.committed else r.session.working)
            && w.session.sequences == r.session.sequences
  {
    var sp := Savepoint(name, s.working);
    var begun := s.(savepoints := [sp]);
    assert Execute(srv, s, SetSavepoint(name)).session == begun;
    BodyKeepsOrDropsSavepoint(srv, begun, body, sp, s.committed);
    var e := RunBody(srv, begun, body).session;
    assert e.savepoints == [sp] ==> Newest(e.savepoints, name) == 0;
    assert e.savepoints == [] ==> Newest(e.savepoints, name) == -1;
  }

  /** Statements only, none of them about savepoints. */
  predicate PlainWork(body: seq<Action>) {
    LeavesSavepointsAlone(body) && forall a | a in body :: a.Do? || a.Raise?
  }

  lemma {:induction false} PlainWorkStaysInside(srv: Server, s: Session, body: seq<Action>)
    requires PlainWork(body)
    ensures var e := RunBody(srv, s, body).session; e.savepoints == s.savepoints && e.committed == s.committed
    decreases |body|
  {
    if body != [] {
      assert body[0] in body && forall a | a in body[1..] :: a in body;
      var r := Act(srv, s, body[0]);
      if !r.raised { PlainWorkStaysInside(srv, r.session, body[1..]); }
    }
  }

  /** What one call undoes: whatever was done since a savepoint, errors included, going
      back to it restores what the transaction had seen, and only sequences stay as they
      are. The savepoint can be gone back to again; releasing it leaves the earlier ones. */
  lemma RollbackToUndoes(srv: Server, s: Session, name: string, body: seq<Action>)
    requires !s.aborted && PlainWork(body)
    ensures var begun := Execute(srv, s, SetSavepoint(name)).session;
            var e := RunBody(srv, begun, body).session;
            var back := Execute(srv, e, RollbackTo(name));
            var released := Execute(srv, back.session, ReleaseSavepoint(name));
            && back.ok && back.session == begun.(sequences := e.sequences)
            && Execute(srv, back.session, RollbackTo(name)) == back
            && released.ok && released.session == s.(sequences := e.sequences)
  {
    var begun := Execute(srv, s, SetSavepoint(name)).session;
    PlainWorkStaysInside(srv, begun, body);
    assert Newest(begun.savepoints, name) == |s.savepoints|;
    assert begun.savepoints[..|s.savepoints| + 1] == begun.savepoints;
    assert begun.savepoints[..|s.savepoints|] == s.savepoints;
  }
}
