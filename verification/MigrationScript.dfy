/** The table functions and the orchestrator of `db_migration/migrate.py`, over a
    connection object whose fields they change. */
module MigrationScript {
  import opened Options
  import opened MigrationSession

  /** The amount columns of a legacy invoice; None is a NULL. */
  datatype Amounts = Amounts(
    cash: Option<int>, visa: Option<int>, mastercard: Option<int>, amex: Option<int>,
    bankTransfer: Option<int>, cheque: Option<int>, credit: Option<int>)

  /** What one legacy row holds. `Unreadable` is a row for which building the
      parameters raises in Python (a missing key, a bad number). */
  datatype Source =
    | Unreadable
    | Columns(fields: Fields)
    | Bill(refs: set<Ref>, amounts: Amounts)

  datatype Legacy = Legacy(id: int, source: Source)

  /** ON CONFLICT DO NOTHING; auth_group's DO UPDATE; invoices, loaded with
      triggers off. */
  datatype Kind = Keeps | Updates | Untriggered

  /** One entry of MIGRATION_STEPS; `source` is None when the SELECT raises. */
  datatype Step = Step(name: string, table: Table, kind: Kind, source: Option<seq<Legacy>>)

  datatype Entry = Entry(name: string, inserted: nat, skipped: nat, ok: bool)

  function OrZero(v: Option<int>): int {
    match v case None => 0 case Some(n) => n
  }

  function PaidOf(a: Amounts): int {
    OrZero(a.cash) + OrZero(a.visa) + OrZero(a.mastercard) + OrZero(a.amex)
    + OrZero(a.bankTransfer) + OrZero(a.cheque)
  }

  function Convert(src: Source): Option<Fields> {
    match src
    case Unreadable => None
    case Columns(fields) => Some(fields)
    case Bill(refs, a) =>
      var credit := OrZero(a.credit);
      var paid := PaidOf(a);
      var status := if credit == 0 then Paid else if paid > 0 then Partial else Unpaid;
      Some(Fields(refs, Invoice(paid + credit, paid, credit, status)))
  }

  function PolicyOf(kind: Kind): Policy {
    if kind == Updates then DoUpdate else DoNothing
  }

  function MaxId(rows: seq<Legacy>): (m: int)
    requires rows != []
    ensures exists k :: 0 <= k < |rows| && rows[k].id == m
    ensures forall k :: 0 <= k < |rows| ==> rows[k].id <= m
  {
    if |rows| == 1 then rows[0].id
    else
      var m := MaxId(rows[1..]);
      assert forall k :: 1 <= k < |rows| ==> rows[k] == rows[1..][k - 1];
      if rows[0].id > m then rows[0].id else m
  }

  function RowActions(t: Table, policy: Policy, rows: seq<Legacy>, now: int): seq<Action> {
    if rows == [] then []
    else
      (match Convert(rows[0].source)
       case None => []
       case Some(f) => [Do(Insert(t, rows[0].id, Record(f, now), policy), true)])
      + RowActions(t, policy, rows[1..], now)
  }

  /** setval with max(id), which Python skips when that is 0; then commit. */
  function ClosingActions(t: Table, max: int): seq<Action> {
    (if max != 0 then [Do(SetVal(t, max), false)] else []) + [DoCommit]
  }

  function TriggersOff(step: Step): seq<Action> {
    if step.kind == Untriggered then [Do(DisableTriggers(step.table), false)] else []
  }

  function TriggersOn(step: Step): seq<Action> {
    if step.kind == Untriggered then [Do(EnableTriggers(step.table), false)] else []
  }

  /** Everything a table function does with its connection. */
  function TableActions(step: Step, now: int): seq<Action> {
    match step.source
    case None => [Raise]
    case Some(rows) =>
      if rows == [] then []
      else
        TriggersOff(step)
        + (RowActions(step.table, PolicyOf(step.kind), rows, now)
           + (TriggersOn(step) + ClosingActions(step.table, MaxId(rows))))
  }

  /** The orchestrator's loop: every step, each in its own wrapper. */
  function RunSteps(srv: Server, s: Session, steps: seq<Step>, now: int): Session
    decreases |steps|
  {
    if steps == [] then s
    else RunSteps(srv, WrapStep(srv, s, steps[0].name, TableActions(steps[0], now)).session, steps[1..], now)
  }

  class Connection {
    const server: Server
    var committed: Catalog
    var working: Catalog
    var savepoints: seq<Savepoint>
    var aborted: bool
    var sequences: map<Table, int>

    constructor (server: Server, stored: Catalog, sequences: map<Table, int>)
      ensures this.server == server && View() == Session(stored, stored, [], false, sequences)
    {
      this.server := server;
      committed, working := stored, stored;
      savepoints, aborted := [], false;
      this.sequences := sequences;
    }

    ghost function View(): Session
      reads this
    {
      Session(committed, working, savepoints, aborted, sequences)
    }

    /** A statement sent over a cursor; false when the driver raises. */
    method Send(stmt: Statement) returns (ok: bool)
      modifies this
      ensures Result(View(), ok) == Execute(server, old(View()), stmt)
    {
      ok := !aborted || stmt.RollbackTo?;
      if ok {
        match stmt {
          case SetSavepoint(name) =>
            savepoints := savepoints + [Savepoint(name, working)];
          case ReleaseSavepoint(name) =>
            var k := Newest(savepoints, name);
            ok := k >= 0;
            if ok { savepoints := savepoints[..k]; }
          case RollbackTo(name) =>
            var k := Newest(savepoints, name);
            ok := k >= 0;
            if ok { working, savepoints, aborted := savepoints[k].saved, savepoints[..k + 1], false; }
          case Insert(t, id, rec, policy) =>
            var put := Put(server, working, t, id, rec, policy);
            ok := put.Some?;
            if ok { working := put.value; }
          case DisableTriggers(t) =>
            ok := t in server.alterable;
            if ok { working := working.(untriggered := working.untriggered + {t}); }
          case EnableTriggers(t) =>
            ok := t in server.alterable;
            if ok { working := working.(untriggered := working.untriggered - {t}); }
          case SetVal(t, v) =>
            ok := !SequenceRefuses(server, t, v);
            if ok && t in server.serial { sequences := sequences[t := v]; }
        }
      }
      if !ok { aborted := true; }
    }

    method CommitWork()
      modifies this
      ensures View() == Commit(old(View()))
    {
      if aborted { working := committed; } else { committed := working; }
      savepoints, aborted := [], false;
    }

    method RollbackWork()
      modifies this
      ensures View() == Rollback(old(View()))
    {
      working, savepoints, aborted := committed, [], false;
    }
  }

  /** The row loop of a table function, each row in its own try block; `tail` is
      what the function does afterwards. */
  method LoadEachRow(pg: Connection, t: Table, policy: Policy, rows: seq<Legacy>, now: int, ghost tail: seq<Action>)
    returns (ins: nat, skp: nat)
    modifies pg
    ensures RunBody(pg.server, old(pg.View()), RowActions(t, policy, rows, now) + tail)
         == RunBody(pg.server, pg.View(), tail)
    ensures ins + skp == |rows|
  {
    ins, skp := 0, 0;
    var i := 0;
    assert rows[0..] == rows;
    while i < |rows|
      invariant 0 <= i <= |rows| && ins + skp == i
      invariant RunBody(pg.server, old(pg.View()), RowActions(t, policy, rows, now) + tail)
             == RunBody(pg.server, pg.View(), RowActions(t, policy, rows[i..], now) + tail)
    {
      ghost var rest := RowActions(t, policy, rows[i + 1..], now) + tail;
      assert rows[i..][1..] == rows[i + 1..];
      match Convert(rows[i].source) {
        case None =>
          skp := skp + 1;
          assert RowActions(t, policy, rows[i..], now) + tail == rest;
        case Some(f) =>
          var stmt := Insert(t, rows[i].id, Record(f, now), policy);
          assert RowActions(t, policy, rows[i..], now) + tail == [Do(stmt, true)] + rest;
          var ok := pg.Send(stmt);
          if ok { ins := ins + 1; } else { skp := skp + 1; }
      }
      i := i + 1;
    }
    assert RowActions(t, policy, rows[i..], now) + tail == tail;
  }

  /** `upsert_seq`, which leaves a maximum of 0 alone, and the commit. */
  method FinishTable(pg: Connection, t: Table, max: int) returns (raised: bool)
    modifies pg
    ensures Run(pg.View(), raised) == RunBody(pg.server, old(pg.View()), ClosingActions(t, max))
  {
    if max != 0 {
      assert ClosingActions(t, max)[1..] == [DoCommit];
      var ok := pg.Send(SetVal(t, max));
      if !ok { return true; }
    }
    ghost var v := pg.View();
    assert RunBody(pg.server, old(pg.View()), ClosingActions(t, max)) == RunBody(pg.server, v, [DoCommit]);
    assert RunBody(pg.server, v, [DoCommit]) == Run(Commit(v), false) by { assert [DoCommit][1..] == []; }
    pg.CommitWork();
    return false;
  }

  /** A `migrate_*` function: the row loop, setval, commit. */
  method MigrateTable(pg: Connection, step: Step, now: int) returns (raised: bool, ins: nat, skp: nat)
    modifies pg
    ensures Run(pg.View(), raised) == RunBody(pg.server, old(pg.View()), TableActions(step, now))
    ensures !raised ==> step.source.Some? && ins + skp == |step.source.value|
  {
    raised, ins, skp := false, 0, 0;
    if step.source.None? { return true, 0, 0; }
    var rows := step.source.value;
    if rows == [] { return; }
    var max := MaxId(rows);
    ghost var closing := ClosingActions(step.table, max);
    ghost var tail := TriggersOn(step) + closing;
    ghost var rowsAndTail := RowActions(step.table, PolicyOf(step.kind), rows, now) + tail;
    if step.kind == Untriggered {
      assert TableActions(step, now)[1..] == rowsAndTail;
      var ok := pg.Send(DisableTriggers(step.table));
      if !ok { return true, 0, 0; }
    } else {
      assert TableActions(step, now) == rowsAndTail;
    }
    ins, skp := LoadEachRow(pg, step.table, PolicyOf(step.kind), rows, now, tail);
    if step.kind == Untriggered {
      assert tail[1..] == closing;
      var ok := pg.Send(EnableTriggers(step.table));
      if !ok { return true, ins, skp; }
    } else {
      assert tail == closing;
    }
    raised := FinishTable(pg, step.table, max);
  }

  /** One turn of the loop in `run_migration`: savepoint, table function, release,
      commit; on any exception, back to the savepoint or a full rollback. */
  method RunStep(pg: Connection, step: Step, now: int) returns (entry: Entry)
    requires !pg.aborted
    modifies pg
    ensures var w := WrapStep(pg.server, old(pg.View()), step.name, TableActions(step, now));
            pg.View() == w.session && entry.ok == !w.raised
    ensures entry.name == step.name
  {
    var begun := pg.Send(SetSavepoint(step.name));
    var raised, ins, skp := MigrateTable(pg, step, now);
    if !raised {
      var released := pg.Send(ReleaseSavepoint(step.name));
      if released {
        pg.CommitWork();
        return Entry(step.name, ins, skp, true);
      }
    }
    var back := pg.Send(RollbackTo(step.name));
    if back {
      back := pg.Send(ReleaseSavepoint(step.name));
    }
    if !back { pg.RollbackWork(); }
    return Entry(step.name, 0, 0, false);
  }
}
