/** What arrives: closed data arrives whole, foreign keys survive except where
    triggers are off, and sequences. */
module MigrationLoads {
  import opened Options
  import opened MigrationSession
  import opened MigrationScript
  import opened MigrationRefinement
  import opened MigrationTheorems

  /** Every stored reference has its parent. */
  predicate Closed(rows: map<Table, Rows>) {
    forall t, id | t in rows && id in rows[t] :: RefsResolve(rows, rows[t][id].fields.refs)
  }

  /** Row `k` would be new, and some parent of it is missing. */
  predicate Dangles(rows: map<Table, Rows>, t: Table, source: seq<Legacy>, k: nat)
    requires k < |source|
  {
    && t in rows && source[k].id !in rows[t]
    && Convert(source[k].source).Some?
    && !RefsResolve(rows, Convert(source[k].source).value.refs)
  }

  lemma {:induction false} LoadedRowsKeepClosure(srv: Server, cat: Catalog, t: Table, policy: Policy,
                                                 rows: seq<Legacy>, now: int)
    requires Closed(cat.rows) && LoadRows(srv, cat, t, policy, rows, now).Some?
    requires t in cat.untriggered ==> forall k | 0 <= k < |rows| :: !Dangles(cat.rows, t, rows, k)
    ensures Closed(LoadRows(srv, cat, t, policy, rows, now).value.rows)
    decreases |rows|
  {
    if rows != [] {
      var next := match Convert(rows[0].source)
                  case None => cat
                  case Some(f) => Put(srv, cat, t, rows[0].id, Record(f, now), policy).value;
      assert Closed(next.rows) by {
        if Convert(rows[0].source).Some? { assert !(t in cat.untriggered && Dangles(cat.rows, t, rows, 0)); }
      }
      forall k | 0 <= k < |rows[1..]| && t in next.untriggered ensures !Dangles(next.rows, t, rows[1..], k) {
        assert !Dangles(cat.rows, t, rows, k + 1);
      }
      LoadedRowsKeepClosure(srv, next, t, policy, rows[1..], now);
    }
  }

  lemma {:induction false} NewRowIsStored(srv: Server, cat: Catalog, t: Table, policy: Policy, rows: seq<Legacy>,
                                          now: int, k: nat)
    requires LoadRows(srv, cat, t, policy, rows, now).Some? && DistinctIds(rows)
    requires k < |rows| && t in cat.rows && rows[k].id !in cat.rows[t] && Convert(rows[k].source).Some?
    ensures var c := LoadRows(srv, cat, t, policy, rows, now).value.rows;
            t in c && rows[k].id in c[t] && c[t][rows[k].id] == Record(Convert(rows[k].source).value, now)
    decreases |rows|
  {
    var next := match Convert(rows[0].source)
                case None => cat
                case Some(f) => Put(srv, cat, t, rows[0].id, Record(f, now), policy).value;
    if k == 0 {
      OtherRowsStay(srv, next, t, policy, rows[1..], now, rows[0].id);
    } else {
      NewRowIsStored(srv, next, t, policy, rows[1..], now, k - 1);
    }
  }

  /** The step loads with triggers off, is accepted, and brings a new row whose parent
      is missing. */
  predicate StepDangles(srv: Server, cat: Catalog, step: Step, now: int) {
    var rows := SourceRows(step);
    && step.kind == Untriggered && rows != [] && LoadTable(srv, cat, step, now).Some?
    && exists k :: 0 <= k < |rows| && Dangles(cat.rows, step.table, rows, k)
  }

  predicate Missing(rows: map<Table, Rows>, r: Ref) {
    !(r.table in rows && r.id in rows[r.table])
  }

  lemma DanglingRowIsStored(srv: Server, cat: Catalog, step: Step, now: int) returns (id: int, r: Ref)
    requires StepDangles(srv, cat, step, now) && cat.untriggered == {}
    requires DistinctIds(SourceRows(step)) && step.table !in Targets(SourceRows(step))
    ensures var t, next := step.table, StepFold(srv, cat, step, now).rows;
            && t in next && id in next[t] && r in next[t][id].fields.refs
            && r.table in Targets(SourceRows(step)) && Missing(cat.rows, r) && Missing(next, r)
  {
    var t, rows := step.table, SourceRows(step);
    var off := cat.(untriggered := cat.untriggered + {t});
    var k :| 0 <= k < |rows| && Dangles(cat.rows, t, rows, k);
    id := rows[k].id;
    LoadRowsExtends(srv, off, t, DoNothing, rows, now);
    NewRowIsStored(srv, off, t, DoNothing, rows, now, k);
    TargetsHoldRefs(rows, k);
    r :| r in Convert(rows[k].source).value.refs && Missing(cat.rows, r);
  }

  /** Foreign keys survive a step except in that one case. */
  lemma StepClosure(srv: Server, cat: Catalog, step: Step, now: int)
    requires Closed(cat.rows) && cat.untriggered == {}
    requires DistinctIds(SourceRows(step)) && step.table !in Targets(SourceRows(step))
    ensures Closed(StepFold(srv, cat, step, now).rows) <==> !StepDangles(srv, cat, step, now)
  {
    var t, rows, policy := step.table, SourceRows(step), PolicyOf(step.kind);
    if StepDangles(srv, cat, step, now) {
      var id, r := DanglingRowIsStored(srv, cat, step, now);
      var next: map<Table, Rows> := StepFold(srv, cat, step, now).rows;
      assert !RefsResolve(next, next[t][id].fields.refs);
    } else if rows != [] && LoadTable(srv, cat, step, now).Some? {
      var off := cat.(untriggered := if step.kind == Untriggered then cat.untriggered + {t} else {});
      LoadedRowsKeepClosure(srv, off, t, policy, rows, now);
    }
  }

  /** Some step dangles when its turn comes. */
  predicate RunDangles(srv: Server, cat: Catalog, steps: seq<Step>, now: int)
    decreases |steps|
  {
    steps != []
    && (StepDangles(srv, cat, steps[0], now) || RunDangles(srv, StepFold(srv, cat, steps[0], now), steps[1..], now))
  }

  /** A whole run, parents first, ends closed exactly if no step dangles: no later step
      brings the missing parent. */
  lemma {:induction false} RunClosure(srv: Server, cat: Catalog, steps: seq<Step>, now: int)
    requires Closed(cat.rows) && cat.untriggered == {} && ParentsFirst(steps)
    requires forall i | 0 <= i < |steps| :: DistinctIds(SourceRows(steps[i]))
    ensures Closed(RunFold(srv, cat, steps, now).rows) <==> !RunDangles(srv, cat, steps, now)
    decreases |steps|
  {
    if steps != [] {
      var next, rest := StepFold(srv, cat, steps[0], now), steps[1..];
      StepExtends(srv, cat, steps[0], now);
      StepClosure(srv, cat, steps[0], now);
      if StepDangles(srv, cat, steps[0], now) {
        var id, r := DanglingRowIsStored(srv, cat, steps[0], now);
        RunKeepsTargetRows(srv, next, rest, now, steps[0].table, id);
        RunLeavesOtherTables(srv, next, rest, now, r.table);
        var end: map<Table, Rows> := RunFold(srv, next, rest, now).rows;
        assert !RefsResolve(end, end[steps[0].table][id].fields.refs);
      } else {
        RunClosure(srv, next, rest, now);
      }
    }
  }

  lemma {:induction false} TargetsHoldRefs(rows: seq<Legacy>, k: nat)
    requires k < |rows| && Convert(rows[k].source).Some?
    ensures forall r | r in Convert(rows[k].source).value.refs :: r.table in Targets(rows)
    decreases |rows|
  {
    if k > 0 { TargetsHoldRefs(rows[1..], k - 1); }
  }

  /** The exception occurs: an invoice whose customer does not exist is committed. */
  lemma InvoiceWithoutCustomerIsCommitted(now: int)
    ensures var srv := Server((t, i, f) => true, (t, o, i, f) => false, {}, {"invoices"});
            var cat := Catalog(map["customers" := map[], "invoices" := map[]], {});
            var amounts := Amounts(Some(100), None, None, None, None, None, None);
            var step := Step("invoices", "invoices", Untriggered,
                Some([Legacy(1, Bill({Ref("customers", 7)}, amounts))]));
            Closed(cat.rows) && !Closed(StepFold(srv, cat, step, now).rows)
  {
    var srv := Server((t: Table, i: int, f: Fields) => true,
        (t: Table, o: map<int, Fields>, i: int, f: Fields) => false, {}, {"invoices"});
    var cat := Catalog(map["customers" := map[], "invoices" := map[]], {});
    var bill := Bill({Ref("customers", 7)}, Amounts(Some(100), None, None, None, None, None, None));
    var rows := [Legacy(1, bill)];
    var step := Step("invoices", "invoices", Untriggered, Some(rows));
    var off := cat.(untriggered := {"invoices"});
    assert cat.untriggered + {"invoices"} == {"invoices"};
    var f := Convert(bill).value;
    var put := Put(srv, off, "invoices", 1, Record(f, now), DoNothing);
    assert put.Some?;
    assert rows[1..] == [];
    assert LoadRows(srv, off, "invoices", DoNothing, rows, now) == put;
    assert !srv.clash("invoices", map[], 0, f) && "invoices" !in srv.serial;
    assert StepFold(srv, cat, step, now).rows == put.value.rows;
    assert put.value.rows["invoices"][1].fields.refs == {Ref("customers", 7)};
    assert Ref("customers", 7) in f.refs && 7 !in put.value.rows["customers"];
  }

  // ---------------------------------------------------------------------------
  // Completeness.

  /** Nothing but a foreign key could go wrong with this step. */
  predicate Faultless(srv: Server, step: Step) {
    && step.source.Some?
    && (step.kind == Untriggered ==> step.table in srv.alterable)
    && (forall k | 0 <= k < |step.source.value| ::
          var row := step.source.value[k];
          Convert(row.source).Some? && srv.check(step.table, row.id, Convert(row.source).value))
    && (step.source.value != [] ==>
          var max := MaxId(step.source.value);
          max == 0 || step.table !in srv.serial || 1 <= max <= 0x7FFF_FFFF)
  }

  predicate Readable(rows: seq<Legacy>, k: nat, id: int)
    requires k < |rows|
  {
    rows[k].id == id && Convert(rows[k].source).Some?
  }

  /** Loading `rows` over `start` may write `f` to row `id`: a new row as its source row
      has it, or the content of one merged into the row that is there. */
  predicate MayWrite(start: map<int, Fields>, policy: Policy, rows: seq<Legacy>, id: int, f: Fields) {
    exists j: nat, k: nat :: j < |rows| && k < |rows| && Readable(rows, j, id) && Readable(rows, k, id)
      && f.content == Convert(rows[k].source).value.content
      && f.refs == (if id in start then start[id].refs else Convert(rows[j].source).value.refs)
      && (policy == DoNothing ==> id !in start && j == k)
  }

  /** `own` lies between `start` and `start` with all of `rows` loaded. */
  predicate Between(start: map<int, Fields>, policy: Policy, rows: seq<Legacy>, own: map<int, Fields>) {
    && start.Keys <= own.Keys
    && forall id | id in own :: (id in start && own[id] == start[id]) || MayWrite(start, policy, rows, id, own[id])
  }

  /** No row this load may write breaks a unique column of a table it may meet. */
  ghost predicate Unclashing(srv: Server, t: Table, start: map<int, Fields>, policy: Policy, rows: seq<Legacy>) {
    forall own, id, f :: Between(start, policy, rows, own) && MayWrite(start, policy, rows, id, f)
      ==> !srv.clash(t, own, id, f)
  }

  predicate HasId(rows: seq<Legacy>, id: int) {
    exists k :: 0 <= k < |rows| && rows[k].id == id
  }

  /** The parent `r` is in the target, or an earlier step brings it. */
  predicate Supplied(rows: map<Table, Rows>, steps: seq<Step>, i: nat, r: Ref)
    requires i <= |steps|
  {
    r.table in rows && (r.id in rows[r.table]
      || exists j :: 0 <= j < i && steps[j].table == r.table && HasId(SourceRows(steps[j]), r.id))
  }

  predicate SourceClosed(rows: map<Table, Rows>, steps: seq<Step>) {
    forall i | 0 <= i < |steps| ::
      forall k | 0 <= k < |SourceRows(steps[i])| && Convert(SourceRows(steps[i])[k].source).Some? ::
        forall r | r in Convert(SourceRows(steps[i])[k].source).value.refs :: Supplied(rows, steps, i, r)
  }

  predicate Sendable(srv: Server, cat: Catalog, t: Table, row: Legacy) {
    var f := Convert(row.source);
    f.Some? && srv.check(t, row.id, f.value) && RefsResolve(cat.rows, f.value.refs)
  }

  /** What writing the fields `f` to row `id` leaves there. */
  function MergedInto(own: map<int, Fields>, id: int, f: Fields): Fields {
    if id in own then own[id].(content := f.content) else f
  }

  lemma UnclashingPut(srv: Server, cat: Catalog, t: Table, policy: Policy, row: Legacy, now: int)
    requires t in cat.rows && Sendable(srv, cat, t, row)
    requires var own, f := FieldsOf(cat.rows[t]), Convert(row.source).value;
             row.id !in own || policy == DoUpdate ==> !srv.clash(t, own, row.id, MergedInto(own, row.id, f))
    ensures var own, f := FieldsOf(cat.rows[t]), Convert(row.source).value;
            var put := Put(srv, cat, t, row.id, Record(f, now), policy);
            && put.Some? && put.value.rows.Keys == cat.rows.Keys
            && (forall p | p in cat.rows && p != t :: put.value.rows[p] == cat.rows[p])
            && FieldsOf(put.value.rows[t]) ==
               if row.id in own && policy == DoNothing then own else own[row.id := MergedInto(own, row.id, f)]
  {
    var own, f := cat.rows[t], Convert(row.source).value;
    var next := if row.id in own then own[row.id].(fields := own[row.id].fields.(content := f.content))
                else Record(f, now);
    assert FieldsOf(own[row.id := next]) == FieldsOf(own)[row.id := next.fields];
    assert RefsResolve(cat.rows[t := own[row.id := next]], f.refs);
  }

  /** Writing one row of `all` is not refused, stays between, and takes no parent away. */
  lemma RowIsWritten(srv: Server, cat: Catalog, t: Table, policy: Policy, all: seq<Legacy>, now: int,
                     start: map<int, Fields>, n: nat)
    requires n < |all| && t in cat.rows && Sendable(srv, cat, t, all[n])
    requires Unclashing(srv, t, start, policy, all) && Between(start, policy, all, FieldsOf(cat.rows[t]))
    ensures var put := Put(srv, cat, t, all[n].id, Record(Convert(all[n].source).value, now), policy);
            && put.Some? && t in put.value.rows && Between(start, policy, all, FieldsOf(put.value.rows[t]))
            && put.value.rows.Keys == cat.rows.Keys && cat.rows[t].Keys <= put.value.rows[t].Keys
            && (forall p | p in cat.rows && p != t :: put.value.rows[p] == cat.rows[p])
  {
    var own := FieldsOf(cat.rows[t]);
    if all[n].id !in own || policy == DoUpdate { MergedMayBeWritten(start, policy, all, own, n); }
    UnclashingPut(srv, cat, t, policy, all[n], now);
    var put := Put(srv, cat, t, all[n].id, Record(Convert(all[n].source).value, now), policy);
    assert FieldsOf(put.value.rows[t]).Keys == put.value.rows[t].Keys;
  }

  lemma MergedMayBeWritten(start: map<int, Fields>, policy: Policy, all: seq<Legacy>, own: map<int, Fields>, n: nat)
    requires n < |all| && Between(start, policy, all, own) && Convert(all[n].source).Some?
    requires all[n].id !in own || policy == DoUpdate
    ensures var id, f := all[n].id, Convert(all[n].source).value;
            MayWrite(start, policy, all, id, MergedInto(own, id, f))
  {
    var id := all[n].id;
    assert Readable(all, n, id);
    if id in own && id !in start {
      var j: nat, k: nat :| j < |all| && k < |all| && Readable(all, j, id) && Readable(all, k, id)
        && own[id].refs == Convert(all[j].source).value.refs;
    }
  }

  /** Rows whose parents are there and whose unique columns are free all load. */
  lemma {:induction false} ResolvedRowsLoad(srv: Server, cat: Catalog, t: Table, policy: Policy, all: seq<Legacy>,
                                            now: int, start: map<int, Fields>, n: nat)
    requires n <= |all| && t in cat.rows
    requires forall k | n <= k < |all| :: Sendable(srv, cat, t, all[k])
    requires Unclashing(srv, t, start, policy, all) && Between(start, policy, all, FieldsOf(cat.rows[t]))
    ensures LoadRows(srv, cat, t, policy, all[n..], now).Some?
    decreases |all| - n
  {
    if n < |all| {
      assert all[n..][0] == all[n] && all[n..][1..] == all[n + 1..];
      RowIsWritten(srv, cat, t, policy, all, now, start, n);
      var next := Put(srv, cat, t, all[n].id, Record(Convert(all[n].source).value, now), policy).value;
      forall k | n + 1 <= k < |all| ensures Sendable(srv, next, t, all[k]) {
        assert Sendable(srv, cat, t, all[k]);
      }
      ResolvedRowsLoad(srv, next, t, policy, all, now, start, n + 1);
    }
  }

  lemma {:induction false} LoadedIdsArePresent(srv: Server, cat: Catalog, t: Table, policy: Policy, rows: seq<Legacy>,
                                               now: int, k: nat)
    requires LoadRows(srv, cat, t, policy, rows, now).Some? && t in cat.rows
    requires k < |rows| && Convert(rows[k].source).Some?
    ensures var c := LoadRows(srv, cat, t, policy, rows, now).value.rows;
            t in c && rows[k].id in c[t]
    decreases |rows|
  {
    var next := match Convert(rows[0].source)
                case None => cat
                case Some(f) => Put(srv, cat, t, rows[0].id, Record(f, now), policy).value;
    LoadRowsExtends(srv, next, t, policy, rows[1..], now);
    if k > 0 { LoadedIdsArePresent(srv, next, t, policy, rows[1..], now, k - 1); }
  }

  /** Nothing that the step's table holds gets in the way of its rows. */
  ghost predicate StepUnclashing(srv: Server, rows: map<Table, Rows>, step: Step) {
    step.table in rows
    && Unclashing(srv, step.table, FieldsOf(rows[step.table]), PolicyOf(step.kind), SourceRows(step))
  }

  lemma FaultlessStepLoads(srv: Server, cat: Catalog, step: Step, now: int)
    requires Closed(cat.rows) && cat.untriggered == {}
    requires Faultless(srv, step) && StepUnclashing(srv, cat.rows, step)
    requires forall k | 0 <= k < |SourceRows(step)| ::
             RefsResolve(cat.rows, Convert(SourceRows(step)[k].source).value.refs)
    ensures SourceRows(step) != [] ==> LoadTable(srv, cat, step, now).Some?
    ensures var next := StepFold(srv, cat, step, now);
            && Closed(next.rows) && step.table in next.rows
            && forall k | 0 <= k < |SourceRows(step)| :: SourceRows(step)[k].id in next.rows[step.table]
  {
    var t, rows, policy := step.table, SourceRows(step), PolicyOf(step.kind);
    if rows != [] {
      var off := cat.(untriggered := if step.kind == Untriggered then cat.untriggered + {t} else {});
      assert rows[0..] == rows;
      ResolvedRowsLoad(srv, off, t, policy, rows, now, FieldsOf(cat.rows[t]), 0);
      LoadRowsExtends(srv, off, t, policy, rows, now);
      LoadedRowsKeepClosure(srv, off, t, policy, rows, now);
      forall k | 0 <= k < |rows| ensures rows[k].id in LoadRows(srv, off, t, policy, rows, now).value.rows[t] {
        LoadedIdsArePresent(srv, off, t, policy, rows, now, k);
      }
    }
  }

  /** If target and source are closed, no row is refused for itself or for a unique
      column, and each key points at a row already there or brought by an earlier step,
      then nothing is refused: every source id arrives and the target stays closed, the
      invoices loaded with triggers off included. */
  lemma {:induction false} ClosedDataArrivesWhole(srv: Server, cat: Catalog, steps: seq<Step>, now: int)
    requires Closed(cat.rows) && cat.untriggered == {} && OneStepPerTable(steps)
    requires forall i | 0 <= i < |steps| :: Faultless(srv, steps[i]) && StepUnclashing(srv, cat.rows, steps[i])
    requires SourceClosed(cat.rows, steps)
    ensures var end := RunFold(srv, cat, steps, now);
            && Closed(end.rows) && end.untriggered == {} && end.rows.Keys == cat.rows.Keys
            && (forall i | 0 <= i < |steps| :: forall k | 0 <= k < |SourceRows(steps[i])| ::
                  steps[i].table in end.rows && SourceRows(steps[i])[k].id in end.rows[steps[i].table])
    decreases |steps|
  {
    if steps != [] {
      var next := StepFold(srv, cat, steps[0], now);
      var rest := steps[1..];
      StepExtends(srv, cat, steps[0], now);
      forall k | 0 <= k < |SourceRows(steps[0])|
        ensures RefsResolve(cat.rows, Convert(SourceRows(steps[0])[k].source).value.refs)
      {
        forall r | r in Convert(SourceRows(steps[0])[k].source).value.refs
          ensures r.table in cat.rows && r.id in cat.rows[r.table]
        {
          assert Supplied(cat.rows, steps, 0, r);
        }
      }
      FaultlessStepLoads(srv, cat, steps[0], now);
      SourceStaysClosed(cat.rows, next.rows, steps);
      forall i | 0 <= i < |rest| ensures Faultless(srv, rest[i]) && StepUnclashing(srv, next.rows, rest[i]) {
        assert rest[i] == steps[i + 1] && rest[i].table != steps[0].table;
      }
      ClosedDataArrivesWhole(srv, next, rest, now);
      var end := RunFold(srv, next, rest, now);
      forall k | 0 <= k < |SourceRows(steps[0])| ensures SourceRows(steps[0])[k].id in end.rows[steps[0].table] {
        RunKeepsTargetRows(srv, next, rest, now, steps[0].table, SourceRows(steps[0])[k].id);
      }
      forall i | 1 <= i < |steps| ensures steps[i] == rest[i - 1] {}
    }
  }

  lemma SourceStaysClosed(rows: map<Table, Rows>, next: map<Table, Rows>, steps: seq<Step>)
    requires steps != [] && SourceClosed(rows, steps) && rows.Keys == next.Keys
    requires forall t, id | t in rows && id in rows[t] :: id in next[t]
    requires steps[0].table in next
    requires forall k | 0 <= k < |SourceRows(steps[0])| :: SourceRows(steps[0])[k].id in next[steps[0].table]
    ensures SourceClosed(next, steps[1..])
  {
    var rest := steps[1..];
    forall i, k, r | 0 <= i < |rest| && 0 <= k < |SourceRows(rest[i])| && Convert(SourceRows(rest[i])[k].source).Some?
                     && r in Convert(SourceRows(rest[i])[k].source).value.refs
      ensures Supplied(next, rest, i, r)
    {
      assert rest[i] == steps[i + 1];
      assert Supplied(rows, steps, i + 1, r);
      if r.id !in next[r.table] {
        var j :| 0 <= j < i + 1 && steps[j].table == r.table && HasId(SourceRows(steps[j]), r.id);
        assert j > 0;
        assert rest[j - 1] == steps[j];
      }
    }
  }

  // ---------------------------------------------------------------------------
  // Unique columns.

  /** What a unique column compares; None is a NULL, which never clashes. */
  type Column = Fields -> Option<int>

  predicate Collide(columns: seq<Column>, f: Fields, g: Fields) {
    exists c :: 0 <= c < |columns| && columns[c](f).Some? && columns[c](f) == columns[c](g)
  }

  ghost predicate HasUniqueColumns(srv: Server, t: Table, columns: seq<Column>) {
    forall own: map<int, Fields>, id, f ::
      srv.clash(t, own, id, f) <==> exists i :: i in own && i != id && Collide(columns, own[i], f)
  }

  predicate NoneCollide(columns: seq<Column>, own: map<int, Fields>) {
    forall i, j | i in own && j in own && i != j :: !Collide(columns, own[i], own[j])
  }

  /** Row `id` of target and source together: the target's, else the source's. */
  predicate Held(start: map<int, Fields>, rows: seq<Legacy>, id: int, f: Fields) {
    if id in start then f == start[id]
    else exists k: nat :: k < |rows| && Readable(rows, k, id) && f == Convert(rows[k].source).value
  }

  ghost predicate HeldApart(columns: seq<Column>, start: map<int, Fields>, rows: seq<Legacy>) {
    forall i, f, j, g | Held(start, rows, i, f) && Held(start, rows, j, g) && i != j :: !Collide(columns, f, g)
  }

  /** No load, updating or not, leaves two rows with a shared unique value. */
  lemma {:induction false} LoadedRowsDoNotCollide(srv: Server, cat: Catalog, t: Table, policy: Policy,
                                                  rows: seq<Legacy>, now: int, columns: seq<Column>)
    requires HasUniqueColumns(srv, t, columns) && LoadRows(srv, cat, t, policy, rows, now).Some?
    requires t in cat.rows && NoneCollide(columns, FieldsOf(cat.rows[t]))
    ensures var c := LoadRows(srv, cat, t, policy, rows, now).value;
            t in c.rows && NoneCollide(columns, FieldsOf(c.rows[t]))
    decreases |rows|
  {
    if rows != [] {
      match Convert(rows[0].source) {
        case None => LoadedRowsDoNotCollide(srv, cat, t, policy, rows[1..], now, columns);
        case Some(f) =>
          WrittenRowDoesNotCollide(srv, cat, t, policy, rows[0].id, f, now, columns);
          var next := Put(srv, cat, t, rows[0].id, Record(f, now), policy).value;
          LoadedRowsDoNotCollide(srv, next, t, policy, rows[1..], now, columns);
      }
    }
  }

  lemma WrittenRowDoesNotCollide(srv: Server, cat: Catalog, t: Table, policy: Policy, id: int, f: Fields, now: int,
                                 columns: seq<Column>)
    requires HasUniqueColumns(srv, t, columns) && Put(srv, cat, t, id, Record(f, now), policy).Some?
    requires t in cat.rows && NoneCollide(columns, FieldsOf(cat.rows[t]))
    ensures var c := Put(srv, cat, t, id, Record(f, now), policy).value;
            t in c.rows && NoneCollide(columns, FieldsOf(c.rows[t]))
  {
    var own, c := cat.rows[t], Put(srv, cat, t, id, Record(f, now), policy).value;
    if c != cat {
      var g := c.rows[t][id].fields;
      assert FieldsOf(c.rows[t]) == FieldsOf(own)[id := g];
      assert forall i | i in own && i != id :: !Collide(columns, FieldsOf(own)[i], g);
      forall i | i in own && i != id ensures !Collide(columns, g, FieldsOf(own)[i]) {
        assert !Collide(columns, FieldsOf(own)[i], g);
      }
    }
  }

  lemma HeldRowIsLoaded(srv: Server, cat: Catalog, t: Table, rows: seq<Legacy>, now: int, id: int, f: Fields)
    requires t in cat.rows && LoadRows(srv, cat, t, DoNothing, rows, now).Some? && DistinctIds(rows)
    requires Held(FieldsOf(cat.rows[t]), rows, id, f)
    ensures var c := LoadRows(srv, cat, t, DoNothing, rows, now).value;
            t in c.rows && id in c.rows[t] && c.rows[t][id].fields == f
  {
    LoadRowsExtends(srv, cat, t, DoNothing, rows, now);
    if id !in cat.rows[t] {
      var k: nat :| k < |rows| && Readable(rows, k, id) && f == Convert(rows[k].source).value;
      NewRowIsStored(srv, cat, t, DoNothing, rows, now, k);
    }
  }

  /** With unique columns a table of good rows loads exactly when no two rows of target
      and source together, of different ids, share a value. */
  lemma UniqueRowsLoadIff(srv: Server, cat: Catalog, t: Table, rows: seq<Legacy>, now: int, columns: seq<Column>)
    requires HasUniqueColumns(srv, t, columns) && DistinctIds(rows)
    requires t in cat.rows && NoneCollide(columns, FieldsOf(cat.rows[t]))
    requires forall k | 0 <= k < |rows| :: Sendable(srv, cat, t, rows[k])
    ensures LoadRows(srv, cat, t, DoNothing, rows, now).Some? <==> HeldApart(columns, FieldsOf(cat.rows[t]), rows)
    ensures HeldApart(columns, FieldsOf(cat.rows[t]), rows)
            ==> Unclashing(srv, t, FieldsOf(cat.rows[t]), DoNothing, rows)
  {
    var start := FieldsOf(cat.rows[t]);
    if LoadRows(srv, cat, t, DoNothing, rows, now).Some? {
      LoadedRowsDoNotCollide(srv, cat, t, DoNothing, rows, now, columns);
      var c := FieldsOf(LoadRows(srv, cat, t, DoNothing, rows, now).value.rows[t]);
      forall i, f, j, g | Held(start, rows, i, f) && Held(start, rows, j, g) && i != j ensures !Collide(columns, f, g) {
        HeldRowIsLoaded(srv, cat, t, rows, now, i, f);
        HeldRowIsLoaded(srv, cat, t, rows, now, j, g);
        assert c[i] == f && c[j] == g;
      }
    }
    if HeldApart(columns, start, rows) {
      HeldApartIsUnclashing(srv, t, start, rows, columns);
      assert rows[0..] == rows;
      ResolvedRowsLoad(srv, cat, t, DoNothing, rows, now, start, 0);
    }
  }

  lemma HeldApartIsUnclashing(srv: Server, t: Table, start: map<int, Fields>, rows: seq<Legacy>, columns: seq<Column>)
    requires HasUniqueColumns(srv, t, columns) && HeldApart(columns, start, rows)
    ensures Unclashing(srv, t, start, DoNothing, rows)
  {
    forall own, id, f | Between(start, DoNothing, rows, own) && MayWrite(start, DoNothing, rows, id, f)
      ensures !srv.clash(t, own, id, f)
    {
      WrittenIsHeld(start, rows, id, f);
      forall i | i in own && i != id ensures !Collide(columns, own[i], f) {
        if !(i in start && own[i] == start[i]) { WrittenIsHeld(start, rows, i, own[i]); }
        assert Held(start, rows, i, own[i]);
      }
    }
  }

  lemma WrittenIsHeld(start: map<int, Fields>, rows: seq<Legacy>, id: int, f: Fields)
    requires MayWrite(start, DoNothing, rows, id, f)
    ensures id !in start && Held(start, rows, id, f)
  {
    var j: nat, k: nat :| j < |rows| && k < |rows| && Readable(rows, j, id) && Readable(rows, k, id)
      && f.content == Convert(rows[k].source).value.content && f.refs == Convert(rows[j].source).value.refs && j == k;
    assert f == Convert(rows[k].source).value;
  }

  // ---------------------------------------------------------------------------
  // Sequences.

  lemma {:induction false} OnlySourceIdsAreAdded(srv: Server, cat: Catalog, t: Table, policy: Policy,
                                                 rows: seq<Legacy>, now: int, id: int)
    requires LoadRows(srv, cat, t, policy, rows, now).Some? && t in cat.rows
    requires var c := LoadRows(srv, cat, t, policy, rows, now).value.rows; t in c && id in c[t] && id !in cat.rows[t]
    ensures HasId(rows, id)
    decreases |rows|
  {
    if rows != [] && rows[0].id != id {
      var next := match Convert(rows[0].source)
                  case None => cat
                  case Some(f) => Put(srv, cat, t, rows[0].id, Record(f, now), policy).value;
      OnlySourceIdsAreAdded(srv, next, t, policy, rows[1..], now, id);
      var k :| 0 <= k < |rows[1..]| && rows[1..][k].id == id;
      assert rows[k + 1].id == id;
    }
  }

  /** A largest id that the sequence cannot take refuses the whole table. */
  lemma IdsBeyondSequenceRefuseTable(srv: Server, cat: Catalog, step: Step, now: int)
    requires SourceRows(step) != [] && step.table in srv.serial
    requires MaxId(SourceRows(step)) < 0 || MaxId(SourceRows(step)) > 0x7FFF_FFFF
    ensures StepFold(srv, cat, step, now) == cat
  {
  }

  /** After an accepted table the sequence stands at the largest source id, which
      covers the imported rows. It covers the whole table exactly when the rows
      already there had no larger id: setval also moves a sequence backwards. */
  lemma SequenceCoversTable(srv: Server, s: Session, step: Step, now: int)
    requires Idle(s) && s.committed.untriggered == {} && SourceRows(step) != []
    requires step.table in s.committed.rows && step.table in srv.serial && MaxId(SourceRows(step)) != 0
    requires LoadTable(srv, s.committed, step, now).Some?
    ensures var t, rows := step.table, SourceRows(step);
            var w := WrapStep(srv, s, step.name, TableActions(step, now)).session;
            && t in w.sequences && w.sequences[t] == MaxId(rows)
            && (forall k | 0 <= k < |rows| :: rows[k].id <= w.sequences[t])
            && t in w.committed.rows
            && ((forall id | id in w.committed.rows[t] :: id <= w.sequences[t])
                <==> (forall id | id in s.committed.rows[t] :: id <= MaxId(rows)))
  {
    var t, rows, policy := step.table, SourceRows(step), PolicyOf(step.kind);
    StepRefinesFold(srv, s, step, now);
    StepExtends(srv, s.committed, step, now);
    var cat := s.committed;
    var off := cat.(untriggered := if step.kind == Untriggered then cat.untriggered + {t} else {});
    var c := LoadRows(srv, off, t, policy, rows, now).value;
    forall id | id in c.rows[t] && id !in cat.rows[t] ensures id <= MaxId(rows) {
      OnlySourceIdsAreAdded(srv, off, t, policy, rows, now, id);
    }
  }
}
