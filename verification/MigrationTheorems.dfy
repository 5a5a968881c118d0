/** What the fold of `run_migration` promises: rows are never lost, a second run
    changes nothing, closed data arrives whole, and invoices keep their money. */
module MigrationTheorems {
  import opened Options
  import opened MigrationSession
  import opened MigrationScript
  import opened MigrationRefinement

  // ---------------------------------------------------------------------------
  // What a step leaves alone.

  /** `b` is `a` with table `t` possibly extended: rows already there keep their
      references and stamps, and under DO NOTHING everything. */
  predicate Extends(a: Catalog, b: Catalog, t: Table, policy: Policy) {
    && a.rows.Keys == b.rows.Keys
    && (forall p | p in a.rows && p != t :: b.rows[p] == a.rows[p])
    && (t in a.rows ==> forall id | id in a.rows[t] ::
          && id in b.rows[t]
          && b.rows[t][id].stamp == a.rows[t][id].stamp
          && b.rows[t][id].fields.refs == a.rows[t][id].fields.refs
          && (policy == DoNothing ==> b.rows[t][id] == a.rows[t][id]))
  }

  lemma {:induction false} LoadRowsExtends(srv: Server, cat: Catalog, t: Table, policy: Policy, rows: seq<Legacy>,
                                           now: int)
    ensures match LoadRows(srv, cat, t, policy, rows, now)
            case None => true
            case Some(c) => Extends(cat, c, t, policy) && c.untriggered == cat.untriggered
    decreases |rows|
  {
    if rows != [] {
      match Convert(rows[0].source) {
        case None => LoadRowsExtends(srv, cat, t, policy, rows[1..], now);
        case Some(f) =>
          match Put(srv, cat, t, rows[0].id, Record(f, now), policy) {
            case None =>
            case Some(next) => LoadRowsExtends(srv, next, t, policy, rows[1..], now);
          }
      }
    }
  }

  lemma StepExtends(srv: Server, cat: Catalog, step: Step, now: int)
    requires cat.untriggered == {}
    ensures Extends(cat, StepFold(srv, cat, step, now), step.table, PolicyOf(step.kind))
    ensures StepFold(srv, cat, step, now).untriggered == {}
  {
    if step.source.Some? {
      LoadRowsExtends(srv, cat, step.table, PolicyOf(step.kind), step.source.value, now);
      LoadRowsExtends(srv, cat.(untriggered := {step.table}), step.table, PolicyOf(step.kind), step.source.value, now);
      assert cat.untriggered + {step.table} == {step.table};
    }
  }

  /** No run loses or renumbers a target row, whatever the server refuses: every row
      keeps its references and stamps, every row of a table that no step updates
      keeps everything, and invoice triggers are on again at the end. */
  lemma {:induction false} RunKeepsTargetRows(srv: Server, cat: Catalog, steps: seq<Step>, now: int, t: Table, id: int)
    requires cat.untriggered == {} && t in cat.rows && id in cat.rows[t]
    ensures var end := RunFold(srv, cat, steps, now);
            && end.untriggered == {}
            && end.rows.Keys == cat.rows.Keys
            && id in end.rows[t]
            && end.rows[t][id].stamp == cat.rows[t][id].stamp
            && end.rows[t][id].fields.refs == cat.rows[t][id].fields.refs
            && ((forall step | step in steps && step.table == t :: step.kind != Updates)
               ==> end.rows[t][id] == cat.rows[t][id])
    decreases |steps|
  {
    if steps != [] {
      StepExtends(srv, cat, steps[0], now);
      assert steps[0] in steps && forall step | step in steps[1..] :: step in steps;
      RunKeepsTargetRows(srv, StepFold(srv, cat, steps[0], now), steps[1..], now, t, id);
    }
  }

  lemma {:induction false} RunLeavesOtherTables(srv: Server, cat: Catalog, steps: seq<Step>, now: int, p: Table)
    requires cat.untriggered == {}
    requires forall i | 0 <= i < |steps| :: steps[i].table != p
    ensures var end := RunFold(srv, cat, steps, now);
            && end.untriggered == {}
            && end.rows.Keys == cat.rows.Keys
            && (p in cat.rows ==> end.rows[p] == cat.rows[p])
    decreases |steps|
  {
    if steps != [] {
      StepExtends(srv, cat, steps[0], now);
      RunLeavesOtherTables(srv, StepFold(srv, cat, steps[0], now), steps[1..], now, p);
    }
  }

  // ---------------------------------------------------------------------------
  // A second run.

  /** The tables that the readable rows point at. */
  function Targets(rows: seq<Legacy>): set<Table> {
    if rows == [] then {}
    else
      (match Convert(rows[0].source)
       case None => {}
       case Some(f) => set r | r in f.refs :: r.table)
      + Targets(rows[1..])
  }

  function SourceRows(step: Step): seq<Legacy> {
    match step.source case None => [] case Some(rows) => rows
  }

  predicate DistinctIds(rows: seq<Legacy>) {
    forall i, j | 0 <= i < j < |rows| :: rows[i].id != rows[j].id
  }

  predicate OneStepPerTable(steps: seq<Step>) {
    forall i, j | 0 <= i < j < |steps| :: steps[i].table != steps[j].table
  }

  /** Each table has one step, and no step points at its own table or a later one:
      the order MIGRATION_STEPS is written in. */
  predicate ParentsFirst(steps: seq<Step>) {
    && OneStepPerTable(steps)
    && (forall i, j | 0 <= i <= j < |steps| :: steps[j].table !in Targets(SourceRows(steps[i])))
  }

  /** Every readable row is in the table already, as the policy would leave it. */
  predicate Settled(srv: Server, own: Rows, t: Table, policy: Policy, rows: seq<Legacy>) {
    forall k | 0 <= k < |rows| && Convert(rows[k].source).Some? ::
      var f := Convert(rows[k].source).value;
      && srv.check(t, rows[k].id, f)
      && rows[k].id in own
      && (policy == DoUpdate ==> own[rows[k].id].fields.content == f.content)
  }

  lemma {:induction false} OtherRowsStay(srv: Server, cat: Catalog, t: Table, policy: Policy, rows: seq<Legacy>,
                                         now: int, id: int)
    requires t in cat.rows && id in cat.rows[t]
    requires forall k | 0 <= k < |rows| :: rows[k].id != id
    ensures match LoadRows(srv, cat, t, policy, rows, now)
            case None => true
            case Some(c) => t in c.rows && id in c.rows[t] && c.rows[t][id] == cat.rows[t][id]
    decreases |rows|
  {
    if rows != [] {
      match Convert(rows[0].source) {
        case None => OtherRowsStay(srv, cat, t, policy, rows[1..], now, id);
        case Some(f) =>
          match Put(srv, cat, t, rows[0].id, Record(f, now), policy) {
            case None =>
            case Some(next) => OtherRowsStay(srv, next, t, policy, rows[1..], now, id);
          }
      }
    }
  }

  lemma {:induction false} LoadedRowsSettle(srv: Server, cat: Catalog, t: Table, policy: Policy, rows: seq<Legacy>,
                                            now: int)
    requires LoadRows(srv, cat, t, policy, rows, now).Some?
    requires t in cat.rows
    requires policy == DoUpdate ==> DistinctIds(rows)
    ensures var c := LoadRows(srv, cat, t, policy, rows, now).value;
            t in c.rows && Settled(srv, c.rows[t], t, policy, rows)
    decreases |rows|
  {
    LoadRowsExtends(srv, cat, t, policy, rows, now);
    if rows != [] {
      var c := LoadRows(srv, cat, t, policy, rows, now).value;
      match Convert(rows[0].source) {
        case None => LoadedRowsSettle(srv, cat, t, policy, rows[1..], now);
        case Some(f) =>
          var next := Put(srv, cat, t, rows[0].id, Record(f, now), policy).value;
          LoadedRowsSettle(srv, next, t, policy, rows[1..], now);
          LoadRowsExtends(srv, next, t, policy, rows[1..], now);
          if policy == DoUpdate { OtherRowsStay(srv, next, t, policy, rows[1..], now, rows[0].id); }
      }
      forall k | 1 <= k < |rows| ensures rows[k] == rows[1..][k - 1] {}
    }
  }

  lemma {:induction false} SettledRowsLoadUnchanged(srv: Server, cat: Catalog, t: Table, policy: Policy,
                                                    rows: seq<Legacy>, now: int)
    requires t in cat.rows && Settled(srv, cat.rows[t], t, policy, rows)
    ensures LoadRows(srv, cat, t, policy, rows, now) == Some(cat)
    decreases |rows|
  {
    if rows != [] {
      forall k | 0 <= k < |rows[1..]| ensures rows[1..][k] == rows[k + 1] {}
      SettledRowsLoadUnchanged(srv, cat, t, policy, rows[1..], now);
    }
  }

  /** Whether a table loads depends on its own rows (up to clock stamps) and on
      which parent ids exist, and on nothing else. */
  lemma {:induction false} LoadRowsDetermined(srv: Server, a: Catalog, b: Catalog, t: Table, policy: Policy,
                                              rows: seq<Legacy>, now: int, later: int)
    requires a.untriggered == b.untriggered && a.rows.Keys == b.rows.Keys
    requires t in a.rows ==> FieldsOf(a.rows[t]) == FieldsOf(b.rows[t])
    requires t !in Targets(rows)
    requires forall p | p in Targets(rows) && p in a.rows :: a.rows[p].Keys == b.rows[p].Keys
    ensures LoadRows(srv, a, t, policy, rows, now).None? <==> LoadRows(srv, b, t, policy, rows, later).None?
    decreases |rows|
  {
    if rows != [] {
      match Convert(rows[0].source) {
        case None => LoadRowsDetermined(srv, a, b, t, policy, rows[1..], now, later);
        case Some(f) =>
          var id := rows[0].id;
          PutDetermined(srv, a, b, t, id, f, policy, now, later);
          if Put(srv, a, t, id, Record(f, now), policy).Some? {
            LoadRowsDetermined(srv, Put(srv, a, t, id, Record(f, now), policy).value,
                               Put(srv, b, t, id, Record(f, later), policy).value, t, policy, rows[1..], now, later);
          }
      }
    }
  }

  lemma PutDetermined(srv: Server, a: Catalog, b: Catalog, t: Table, id: int, f: Fields, policy: Policy, now: int,
                      later: int)
    requires a.untriggered == b.untriggered && a.rows.Keys == b.rows.Keys
    requires t in a.rows ==> FieldsOf(a.rows[t]) == FieldsOf(b.rows[t])
    requires forall r | r in f.refs ::
               r.table != t && (r.table in a.rows ==> a.rows[r.table].Keys == b.rows[r.table].Keys)
    ensures match (Put(srv, a, t, id, Record(f, now), policy), Put(srv, b, t, id, Record(f, later), policy))
            case (None, None) => true
            case (Some(x), Some(y)) =>
              && x.untriggered == y.untriggered == a.untriggered && x.rows.Keys == y.rows.Keys == a.rows.Keys
              && t in x.rows && FieldsOf(x.rows[t]) == FieldsOf(y.rows[t])
              && (forall p | p in a.rows && p != t :: x.rows[p] == a.rows[p] && y.rows[p] == b.rows[p])
            case _ => false
  {
    if t in a.rows {
      SameFieldsSameIds(a.rows[t], b.rows[t]);
      if id in a.rows[t] {
        SameFieldsAfterWrite(a.rows[t], b.rows[t], id,
          a.rows[t][id].(fields := a.rows[t][id].fields.(content := f.content)),
          b.rows[t][id].(fields := b.rows[t][id].fields.(content := f.content)));
      } else {
        SameFieldsAfterWrite(a.rows[t], b.rows[t], id, Record(f, now), Record(f, later));
        assert RefsResolve(a.rows[t := a.rows[t][id := Record(f, now)]], f.refs)
          <==> RefsResolve(b.rows[t := b.rows[t][id := Record(f, later)]], f.refs);
      }
    }
  }

  lemma SameFieldsSameIds(p: Rows, q: Rows)
    requires FieldsOf(p) == FieldsOf(q)
    ensures p.Keys == q.Keys
    ensures forall i | i in p :: p[i].fields == q[i].fields
  {
    assert FieldsOf(p).Keys == p.Keys && FieldsOf(q).Keys == q.Keys;
    forall i | i in p ensures p[i].fields == q[i].fields {
      assert FieldsOf(p)[i] == FieldsOf(q)[i];
    }
  }

  lemma SameFieldsAfterWrite(p: Rows, q: Rows, id: int, x: Record, y: Record)
    requires FieldsOf(p) == FieldsOf(q) && x.fields == y.fields
    ensures FieldsOf(p[id := x]) == FieldsOf(q[id := y])
  {
    SameFieldsSameIds(p, q);
    var m, n := FieldsOf(p[id := x]), FieldsOf(q[id := y]);
    assert m.Keys == n.Keys;
    assert forall i | i in m :: m[i] == n[i];
  }

  /** A step met again after a run, at any later clock. */
  lemma StepAgain(srv: Server, cat: Catalog, end: Catalog, step: Step, now: int, later: int)
    requires cat.untriggered == end.untriggered == {} && cat.rows.Keys == end.rows.Keys
    requires var next := StepFold(srv, cat, step, now).rows;
             step.table in cat.rows ==> step.table in next && end.rows[step.table] == next[step.table]
    requires step.table !in Targets(SourceRows(step))
    requires forall p | p in Targets(SourceRows(step)) && p in cat.rows :: end.rows[p] == cat.rows[p]
    requires step.kind == Updates ==> DistinctIds(SourceRows(step))
    ensures StepFold(srv, end, step, later) == end
  {
    if step.source.Some? && step.source.value != [] {
      var t, rows, policy := step.table, step.source.value, PolicyOf(step.kind);
      var off := if step.kind == Untriggered then {t} else {};
      var c, e := cat.(untriggered := off), end.(untriggered := off);
      assert cat.untriggered + {t} == end.untriggered + {t} == {t};
      LoadRowsExtends(srv, c, t, policy, rows, now);
      LoadRowsExtends(srv, e, t, policy, rows, later);
      if LoadTable(srv, cat, step, now).None? {
        LoadRowsDetermined(srv, c, e, t, policy, rows, now, later);
      } else if t in cat.rows {
        LoadedRowsSettle(srv, c, t, policy, rows, now);
        SettledRowsLoadUnchanged(srv, e, t, policy, rows, later);
        assert end.(untriggered := off - {t}) == end;
      } else {
        MissingTableLoadsNothing(srv, c, t, policy, rows, now);
        MissingTableLoadsNothing(srv, e, t, policy, rows, later);
      }
    }
  }

  lemma {:induction false} MissingTableLoadsNothing(srv: Server, cat: Catalog, t: Table, policy: Policy,
                                                    rows: seq<Legacy>, now: int)
    requires t !in cat.rows
    ensures LoadRows(srv, cat, t, policy, rows, now) ==
            if exists k :: 0 <= k < |rows| && Convert(rows[k].source).Some? then None else Some(cat)
    decreases |rows|
  {
    if rows != [] {
      MissingTableLoadsNothing(srv, cat, t, policy, rows[1..], now);
      forall k | 1 <= k < |rows| ensures rows[k] == rows[1..][k - 1] {}
      if exists k :: 0 <= k < |rows[1..]| && Convert(rows[1..][k].source).Some? {
        var k :| 0 <= k < |rows[1..]| && Convert(rows[1..][k].source).Some?;
        assert Convert(rows[k + 1].source).Some?;
      }
    }
  }

  lemma {:induction false} EachStepAgain(srv: Server, cat: Catalog, steps: seq<Step>, now: int, later: int, i: nat)
    requires i < |steps| && cat.untriggered == {} && ParentsFirst(steps)
    requires forall k | 0 <= k < |steps| :: steps[k].kind == Updates ==> DistinctIds(SourceRows(steps[k]))
    ensures var end := RunFold(srv, cat, steps, now);
            StepFold(srv, end, steps[i], later) == end && end.untriggered == {}
    decreases |steps|
  {
    var next := StepFold(srv, cat, steps[0], now);
    var end := RunFold(srv, next, steps[1..], now);
    StepExtends(srv, cat, steps[0], now);
    if i > 0 {
      EachStepAgain(srv, next, steps[1..], now, later, i - 1);
    } else {
      RunLeavesOtherTables(srv, next, steps[1..], now, steps[0].table);
      forall p | p in Targets(SourceRows(steps[0])) && p in cat.rows ensures end.rows[p] == cat.rows[p] {
        RunLeavesOtherTables(srv, next, steps[1..], now, p);
      }
      StepAgain(srv, cat, end, steps[0], now, later);
    }
  }

  /** A second full run, at any later clock, commits no change: accepted tables are
      no-ops, refused ones are refused again. */
  lemma SecondRunChangesNothing(srv: Server, cat: Catalog, steps: seq<Step>, now: int, later: int)
    requires cat.untriggered == {} && ParentsFirst(steps)
    requires forall k | 0 <= k < |steps| :: steps[k].kind == Updates ==> DistinctIds(SourceRows(steps[k]))
    ensures RunFold(srv, RunFold(srv, cat, steps, now), steps, later) == RunFold(srv, cat, steps, now)
  {
    var end := RunFold(srv, cat, steps, now);
    forall i | 0 <= i < |steps| ensures StepFold(srv, end, steps[i], later) == end {
      EachStepAgain(srv, cat, steps, now, later, i);
    }
    FixedStepsFixRun(srv, end, steps, later);
  }

  lemma {:induction false} FixedStepsFixRun(srv: Server, cat: Catalog, steps: seq<Step>, now: int)
    requires forall i | 0 <= i < |steps| :: StepFold(srv, cat, steps[i], now) == cat
    ensures RunFold(srv, cat, steps, now) == cat
    decreases |steps|
  {
    if steps != [] { FixedStepsFixRun(srv, cat, steps[1..], now); }
  }
}
