/** What the rows of an accepted table hold: each source row as it was read, and the
    money on invoices. */
module MigrationContents {
  import opened Options
  import opened MigrationSession
  import opened MigrationScript
  import opened MigrationRefinement
  import opened MigrationTheorems
  import opened MigrationLoads

  // ---------------------------------------------------------------------------
  // Invoices.

  function Grand(r: Record): int {
    if r.fields.content.Invoice? then r.fields.content.grandTotal else 0
  }

  predicate Balanced(r: Record) {
    match r.fields.content
    case Plain(_) => true
    case Invoice(grand, paid, due, status) =>
      && grand == paid + due
      && (status == Paid <==> due == 0)
      && (status == Partial <==> due != 0 && paid > 0)
      && (status == Unpaid <==> due != 0 && paid <= 0)
  }

  ghost function Pick<T>(ids: set<T>): T
    requires ids != {}
    ensures Pick(ids) in ids
  {
    var id :| id in ids; id
  }

  ghost function Total(m: Rows): int {
    if m.Keys == {} then 0 else Grand(m[Pick(m.Keys)]) + Total(m - {Pick(m.Keys)})
  }

  lemma {:induction false} TotalInsert(m: Rows, id: int, r: Record)
    requires id !in m
    ensures Total(m[id := r]) == Total(m) + Grand(r)
    decreases |m|
  {
    var bigger := m[id := r];
    var p := Pick(bigger.Keys);
    if p == id {
      assert bigger - {p} == m;
    } else {
      var smaller := m - {p};
      assert smaller.Keys == m.Keys - {p};
      assert bigger - {p} == smaller[id := r];
      TotalInsert(smaller, id, r);
      TotalInsert(smaller, p, m[p]);
      assert smaller[p := m[p]] == m;
    }
  }

  /** Adds up amount columns, leaving NULLs out. */
  function SumOf(columns: seq<Option<int>>): int {
    if columns == [] then 0
    else SumOf(columns[..|columns| - 1]) + match columns[|columns| - 1] case None => 0 case Some(cents) => cents
  }

  /** The six columns that record payments; the seventh is the credit. */
  function PaidColumns(a: Amounts): seq<Option<int>> {
    [a.cash, a.visa, a.mastercard, a.amex, a.bankTransfer, a.cheque]
  }

  /** The sum of the seven legacy amount columns over the readable invoices whose id
      is not in `present`. */
  function LegacyTotal(rows: seq<Legacy>, present: set<int>): int {
    if rows == [] then 0
    else
      (match rows[0].source
       case Bill(_, a) =>
         if rows[0].id in present then 0
         else SumOf(PaidColumns(a) + [a.credit])
       case _ => 0)
      + LegacyTotal(rows[1..], present)
  }

  lemma {:induction false} LegacyTotalIgnores(rows: seq<Legacy>, present: set<int>, id: int)
    requires forall k | 0 <= k < |rows| :: rows[k].id != id
    ensures LegacyTotal(rows, present + {id}) == LegacyTotal(rows, present)
    decreases |rows|
  {
    if rows != [] { LegacyTotalIgnores(rows[1..], present, id); }
  }

  /** Loading brings exactly the legacy money of the invoices that were not there, each
      new one balanced; those that were there stay as they are, balanced or not. */
  lemma {:induction false} LoadedInvoicesAddUp(srv: Server, cat: Catalog, t: Table, rows: seq<Legacy>, now: int)
    requires t in cat.rows && DistinctIds(rows)
    requires LoadRows(srv, cat, t, DoNothing, rows, now).Some?
    requires forall k | 0 <= k < |rows| :: !rows[k].source.Columns?
    ensures var c := LoadRows(srv, cat, t, DoNothing, rows, now).value.rows;
            && t in c
            && Total(c[t]) == Total(cat.rows[t]) + LegacyTotal(rows, cat.rows[t].Keys)
            && (forall id | id in cat.rows[t] :: id in c[t] && c[t][id] == cat.rows[t][id])
            && (forall id | id in c[t] && id !in cat.rows[t] :: Balanced(c[t][id]))
    decreases |rows|
  {
    if rows != [] {
      var own, id := cat.rows[t], rows[0].id;
      match Convert(rows[0].source) {
        case None => LoadedInvoicesAddUp(srv, cat, t, rows[1..], now);
        case Some(f) =>
          var next := Put(srv, cat, t, id, Record(f, now), DoNothing).value;
          LoadedInvoicesAddUp(srv, next, t, rows[1..], now);
          SumOfColumns(rows[0].source.amounts);
          if id !in own {
            TotalInsert(own, id, Record(f, now));
            LegacyTotalIgnores(rows[1..], own.Keys, id);
            assert next.rows[t].Keys == own.Keys + {id};
            assert next.rows[t][id] == Record(f, now) && Balanced(Record(f, now));
          }
      }
    }
  }

  // ---------------------------------------------------------------------------
  // Row by row.

  /** `f` is what the legacy row says: its columns as they are, or for an invoice the
      payments, the credit as balance due, their sum, and the status these decide. */
  predicate Reads(src: Source, f: Fields) {
    match src
    case Unreadable => false
    case Columns(fields) => f == fields
    case Bill(refs, a) =>
      var paid, due := SumOf(PaidColumns(a)), SumOf([a.credit]);
      && f.refs == refs
      && f.content == Invoice(paid + due, paid, due, if due == 0 then Paid else if paid > 0 then Partial else Unpaid)
  }

  lemma OneMoreColumn(columns: seq<Option<int>>, v: Option<int>)
    ensures SumOf(columns + [v]) == SumOf(columns) + OrZero(v)
  {
    assert (columns + [v])[..|columns|] == columns;
  }

  lemma SumOfColumns(a: Amounts)
    ensures SumOf([a.credit]) == OrZero(a.credit)
    ensures SumOf(PaidColumns(a)) == PaidOf(a)
    ensures SumOf(PaidColumns(a) + [a.credit]) == PaidOf(a) + OrZero(a.credit)
  {
    var none: seq<Option<int>> := [];
    var two := none + [a.cash] + [a.visa];
    var four := two + [a.mastercard] + [a.amex];
    assert none + [a.credit] == [a.credit] && four + [a.bankTransfer] + [a.cheque] == PaidColumns(a);
    OneMoreColumn(none, a.credit);
    OneMoreColumn(none, a.cash);
    OneMoreColumn(none + [a.cash], a.visa);
    OneMoreColumn(two, a.mastercard);
    OneMoreColumn(two + [a.mastercard], a.amex);
    OneMoreColumn(four, a.bankTransfer);
    OneMoreColumn(four + [a.bankTransfer], a.cheque);
    OneMoreColumn(PaidColumns(a), a.credit);
  }

  lemma ConvertReads(src: Source)
    ensures Convert(src).None? <==> src == Unreadable
    ensures Convert(src).Some? ==> Reads(src, Convert(src).value)
  {
    if src.Bill? { SumOfColumns(src.amounts); }
  }

  /** What became of one source row, `before` and `after` being its table: a row that
      cannot be read left no trace; a new one is stored as read, with this run's stamp;
      one already there stays, but for its content in a table that is updated. */
  ghost predicate Settles(before: Rows, after: Rows, updates: bool, row: Legacy, now: int) {
    if row.source == Unreadable || (row.id in before && !updates) then
      (row.id in after <==> row.id in before) && (row.id in before ==> after[row.id] == before[row.id])
    else
      && row.id in after
      && exists f :: Reads(row.source, f) &&
           after[row.id] == if row.id in before
                            then before[row.id].(fields := before[row.id].fields.(content := f.content))
                            else Record(f, now)
  }

  lemma {:induction false} AbsentStaysAbsent(srv: Server, cat: Catalog, t: Table, policy: Policy, rows: seq<Legacy>,
                                             now: int, id: int)
    requires t in cat.rows && id !in cat.rows[t] && LoadRows(srv, cat, t, policy, rows, now).Some?
    requires forall k | 0 <= k < |rows| :: rows[k].id != id
    ensures var c := LoadRows(srv, cat, t, policy, rows, now).value.rows; t in c && id !in c[t]
  {
    LoadRowsExtends(srv, cat, t, policy, rows, now);
    var c := LoadRows(srv, cat, t, policy, rows, now).value.rows;
    if id in c[t] {
      OnlySourceIdsAreAdded(srv, cat, t, policy, rows, now, id);
      assert false;
    }
  }

  lemma FirstRowSettles(srv: Server, cat: Catalog, t: Table, policy: Policy, rows: seq<Legacy>, now: int)
    requires LoadRows(srv, cat, t, policy, rows, now).Some? && DistinctIds(rows) && t in cat.rows && rows != []
    ensures var c := LoadRows(srv, cat, t, policy, rows, now).value.rows;
            t in c && Settles(cat.rows[t], c[t], policy == DoUpdate, rows[0], now)
  {
    var id := rows[0].id;
    ConvertReads(rows[0].source);
    LoadRowsExtends(srv, cat, t, policy, rows, now);
    match Convert(rows[0].source) {
      case None =>
        if id in cat.rows[t] { OtherRowsStay(srv, cat, t, policy, rows[1..], now, id); }
        else { AbsentStaysAbsent(srv, cat, t, policy, rows[1..], now, id); }
      case Some(f) =>
        var next := Put(srv, cat, t, id, Record(f, now), policy).value;
        OtherRowsStay(srv, next, t, policy, rows[1..], now, id);
    }
  }

  lemma {:induction false} LoadedRowSettles(srv: Server, cat: Catalog, t: Table, policy: Policy, rows: seq<Legacy>,
                                            now: int, k: nat)
    requires LoadRows(srv, cat, t, policy, rows, now).Some? && DistinctIds(rows) && t in cat.rows && k < |rows|
    ensures var c := LoadRows(srv, cat, t, policy, rows, now).value.rows;
            t in c && Settles(cat.rows[t], c[t], policy == DoUpdate, rows[k], now)
    decreases |rows|
  {
    if k == 0 {
      FirstRowSettles(srv, cat, t, policy, rows, now);
    } else {
      var next := match Convert(rows[0].source)
                  case None => cat
                  case Some(f) => Put(srv, cat, t, rows[0].id, Record(f, now), policy).value;
      LoadedRowSettles(srv, next, t, policy, rows[1..], now, k - 1);
    }
  }

  /** The table after an accepted step is the one before with every source row settled;
      rows of other ids stay, and none appear. */
  lemma AcceptedTableHoldsItsSource(srv: Server, cat: Catalog, step: Step, now: int)
    requires step.table in cat.rows && cat.untriggered == {} && DistinctIds(SourceRows(step))
    requires SourceRows(step) != [] && LoadTable(srv, cat, step, now).Some?
    ensures var t, rows, next := step.table, SourceRows(step), StepFold(srv, cat, step, now).rows;
            && t in next
            && (forall k | 0 <= k < |rows| :: Settles(cat.rows[t], next[t], step.kind == Updates, rows[k], now))
            && (forall id | !HasId(rows, id) :: id in next[t] <==> id in cat.rows[t])
            && (forall id | !HasId(rows, id) && id in cat.rows[t] :: next[t][id] == cat.rows[t][id])
  {
    var t, rows, policy := step.table, SourceRows(step), PolicyOf(step.kind);
    var off := cat.(untriggered := if step.kind == Untriggered then cat.untriggered + {t} else {});
    LoadRowsExtends(srv, off, t, policy, rows, now);
    var c := LoadRows(srv, off, t, policy, rows, now).value.rows;
    assert StepFold(srv, cat, step, now).rows == c;
    forall k | 0 <= k < |rows| ensures Settles(cat.rows[t], c[t], step.kind == Updates, rows[k], now) {
      LoadedRowSettles(srv, off, t, policy, rows, now, k);
    }
    forall id | !HasId(rows, id) ensures id in c[t] <==> id in cat.rows[t] {
      if id in c[t] && id !in cat.rows[t] { OnlySourceIdsAreAdded(srv, off, t, policy, rows, now, id); }
    }
    forall id | !HasId(rows, id) && id in cat.rows[t] ensures c[t][id] == cat.rows[t][id] {
      OtherRowsStay(srv, off, t, policy, rows, now, id);
    }
  }

  /** The invoices step commits nothing, or exactly the legacy money of the invoices
      that were not there yet. Each new one is balanced, with its payment columns as
      paid, its credit column as due and the status that these decide; invoices already
      there, cancelled ones included, stay. */
  lemma InvoiceStepConservesMoney(srv: Server, cat: Catalog, step: Step, now: int)
    requires step.kind == Untriggered && step.table in cat.rows && cat.untriggered == {}
    requires DistinctIds(SourceRows(step))
    requires forall k | 0 <= k < |SourceRows(step)| :: !SourceRows(step)[k].source.Columns?
    ensures var t, next := step.table, StepFold(srv, cat, step, now);
            && t in next.rows && next.untriggered == {}
            && (forall id | id in cat.rows[t] :: id in next.rows[t] && next.rows[t][id] == cat.rows[t][id])
            && (forall id | id in next.rows[t] && id !in cat.rows[t] :: Balanced(next.rows[t][id]))
            && (next == cat
                || Total(next.rows[t]) == Total(cat.rows[t]) + LegacyTotal(SourceRows(step), cat.rows[t].Keys))
            && (forall k | 0 <= k < |SourceRows(step)| && SourceRows(step)[k].id !in cat.rows[t] ::
                  SourceRows(step)[k].id in next.rows[t] ==>
                    FiledUnder(SourceRows(step)[k].source, next.rows[t][SourceRows(step)[k].id].fields.content))
  {
    StepExtends(srv, cat, step, now);
    var rows, t := SourceRows(step), step.table;
    if rows != [] && LoadTable(srv, cat, step, now).Some? {
      LoadedInvoicesAddUp(srv, cat.(untriggered := cat.untriggered + {t}), t, rows, now);
      AcceptedTableHoldsItsSource(srv, cat, step, now);
      var after := StepFold(srv, cat, step, now).rows[t];
      forall k | 0 <= k < |rows| && rows[k].id !in cat.rows[t] && rows[k].id in after
        ensures FiledUnder(rows[k].source, after[rows[k].id].fields.content)
      {
        assert Settles(cat.rows[t], after, false, rows[k], now);
      }
    }
  }

  /** Payments under paid, credit under balance due. */
  predicate FiledUnder(src: Source, c: Content) {
    src.Bill? && c.Invoice? && c.paid == SumOf(PaidColumns(src.amounts)) && c.balanceDue == SumOf([src.amounts.credit])
  }
}
