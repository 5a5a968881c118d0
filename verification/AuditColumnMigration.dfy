/** `add_audit_columns_001.py`: guarded loops that add and drop audit columns. */
module AuditColumnMigration {
  import opened Options
  import opened SchemaMigration

  datatype Cell = Cell(table: string, column: string)

  const NULLABLE_INT := "integer null"

  /** information_schema has the column. */
  predicate ColumnExists(s: Schema, c: Cell) {
    c.table in s && c.column in s[c.table].columns
  }

  /** The columns in the order both programs visit them. */
  function Visited(both: seq<string>, updatedOnly: seq<string>): seq<Cell> {
    PairsOf(both) + UpdatedOf(updatedOnly)
  }

  function PairsOf(tables: seq<string>): seq<Cell> {
    if tables == [] then []
    else [Cell(tables[0], "created_by"), Cell(tables[0], "updated_by")] + PairsOf(tables[1..])
  }

  function UpdatedOf(tables: seq<string>): seq<Cell> {
    if tables == [] then [] else [Cell(tables[0], "updated_by")] + UpdatedOf(tables[1..])
  }

  function AddMissing(s: Schema, c: Cell): Option<Schema> {
    if ColumnExists(s, c) then Some(s) else Apply(AddColumn(c.table, c.column, NULLABLE_INT), s)
  }

  function Up(s: Schema, cells: seq<Cell>): Option<Schema>
    decreases |cells|
  {
    if cells == [] then Some(s)
    else
      match AddMissing(s, cells[0])
      case None => None
      case Some(next) => Up(next, cells[1..])
  }

  function DropPresent(s: Schema, c: Cell): Schema {
    if ColumnExists(s, c) then Apply(DropColumn(c.table, c.column), s).value else s
  }

  function Down(s: Schema, cells: seq<Cell>): Schema
    decreases |cells|
  {
    if cells == [] then s else Down(DropPresent(s, cells[0]), cells[1..])
  }

  method AddUnlessPresent(db: Database, table: string, column: string) returns (ok: bool)
    modifies db
    ensures var r := AddMissing(old(db.schema), Cell(table, column));
            ok == r.Some? && db.schema == if ok then r.value else old(db.schema)
  {
    ok := true;
    if !ColumnExists(db.schema, Cell(table, column)) {
      ok := db.Perform(AddColumn(table, column, NULLABLE_INT));
    }
  }

  method DropIfPresent(db: Database, table: string, column: string)
    modifies db
    ensures db.schema == DropPresent(old(db.schema), Cell(table, column))
  {
    if ColumnExists(db.schema, Cell(table, column)) {
      var ok := db.Perform(DropColumn(table, column));
    }
  }

  /** `upgrade`; a missing table fails it, and nothing of it remains. */
  method Upgrade(db: Database, both: seq<string>, updatedOnly: seq<string>) returns (ok: bool)
    modifies db
    ensures var r := Up(old(db.schema), Visited(both, updatedOnly));
            ok == r.Some? && db.schema == if ok then r.value else old(db.schema)
  {
    var before := db.schema;
    ghost var tail := UpdatedOf(updatedOnly);
    var i := 0;
    while i < |both|
      invariant 0 <= i <= |both|
      invariant Up(before, Visited(both, updatedOnly)) == Up(db.schema, PairsOf(both[i..]) + tail)
    {
      ghost var rest := PairsOf(both[i + 1..]) + tail;
      assert both[i..][1..] == both[i + 1..];
      assert PairsOf(both[i..]) + tail == [Cell(both[i], "created_by")] + ([Cell(both[i], "updated_by")] + rest);
      ok := AddUnlessPresent(db, both[i], "created_by");
      if ok { ok := AddUnlessPresent(db, both[i], "updated_by"); }
      if !ok { db.schema := before; return; }
      i := i + 1;
    }
    assert PairsOf(both[i..]) + tail == tail;
    assert updatedOnly[0..] == updatedOnly;
    var j := 0;
    while j < |updatedOnly|
      invariant 0 <= j <= |updatedOnly|
      invariant Up(before, Visited(both, updatedOnly)) == Up(db.schema, UpdatedOf(updatedOnly[j..]))
    {
      assert updatedOnly[j..][1..] == updatedOnly[j + 1..];
      ok := AddUnlessPresent(db, updatedOnly[j], "updated_by");
      if !ok { db.schema := before; return; }
      j := j + 1;
    }
    return true;
  }

  /** `downgrade`, in the same order as `upgrade`. */
  method Downgrade(db: Database, both: seq<string>, updatedOnly: seq<string>)
    modifies db
    ensures db.schema == Down(old(db.schema), Visited(both, updatedOnly))
  {
    ghost var before := db.schema;
    ghost var tail := UpdatedOf(updatedOnly);
    for i := 0 to |both|
      invariant Down(before, Visited(both, updatedOnly)) == Down(db.schema, PairsOf(both[i..]) + tail)
    {
      ghost var rest := PairsOf(both[i + 1..]) + tail;
      assert both[i..][1..] == both[i + 1..];
      assert PairsOf(both[i..]) + tail == [Cell(both[i], "created_by")] + ([Cell(both[i], "updated_by")] + rest);
      DropIfPresent(db, both[i], "created_by");
      DropIfPresent(db, both[i], "updated_by");
    }
    assert PairsOf(both[|both|..]) + tail == tail;
    assert updatedOnly[0..] == updatedOnly;
    for j := 0 to |updatedOnly|
      invariant Down(before, Visited(both, updatedOnly)) == Down(db.schema, UpdatedOf(updatedOnly[j..]))
    {
      assert updatedOnly[j..][1..] == updatedOnly[j + 1..];
      DropIfPresent(db, updatedOnly[j], "updated_by");
    }
  }

  // ---------------------------------------------------------------------------

  lemma {:induction false} PresentStaysPresent(s: Schema, cells: seq<Cell>, c: Cell)
    requires Up(s, cells).Some? && ColumnExists(s, c)
    ensures ColumnExists(Up(s, cells).value, c)
    decreases |cells|
  {
    if cells != [] { PresentStaysPresent(AddMissing(s, cells[0]).value, cells[1..], c); }
  }

  lemma {:induction false} UpMakesPresent(s: Schema, cells: seq<Cell>, i: nat)
    requires Up(s, cells).Some? && i < |cells|
    ensures ColumnExists(Up(s, cells).value, cells[i])
    decreases |cells|
  {
    var next := AddMissing(s, cells[0]).value;
    if i == 0 { PresentStaysPresent(next, cells[1..], cells[0]); } else { UpMakesPresent(next, cells[1..], i - 1); }
  }

  lemma {:induction false} UpOfPresentIsNothing(s: Schema, cells: seq<Cell>)
    requires forall i | 0 <= i < |cells| :: ColumnExists(s, cells[i])
    ensures Up(s, cells) == Some(s)
    decreases |cells|
  {
    if cells != [] {
      assert ColumnExists(s, cells[0]);
      UpOfPresentIsNothing(s, cells[1..]);
    }
  }

  /** Running the upgrade again changes nothing. */
  lemma UpgradeIsIdempotent(s: Schema, cells: seq<Cell>)
    requires Up(s, cells).Some?
    ensures Up(Up(s, cells).value, cells) == Up(s, cells)
  {
    var n := Up(s, cells).value;
    forall i | 0 <= i < |cells| ensures ColumnExists(n, cells[i]) { UpMakesPresent(s, cells, i); }
    UpOfPresentIsNothing(n, cells);
  }

  lemma {:induction false} UpSucceedsIff(s: Schema, cells: seq<Cell>)
    ensures Up(s, cells).Some? <==> forall i | 0 <= i < |cells| :: cells[i].table in s
    ensures Up(s, cells).Some? ==> Up(s, cells).value.Keys == s.Keys
    decreases |cells|
  {
    if cells != [] && AddMissing(s, cells[0]).Some? {
      UpSucceedsIff(AddMissing(s, cells[0]).value, cells[1..]);
      assert forall i | 1 <= i < |cells| :: cells[i] == cells[1..][i - 1];
    }
  }

  lemma {:induction false} DownIsThorough(s: Schema, cells: seq<Cell>, i: nat)
    requires i < |cells|
    ensures !ColumnExists(Down(s, cells), cells[i])
    decreases |cells|
  {
    var next := DropPresent(s, cells[0]);
    if i == 0 { AbsentStaysAbsent(next, cells[1..], cells[0]); } else { DownIsThorough(next, cells[1..], i - 1); }
  }

  lemma {:induction false} AbsentStaysAbsent(s: Schema, cells: seq<Cell>, c: Cell)
    requires !ColumnExists(s, c)
    ensures !ColumnExists(Down(s, cells), c)
    decreases |cells|
  {
    if cells != [] { AbsentStaysAbsent(DropPresent(s, cells[0]), cells[1..], c); }
  }

  lemma {:induction false} DownOfAbsentIsNothing(s: Schema, cells: seq<Cell>)
    requires forall i | 0 <= i < |cells| :: !ColumnExists(s, cells[i])
    ensures Down(s, cells) == s
    decreases |cells|
  {
    if cells != [] {
      assert !ColumnExists(s, cells[0]);
      DownOfAbsentIsNothing(s, cells[1..]);
    }
  }

  /** Dropping one new column and adding another commute, so a drop may be moved in
      front of the additions after it. */
  lemma DropBeforeAdd(s: Schema, c: Cell, d: Cell)
    requires AddMissing(s, d).Some? && ColumnExists(s, c) && c != d
    ensures AddMissing(DropPresent(s, c), d) == Some(DropPresent(AddMissing(s, d).value, c))
    ensures WellFormed(s) ==> WellFormed(AddMissing(s, d).value)
  {
    var added, dropped := AddMissing(s, d).value, DropPresent(s, c);
    if !ColumnExists(s, d) {
      if c.table == d.table {
        var t := s[c.table];
        assert t.columns[d.column := NULLABLE_INT] - {c.column} == (t.columns - {c.column})[d.column := NULLABLE_INT];
        assert AddMissing(dropped, d).value[c.table] == DropPresent(added, c)[c.table];
      }
      assert AddMissing(dropped, d).value == DropPresent(added, c);
    }
  }

  lemma {:induction false} DropBeforeUp(s: Schema, c: Cell, cells: seq<Cell>)
    requires Up(s, cells).Some? && ColumnExists(s, c) && c !in cells
    ensures Up(DropPresent(s, c), cells) == Some(DropPresent(Up(s, cells).value, c))
    decreases |cells|
  {
    if cells != [] {
      DropBeforeAdd(s, c, cells[0]);
      assert ColumnExists(AddMissing(s, cells[0]).value, c);
      DropBeforeUp(AddMissing(s, cells[0]).value, c, cells[1..]);
    }
  }

  predicate DistinctCells(cells: seq<Cell>) {
    forall i, j | 0 <= i < j < |cells| :: cells[i] != cells[j]
  }

  lemma {:induction false} NewColumnsAreTakenBack(s: Schema, cells: seq<Cell>)
    requires WellFormed(s) && Up(s, cells).Some? && DistinctCells(cells)
    requires forall i | 0 <= i < |cells| :: !ColumnExists(s, cells[i])
    ensures Down(Up(s, cells).value, cells) == s
    decreases |cells|
  {
    if cells != [] {
      var c, rest := cells[0], cells[1..];
      assert !ColumnExists(s, c);
      var next := AddMissing(s, c).value;
      UndoColumn(c.table, c.column, NULLABLE_INT, s);
      assert DropPresent(next, c) == s;
      forall i | 0 <= i < |rest| ensures !ColumnExists(s, rest[i]) && rest[i] != c {
        assert rest[i] == cells[i + 1];
      }
      DropBeforeUp(next, c, rest);
      NewColumnsAreTakenBack(s, rest);
    }
  }

  /** The downgrade undoes the upgrade exactly when no listed column was there before:
      one that was is dropped with the others. */
  lemma DowngradeRestoresIff(s: Schema, cells: seq<Cell>)
    requires WellFormed(s) && Up(s, cells).Some? && DistinctCells(cells)
    ensures Down(Up(s, cells).value, cells) == s <==> forall i | 0 <= i < |cells| :: !ColumnExists(s, cells[i])
  {
    if forall i | 0 <= i < |cells| :: !ColumnExists(s, cells[i]) {
      NewColumnsAreTakenBack(s, cells);
    } else {
      var i :| 0 <= i < |cells| && ColumnExists(s, cells[i]);
      DownIsThorough(Up(s, cells).value, cells, i);
    }
  }

  /** Downgrading twice is downgrading once. */
  lemma DowngradeIsIdempotent(s: Schema, cells: seq<Cell>)
    ensures Down(Down(s, cells), cells) == Down(s, cells)
  {
    forall i | 0 <= i < |cells| ensures !ColumnExists(Down(s, cells), cells[i]) { DownIsThorough(s, cells, i); }
    DownOfAbsentIsNothing(Down(s, cells), cells);
  }

  /** Exactly these columns are visited. */
  lemma {:induction false} VisitedCells(both: seq<string>, updatedOnly: seq<string>)
    ensures forall c :: c in PairsOf(both) <==> c.table in both && c.column in {"created_by", "updated_by"}
    ensures forall c :: c in UpdatedOf(updatedOnly) <==> c.table in updatedOnly && c.column == "updated_by"
    decreases |both| + |updatedOnly|
  {
    if both != [] {
      var first := [Cell(both[0], "created_by"), Cell(both[0], "updated_by")];
      VisitedCells(both[1..], []);
      assert both == [both[0]] + both[1..] && PairsOf(both) == first + PairsOf(both[1..]);
    }
    if updatedOnly != [] {
      VisitedCells([], updatedOnly[1..]);
      assert updatedOnly == [updatedOnly[0]] + updatedOnly[1..];
    }
  }

  predicate Distinct(tables: seq<string>) {
    forall i, j | 0 <= i < j < |tables| :: tables[i] != tables[j]
  }

  lemma NotAmongPairs(t: string, tables: seq<string>, column: string)
    requires t !in tables
    ensures Cell(t, column) !in PairsOf(tables)
  {
    VisitedCells(tables, []);
  }

  lemma {:induction false} PairsAreDistinct(tables: seq<string>)
    requires Distinct(tables)
    ensures DistinctCells(PairsOf(tables))
    decreases |tables|
  {
    if tables != [] {
      var t, rest := tables[0], tables[1..];
      PairsAreDistinct(rest);
      assert t !in rest;
      NotAmongPairs(t, rest, "updated_by");
      NotAmongPairs(t, rest, "created_by");
      CreatedIsNotUpdated(t);
      PrependDistinct(Cell(t, "updated_by"), PairsOf(rest));
      PrependDistinct(Cell(t, "created_by"), [Cell(t, "updated_by")] + PairsOf(rest));
      assert PairsOf(tables) == [Cell(t, "created_by")] + ([Cell(t, "updated_by")] + PairsOf(rest));
    }
  }

  lemma {:induction false} UpdatedAreDistinct(tables: seq<string>)
    requires Distinct(tables)
    ensures DistinctCells(UpdatedOf(tables))
    decreases |tables|
  {
    if tables != [] {
      UpdatedAreDistinct(tables[1..]);
      VisitedCells([], tables[1..]);
      assert tables[0] !in tables[1..];
      PrependDistinct(Cell(tables[0], "updated_by"), UpdatedOf(tables[1..]));
    }
  }

  lemma CreatedIsNotUpdated(table: string)
    ensures Cell(table, "created_by") != Cell(table, "updated_by")
  {
    assert "created_by"[0] != "updated_by"[0];
  }

  lemma PrependDistinct(c: Cell, cells: seq<Cell>)
    requires DistinctCells(cells) && c !in cells
    ensures DistinctCells([c] + cells)
  {
  }

  /** Two lists without repetition or overlap visit each column once. */
  lemma VisitedIsDistinct(both: seq<string>, updatedOnly: seq<string>)
    requires Distinct(both) && Distinct(updatedOnly) && forall t | t in both :: t !in updatedOnly
    ensures DistinctCells(Visited(both, updatedOnly))
  {
    var x, y := PairsOf(both), UpdatedOf(updatedOnly);
    PairsAreDistinct(both);
    UpdatedAreDistinct(updatedOnly);
    VisitedCells(both, updatedOnly);
    forall i, j | 0 <= i < |x| && 0 <= j < |y| ensures x[i] != y[j] {
      assert x[i] in x && y[j] in y;
    }
  }

  /** The upgrade adds exactly the listed columns that were missing, as nullable integers,
      and changes nothing else of any table. */
  lemma {:induction false} UpAddsOnlyListed(s: Schema, cells: seq<Cell>, t: string)
    requires Up(s, cells).Some? && t in s
    ensures var n := Up(s, cells).value;
            && t in n && n[t].keys == s[t].keys && n[t].indexes == s[t].indexes
            && (forall c :: c in n[t].columns <==> c in s[t].columns || Cell(t, c) in cells)
            && (forall c | c in n[t].columns ::
                  n[t].columns[c] == if c in s[t].columns then s[t].columns[c] else "integer null")
    decreases |cells|
  {
    if cells != [] {
      UpAddsOnlyListed(AddMissing(s, cells[0]).value, cells[1..], t);
      assert cells == [cells[0]] + cells[1..];
    }
  }

  /** The downgrade drops exactly the listed columns, with the keys and indexes that use
      them. */
  lemma {:induction false} DownDropsOnlyListed(s: Schema, cells: seq<Cell>, t: string)
    requires t in s
    ensures var n := Down(s, cells);
            && t in n
            && (forall c :: c in n[t].columns <==> c in s[t].columns && Cell(t, c) !in cells)
            && (forall c | c in n[t].columns :: n[t].columns[c] == s[t].columns[c])
            && (forall k :: k in n[t].keys <==>
                  k in s[t].keys && forall c | c in s[t].keys[k].columns && c in s[t].columns :: Cell(t, c) !in cells)
            && (forall i :: i in n[t].indexes <==>
                  i in s[t].indexes && forall c | c in s[t].indexes[i] && c in s[t].columns :: Cell(t, c) !in cells)
    decreases |cells|
  {
    if cells != [] {
      DownDropsOnlyListed(DropPresent(s, cells[0]), cells[1..], t);
      assert cells == [cells[0]] + cells[1..];
    }
  }

  /** None of the columns that the two lists name is there. */
  predicate NoListedColumn(s: Schema, both: seq<string>, updatedOnly: seq<string>) {
    && (forall t | t in both :: !ColumnExists(s, Cell(t, "created_by")) && !ColumnExists(s, Cell(t, "updated_by")))
    && (forall t | t in updatedOnly :: !ColumnExists(s, Cell(t, "updated_by")))
  }

  /** The two programs on the script's two table lists: the upgrade succeeds exactly if
      every listed table exists, then downgrading undoes it exactly if no listed column
      was there before, and running either program twice is running it once. */
  lemma ProgramsOnTheLists(s: Schema, both: seq<string>, updatedOnly: seq<string>)
    requires WellFormed(s)
    requires Distinct(both) && Distinct(updatedOnly) && forall t | t in both :: t !in updatedOnly
    ensures var cells := Visited(both, updatedOnly);
            var up := Up(s, cells);
            && (up.Some? <==> (forall t | t in both :: t in s) && forall t | t in updatedOnly :: t in s)
            && (up.Some? ==> Up(up.value, cells) == up)
            && (up.Some? ==> (Down(up.value, cells) == s <==> NoListedColumn(s, both, updatedOnly)))
            && Down(Down(s, cells), cells) == Down(s, cells)
  {
    var cells := Visited(both, updatedOnly);
    VisitedCells(both, updatedOnly);
    UpSucceedsIff(s, cells);
    ListedTables(s, both, updatedOnly);
    DowngradeIsIdempotent(s, cells);
    if Up(s, cells).Some? {
      UpgradeIsIdempotent(s, cells);
      VisitedIsDistinct(both, updatedOnly);
      DowngradeRestoresIff(s, cells);
      ListedColumns(s, both, updatedOnly);
    }
  }

  lemma ListedTables(s: Schema, both: seq<string>, updatedOnly: seq<string>)
    ensures var cells := Visited(both, updatedOnly);
            (forall i | 0 <= i < |cells| :: cells[i].table in s)
            <==> (forall t | t in both :: t in s) && forall t | t in updatedOnly :: t in s
  {
    var cells := Visited(both, updatedOnly);
    VisitedCells(both, updatedOnly);
    forall t | t in both && t !in s ensures exists i :: 0 <= i < |cells| && cells[i].table !in s {
      assert Cell(t, "updated_by") in cells;
    }
    forall t | t in updatedOnly && t !in s ensures exists i :: 0 <= i < |cells| && cells[i].table !in s {
      assert Cell(t, "updated_by") in cells;
    }
    forall i | 0 <= i < |cells| ensures cells[i].table in both || cells[i].table in updatedOnly {
      assert cells[i] in cells;
    }
  }

  lemma ListedColumns(s: Schema, both: seq<string>, updatedOnly: seq<string>)
    ensures var cells := Visited(both, updatedOnly);
            (forall i | 0 <= i < |cells| :: !ColumnExists(s, cells[i])) <==> NoListedColumn(s, both, updatedOnly)
  {
    var cells := Visited(both, updatedOnly);
    VisitedCells(both, updatedOnly);
    assert forall c :: c in cells <==> exists i :: 0 <= i < |cells| && cells[i] == c;
    forall t | t in both ensures Cell(t, "created_by") in cells && Cell(t, "updated_by") in cells {}
    forall t | t in updatedOnly ensures Cell(t, "updated_by") in cells {}
  }
}
