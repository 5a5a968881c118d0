/** `002_add_stock_transfer_tables.py`: its upgrade and downgrade programs. */
module StockTransferMigration {
  import opened Options
  import opened SchemaMigration

  const TRANSFERS := "stock_transfers"
  const STOCK := "sales_stock"
  const ASSETS := "company_assets"

  const TRANSFER_TABLE := Table(
    map["id" := "integer", "transfer_type" := "varchar50", "source_table" := "varchar50", "source_id" := "integer",
        "source_barcode" := "varchar200 null", "source_status" := "varchar50 null", "destination_table" := "varchar50",
        "destination_id" := "integer null", "destination_barcode" := "varchar200 null", "product_id" := "integer",
        "branch_code" := "varchar200", "reason" := "varchar500 null", "initiated_by" := "integer null",
        "approved_by" := "integer null", "status" := "varchar50 default completed", "initiated_at" := "timestamp now",
        "completed_at" := "timestamp null", "reversed_at" := "timestamp null", "reverse_reason" := "varchar500 null",
        "created_at" := "timestamp now", "updated_at" := "timestamp now"],
    map["stock_transfers_product_id_fkey" := ForeignKey({"product_id"}, "products"),
        "stock_transfers_initiated_by_fkey" := ForeignKey({"initiated_by"}, "accounts_user"),
        "stock_transfers_approved_by_fkey" := ForeignKey({"approved_by"}, "accounts_user")],
    map[])

  const CREATE_TABLE: seq<Op> := [CreateTable(TRANSFERS, TRANSFER_TABLE)]

  const CREATE_INDEXES: seq<Op> := [
    CreateIndex("idx_stock_transfers_source", TRANSFERS, {"source_id"}),
    CreateIndex("idx_stock_transfers_destination", TRANSFERS, {"destination_id"}),
    CreateIndex("idx_stock_transfers_barcode", TRANSFERS, {"source_barcode"}),
    CreateIndex("idx_stock_transfers_branch", TRANSFERS, {"branch_code"}),
    CreateIndex("idx_stock_transfers_created", TRANSFERS, {"created_at"}),
    CreateIndex("idx_stock_transfers_status", TRANSFERS, {"status"})]

  const ADD_STOCK_COLUMNS: seq<Op> := [
    AddColumn(STOCK, "transferred_to_company_asset_id", "integer null"),
    AddColumn(STOCK, "transfer_id", "integer null"),
    AddColumn(STOCK, "transfer_date", "timestamp null"),
    AddColumn(STOCK, "transfer_reason", "varchar500 null")]

  const ADD_STOCK_KEY := CreateKey("fk_sales_stock_transfer_id", STOCK, ForeignKey({"transfer_id"}, TRANSFERS))

  const ADD_ASSET_COLUMNS: seq<Op> := [
    AddColumn(ASSETS, "transferred_from_sales_stock_id", "integer null"),
    AddColumn(ASSETS, "transfer_id", "integer null"),
    AddColumn(ASSETS, "transfer_date", "timestamp null"),
    AddColumn(ASSETS, "transfer_reason", "varchar500 null")]

  const ADD_ASSET_KEY := CreateKey("fk_company_assets_transfer_id", ASSETS, ForeignKey({"transfer_id"}, TRANSFERS))

  const UPGRADE :=
    CREATE_TABLE + CREATE_INDEXES + ADD_STOCK_COLUMNS + [ADD_STOCK_KEY] + ADD_ASSET_COLUMNS + [ADD_ASSET_KEY]

  const DROP_KEYS: seq<Op> := [
    DropKey("fk_company_assets_transfer_id", ASSETS), DropKey("fk_sales_stock_transfer_id", STOCK)]

  const DROP_ASSET_COLUMNS: seq<Op> := [
    DropColumn(ASSETS, "transfer_reason"), DropColumn(ASSETS, "transfer_date"),
    DropColumn(ASSETS, "transfer_id"), DropColumn(ASSETS, "transferred_from_sales_stock_id")]

  const DROP_STOCK_COLUMNS: seq<Op> := [
    DropColumn(STOCK, "transfer_reason"), DropColumn(STOCK, "transfer_date"),
    DropColumn(STOCK, "transfer_id"), DropColumn(STOCK, "transferred_to_company_asset_id")]

  const DROP_INDEXES: seq<Op> := [
    DropIndex("idx_stock_transfers_status", TRANSFERS), DropIndex("idx_stock_transfers_created", TRANSFERS),
    DropIndex("idx_stock_transfers_branch", TRANSFERS), DropIndex("idx_stock_transfers_barcode", TRANSFERS),
    DropIndex("idx_stock_transfers_destination", TRANSFERS), DropIndex("idx_stock_transfers_source", TRANSFERS)]

  const DROP_TABLE: seq<Op> := [DropTable(TRANSFERS)]

  /** Both keys go first, so this is not UPGRADE undone in reverse order. */
  const DOWNGRADE := DROP_KEYS + DROP_ASSET_COLUMNS + DROP_STOCK_COLUMNS + DROP_INDEXES + DROP_TABLE

  lemma UndoneIndexes()
    ensures forall i | 0 <= i < |CREATE_INDEXES| :: Constructive(CREATE_INDEXES[i])
    ensures UndoAll(CREATE_INDEXES) == DROP_INDEXES
  {
    assert |CREATE_INDEXES| == 6;
  }

  lemma UndoneColumns()
    ensures forall i | 0 <= i < |ADD_STOCK_COLUMNS| :: Constructive(ADD_STOCK_COLUMNS[i])
    ensures forall i | 0 <= i < |ADD_ASSET_COLUMNS| :: Constructive(ADD_ASSET_COLUMNS[i])
    ensures UndoAll(ADD_STOCK_COLUMNS) == DROP_STOCK_COLUMNS && UndoAll(ADD_ASSET_COLUMNS) == DROP_ASSET_COLUMNS
  {
  }

  lemma UndoneUpgrade()
    ensures forall i | 0 <= i < |UPGRADE| :: Constructive(UPGRADE[i])
    ensures UndoAll(UPGRADE)
         == [DROP_KEYS[0]]
            + (DROP_ASSET_COLUMNS + ([DROP_KEYS[1]] + (DROP_STOCK_COLUMNS + (DROP_INDEXES + DROP_TABLE))))
  {
    UndoneIndexes();
    UndoneColumns();
    assert UndoAll(CREATE_TABLE) == DROP_TABLE;
    assert UndoAll([ADD_STOCK_KEY]) == [DROP_KEYS[1]] && UndoAll([ADD_ASSET_KEY]) == [DROP_KEYS[0]];
    var a := CREATE_TABLE + CREATE_INDEXES;
    var b := a + ADD_STOCK_COLUMNS + [ADD_STOCK_KEY];
    UndoAllAppend(CREATE_TABLE, CREATE_INDEXES);
    UndoAllAppend(a, ADD_STOCK_COLUMNS);
    UndoAllAppend(a + ADD_STOCK_COLUMNS, [ADD_STOCK_KEY]);
    UndoAllAppend(b, ADD_ASSET_COLUMNS);
    UndoAllAppend(b + ADD_ASSET_COLUMNS, [ADD_ASSET_KEY]);
  }

  lemma ThreeParts(x: seq<Op>, y: seq<Op>, z: seq<Op>, w: seq<Op>, s: Schema)
    requires forall n :: RunAll(y, n) == RunAll(z, n)
    ensures RunAll(x + (y + w), s) == RunAll(x + (z + w), s)
  {
    RunAppend(x, y + w, s);
    RunAppend(x, z + w, s);
    if RunAll(x, s).Some? {
      RunAppend(y, w, RunAll(x, s).value);
      RunAppend(z, w, RunAll(x, s).value);
    }
  }

  /** The downgrade's order differs from the reversed upgrade but has its effect. */
  lemma DowngradeIsUndo(s: Schema)
    requires forall i | 0 <= i < |UPGRADE| :: Constructive(UPGRADE[i])
    ensures RunAll(DOWNGRADE, s) == RunAll(UndoAll(UPGRADE), s)
  {
    var k1, k2, rest := [DROP_KEYS[0]], [DROP_KEYS[1]], DROP_STOCK_COLUMNS + (DROP_INDEXES + DROP_TABLE);
    forall n ensures RunAll(k2 + DROP_ASSET_COLUMNS, n) == RunAll(DROP_ASSET_COLUMNS + k2, n) {
      KeyDropMovesPastColumns("fk_sales_stock_transfer_id", STOCK, DROP_ASSET_COLUMNS, ASSETS, n);
    }
    ThreeParts(k1, k2 + DROP_ASSET_COLUMNS, DROP_ASSET_COLUMNS + k2, rest, s);
    UndoneUpgrade();
    assert DOWNGRADE == k1 + ((k2 + DROP_ASSET_COLUMNS) + rest);
    assert UndoAll(UPGRADE) == k1 + ((DROP_ASSET_COLUMNS + k2) + rest);
  }

  /** Whenever the upgrade succeeds, the downgrade succeeds on its result and gives
      back the schema exactly; no drop fails, the referred-to table included. */
  lemma DowngradeRestores(s: Schema)
    requires WellFormed(s) && RunAll(UPGRADE, s).Some?
    ensures RunAll(DOWNGRADE, RunAll(UPGRADE, s).value) == Some(s)
  {
    UndoneUpgrade();
    UndoRestores(UPGRADE, s);
    DowngradeIsUndo(RunAll(UPGRADE, s).value);
  }

  // ---------------------------------------------------------------------------
  // When the upgrade succeeds.

  /** Adding columns one by one. */
  lemma {:induction false} ColumnsAdd(on: string, ops: seq<Op>, s: Schema)
    requires forall i | 0 <= i < |ops| :: ops[i].AddColumn? && ops[i].on == on
    requires forall i, j | 0 <= i < j < |ops| :: ops[i].column != ops[j].column
    requires on in s
    ensures RunAll(ops, s).Some? <==> forall i | 0 <= i < |ops| :: ops[i].column !in s[on].columns
    ensures RunAll(ops, s).Some? ==>
              var n := RunAll(ops, s).value;
              && n.Keys == s.Keys && (forall t | t in s && t != on :: n[t] == s[t])
              && n[on].keys == s[on].keys && n[on].indexes == s[on].indexes
              && (forall c :: c in n[on].columns <==>
                    c in s[on].columns || exists i :: 0 <= i < |ops| && ops[i].column == c)
    decreases |ops|
  {
    if ops != [] && ops[0].column !in s[on].columns {
      var next := Apply(ops[0], s).value;
      var rest := ops[1..];
      ColumnsAdd(on, rest, next);
      assert forall i | 1 <= i < |ops| :: ops[i] == rest[i - 1] && ops[i].column != ops[0].column;
      assert forall i | 0 <= i < |rest| :: rest[i] == ops[i + 1];
    }
  }

  /** Creating indexes one by one. */
  lemma {:induction false} IndexesAdd(on: string, ops: seq<Op>, s: Schema)
    requires on in s
    requires forall i | 0 <= i < |ops| :: ops[i].CreateIndex? && ops[i].on == on && ops[i].columns <= s[on].columns.Keys
    requires forall i, j | 0 <= i < j < |ops| :: ops[i].name != ops[j].name
    ensures RunAll(ops, s).Some? <==> forall i | 0 <= i < |ops| :: !NameTaken(s, ops[i].name)
    ensures RunAll(ops, s).Some? ==>
              var n := RunAll(ops, s).value; n.Keys == s.Keys && (forall t | t in s && t != on :: n[t] == s[t])
    decreases |ops|
  {
    if ops != [] && !NameTaken(s, ops[0].name) {
      var next, rest := Apply(ops[0], s).value, ops[1..];
      assert forall i | 0 <= i < |rest| :: rest[i] == ops[i + 1];
      forall i | 1 <= i < |ops| ensures IndexExists(next, ops[i].name) <==> IndexExists(s, ops[i].name) {
        if IndexExists(s, ops[i].name) {
          var t :| t in s && ops[i].name in s[t].indexes;
          assert t in next && ops[i].name in next[t].indexes;
        }
      }
      IndexesAdd(on, rest, next);
      assert forall i | 1 <= i < |ops| :: ops[i] == rest[i - 1];
    }
  }

  /** None of the names the migration brings is taken, and what it refers to exists. */
  predicate Ready(s: Schema) {
    && !NameTaken(s, TRANSFERS) && "products" in s && "accounts_user" in s
    && (forall i | 0 <= i < |CREATE_INDEXES| :: !NameTaken(s, CREATE_INDEXES[i].name))
    && Takes(s, STOCK, ADD_STOCK_COLUMNS, ADD_STOCK_KEY)
    && Takes(s, ASSETS, ADD_ASSET_COLUMNS, ADD_ASSET_KEY)
  }

  /** Table `on` exists and has neither the columns nor the key. */
  predicate Takes(s: Schema, on: string, columns: seq<Op>, key: Op)
    requires key.CreateKey? && forall i | 0 <= i < |columns| :: columns[i].AddColumn?
  {
    on in s && key.name !in s[on].keys && forall i | 0 <= i < |columns| :: columns[i].column !in s[on].columns
  }

  lemma TransferTableIsWellFormed(s: Schema)
    ensures WellFormedTable(s[TRANSFERS := TRANSFER_TABLE], TRANSFER_TABLE) <==> "products" in s && "accounts_user" in s
  {
    var n := s[TRANSFERS := TRANSFER_TABLE];
    var keys := TRANSFER_TABLE.keys;
    assert "stock_transfers_product_id_fkey" in keys && keys["stock_transfers_product_id_fkey"].parent == "products";
    assert "stock_transfers_approved_by_fkey" in keys
           && keys["stock_transfers_approved_by_fkey"].parent == "accounts_user";
    assert "products" != TRANSFERS && "accounts_user" != TRANSFERS;
  }

  lemma NewTableHasNoIndexes(s: Schema, name: string)
    requires TRANSFERS !in s
    ensures IndexExists(s[TRANSFERS := TRANSFER_TABLE], name) <==> IndexExists(s, name)
  {
    var next := s[TRANSFERS := TRANSFER_TABLE];
    if IndexExists(s, name) {
      var t :| t in s && name in s[t].indexes;
      assert t in next && name in next[t].indexes;
    }
  }

  lemma IndexesOnNewTable(s: Schema)
    requires TRANSFERS !in s
    ensures var next := s[TRANSFERS := TRANSFER_TABLE];
            && (RunAll(CREATE_INDEXES, next).Some? <==>
                forall i | 0 <= i < |CREATE_INDEXES| :: !NameTaken(s, CREATE_INDEXES[i].name))
            && (RunAll(CREATE_INDEXES, next).Some? ==>
                  var n := RunAll(CREATE_INDEXES, next).value;
                  n.Keys == s.Keys + {TRANSFERS}
                  && forall t | t in s :: n[t] == s[t])
  {
    IndexNamesDiffer();
    forall name ensures IndexExists(s[TRANSFERS := TRANSFER_TABLE], name) <==> IndexExists(s, name) {
      NewTableHasNoIndexes(s, name);
    }
    IndexesAdd(TRANSFERS, CREATE_INDEXES, s[TRANSFERS := TRANSFER_TABLE]);
  }

  lemma CreateTransfersSucceedsIff(s: Schema)
    ensures var ops := CREATE_TABLE + CREATE_INDEXES;
            && (RunAll(ops, s).Some? <==>
                !NameTaken(s, TRANSFERS) && "products" in s && "accounts_user" in s
                && forall i | 0 <= i < |CREATE_INDEXES| :: !NameTaken(s, CREATE_INDEXES[i].name))
            && (RunAll(ops, s).Some? ==>
                  var n := RunAll(ops, s).value; n.Keys == s.Keys + {TRANSFERS} && forall t | t in s :: n[t] == s[t])
  {
    TransferTableIsWellFormed(s);
    RunAppend(CREATE_TABLE, CREATE_INDEXES, s);
    RunOne(CreateTable(TRANSFERS, TRANSFER_TABLE), s);
    if TRANSFERS !in s { IndexesOnNewTable(s); }
  }

  lemma IndexNamesDiffer()
    ensures forall i, j | 0 <= i < j < |CREATE_INDEXES| :: CREATE_INDEXES[i].name != CREATE_INDEXES[j].name
    ensures forall i | 0 <= i < |CREATE_INDEXES| ::
              CREATE_INDEXES[i].CreateIndex? && CREATE_INDEXES[i].on == TRANSFERS
              && CREATE_INDEXES[i].columns <= TRANSFER_TABLE.columns.Keys
  {
    var all := CREATE_INDEXES;
    assert |all| == 6;
    assert all[0].name[20] == 's' && all[1].name[20] == 'd' && all[2].name[20] == 'b' && all[3].name[21] == 'r';
    assert all[4].name[20] == 'c' && all[5].name[21] == 't' && all[0].name[21] == 'o' && all[2].name[21] == 'a';
  }

  lemma ColumnNamesDiffer()
    ensures forall i, j | 0 <= i < j < |ADD_STOCK_COLUMNS| :: ADD_STOCK_COLUMNS[i].column != ADD_STOCK_COLUMNS[j].column
    ensures forall i, j | 0 <= i < j < |ADD_ASSET_COLUMNS| :: ADD_ASSET_COLUMNS[i].column != ADD_ASSET_COLUMNS[j].column
    ensures STOCK != TRANSFERS && ASSETS != TRANSFERS && STOCK != ASSETS
  {
    assert STOCK[1] == 'a' && TRANSFERS[1] == 't' && ASSETS[1] == 'o';
    var a, b := ADD_STOCK_COLUMNS, ADD_ASSET_COLUMNS;
    assert a[0].column[8] == 'r' && a[1].column[9] == 'i' && a[2].column[9] == 'd' && a[3].column[9] == 'r';
    assert b[0].column[8] == 'r' && b[1].column[9] == 'i' && b[2].column[9] == 'd' && b[3].column[9] == 'r';
    assert a[1].column[8] == a[2].column[8] == a[3].column[8] == '_' == b[1].column[8] == b[2].column[8]
           == b[3].column[8];
  }

  lemma AddColumnsAndKeySucceedsIff(on: string, columns: seq<Op>, key: Op, s: Schema)
    requires forall i | 0 <= i < |columns| :: columns[i].AddColumn? && columns[i].on == on
    requires forall i, j | 0 <= i < j < |columns| :: columns[i].column != columns[j].column
    requires key.CreateKey? && key.on == on && key.key == ForeignKey({"transfer_id"}, TRANSFERS)
    requires exists i :: 0 <= i < |columns| && columns[i].column == "transfer_id"
    requires TRANSFERS in s && columns != []
    ensures RunAll(columns + [key], s).Some? <==> Takes(s, on, columns, key)
    ensures RunAll(columns + [key], s).Some? ==>
              var n := RunAll(columns + [key], s).value;
              n.Keys == s.Keys
              && forall t | t in s && t != on :: n[t] == s[t]
  {
    RunAppend(columns, [key], s);
    if on in s {
      ColumnsAdd(on, columns, s);
      if RunAll(columns, s).Some? { RunOne(key, RunAll(columns, s).value); }
    }
  }

  lemma BothTablesTakeIff(s: Schema)
    requires TRANSFERS in s
    ensures RunAll(ADD_STOCK_COLUMNS + [ADD_STOCK_KEY] + (ADD_ASSET_COLUMNS + [ADD_ASSET_KEY]), s).Some? <==>
            Takes(s, STOCK, ADD_STOCK_COLUMNS, ADD_STOCK_KEY) && Takes(s, ASSETS, ADD_ASSET_COLUMNS, ADD_ASSET_KEY)
  {
    ColumnNamesDiffer();
    var stock, assets := ADD_STOCK_COLUMNS + [ADD_STOCK_KEY], ADD_ASSET_COLUMNS + [ADD_ASSET_KEY];
    RunAppend(stock, assets, s);
    assert ADD_STOCK_COLUMNS[1].column == "transfer_id" && ADD_ASSET_COLUMNS[1].column == "transfer_id";
    AddColumnsAndKeySucceedsIff(STOCK, ADD_STOCK_COLUMNS, ADD_STOCK_KEY, s);
    if RunAll(stock, s).Some? {
      AddColumnsAndKeySucceedsIff(ASSETS, ADD_ASSET_COLUMNS, ADD_ASSET_KEY, RunAll(stock, s).value);
    }
  }

  /** The upgrade succeeds exactly on the schemas that are ready for it. */
  lemma UpgradeSucceedsIff(s: Schema)
    ensures RunAll(UPGRADE, s).Some? <==> Ready(s)
  {
    ColumnNamesDiffer();
    CreateTransfersSucceedsIff(s);
    var both := ADD_STOCK_COLUMNS + [ADD_STOCK_KEY] + (ADD_ASSET_COLUMNS + [ADD_ASSET_KEY]);
    var create := CREATE_TABLE + CREATE_INDEXES;
    assert UPGRADE == create + both;
    RunAppend(create, both, s);
    if RunAll(create, s).Some? { BothTablesTakeIff(RunAll(create, s).value); }
  }

  /** `upgrade`, in one transaction. */
  method Upgrade(db: Database) returns (ok: bool)
    modifies db
    ensures ok <==> Ready(old(db.schema))
    ensures if ok then RunAll(UPGRADE, old(db.schema)) == Some(db.schema) else db.schema == old(db.schema)
  {
    UpgradeSucceedsIff(db.schema);
    ok := db.Migrate(UPGRADE);
  }

  /** `downgrade`: after a successful upgrade it leaves the schema found before. */
  method Downgrade(db: Database, ghost before: Schema) returns (ok: bool)
    modifies db
    ensures ok <==> RunAll(DOWNGRADE, old(db.schema)).Some?
    ensures if ok then RunAll(DOWNGRADE, old(db.schema)) == Some(db.schema) else db.schema == old(db.schema)
    ensures WellFormed(before) && RunAll(UPGRADE, before) == Some(old(db.schema)) ==> ok && db.schema == before
  {
    if WellFormed(before) && RunAll(UPGRADE, before) == Some(db.schema) { DowngradeRestores(before); }
    ok := db.Migrate(DOWNGRADE);
  }
}
