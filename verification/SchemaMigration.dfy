/** Schema operations of an Alembic migration over a PostgreSQL schema with foreign
    keys and indexes, and what undoing them restores. */
module SchemaMigration {

  import opened Options

  datatype ForeignKey = ForeignKey(columns: set<string>, parent: string)

  /** `columns` gives each column's definition; keys and indexes by name. */
  datatype Table = Table(columns: map<string, string>, keys: map<string, ForeignKey>, indexes: map<string, set<string>>)

  type Schema = map<string, Table>

  datatype Op =
    | CreateTable(name: string, table: Table)
    | CreateIndex(name: string, on: string, columns: set<string>)
    | AddColumn(on: string, column: string, definition: string)
    | CreateKey(name: string, on: string, key: ForeignKey)
    | DropTable(name: string)
    | DropIndex(name: string, on: string)
    | DropColumn(on: string, column: string)
    | DropKey(name: string, on: string)

  /** Keys and indexes name existing columns; keys name existing parents. */
  predicate WellFormedTable(s: Schema, t: Table) {
    && (forall k | k in t.keys :: t.keys[k].columns <= t.columns.Keys && t.keys[k].parent in s)
    && (forall i | i in t.indexes :: t.indexes[i] <= t.columns.Keys)
  }

  predicate WellFormed(s: Schema) {
    forall n | n in s :: WellFormedTable(s, s[n])
  }

  predicate IndexExists(s: Schema, name: string) {
    exists n :: n in s && name in s[n].indexes
  }

  /** Tables and indexes share one namespace. */
  predicate NameTaken(s: Schema, name: string) {
    name in s || IndexExists(s, name)
  }

  predicate ReferredTo(s: Schema, name: string) {
    exists n, k :: n in s && n != name && k in s[n].keys && s[n].keys[k].parent == name
  }

  /** One operation; None is an error. Dropping a column drops the indexes and keys
      that use it; a table that another one refers to is not dropped. */
  function Apply(op: Op, s: Schema): Option<Schema> {
    match op
    case CreateTable(name, t) =>
      if NameTaken(s, name) || t.indexes != map[] || !WellFormedTable(s[name := t], t) then None else Some(s[name := t])
    case CreateIndex(name, on, columns) =>
      if on !in s || NameTaken(s, name) || !(columns <= s[on].columns.Keys) then None
      else Some(s[on := s[on].(indexes := s[on].indexes[name := columns])])
    case AddColumn(on, c, definition) =>
      if on !in s || c in s[on].columns then None
      else Some(s[on := s[on].(columns := s[on].columns[c := definition])])
    case CreateKey(name, on, key) =>
      if on !in s || name in s[on].keys || !(key.columns <= s[on].columns.Keys) || key.parent !in s then None
      else Some(s[on := s[on].(keys := s[on].keys[name := key])])
    case DropTable(name) =>
      if name !in s || ReferredTo(s, name) then None else Some(s - {name})
    case DropIndex(name, on) =>
      if on !in s || name !in s[on].indexes then None
      else Some(s[on := s[on].(indexes := s[on].indexes - {name})])
    case DropColumn(on, c) =>
      if on !in s || c !in s[on].columns then None else Some(s[on := WithoutColumn(s[on], c)])
    case DropKey(name, on) =>
      if on !in s || name !in s[on].keys then None
      else Some(s[on := s[on].(keys := s[on].keys - {name})])
  }

  function WithoutColumn(t: Table, c: string): Table {
    Table(t.columns - {c},
          map k | k in t.keys && c !in t.keys[k].columns :: t.keys[k],
          map i | i in t.indexes && c !in t.indexes[i] :: t.indexes[i])
  }

  /** A migration stops at its first error, and nothing of it remains. */
  function RunAll(ops: seq<Op>, s: Schema): Option<Schema>
    decreases |ops|
  {
    if ops == [] then Some(s)
    else
      match Apply(ops[0], s)
      case None => None
      case Some(next) => RunAll(ops[1..], next)
  }

  predicate Constructive(op: Op) {
    op.CreateTable? || op.CreateIndex? || op.AddColumn? || op.CreateKey?
  }

  function Undo(op: Op): Op
    requires Constructive(op)
  {
    match op
    case CreateTable(name, _) => DropTable(name)
    case CreateIndex(name, on, _) => DropIndex(name, on)
    case AddColumn(on, c, _) => DropColumn(on, c)
    case CreateKey(name, on, _) => DropKey(name, on)
  }

  /** The undoing operations in exactly reversed order. */
  function UndoAll(ops: seq<Op>): (undone: seq<Op>)
    requires forall i | 0 <= i < |ops| :: Constructive(ops[i])
    ensures |undone| == |ops|
    ensures forall i | 0 <= i < |ops| :: undone[i] == Undo(ops[|ops| - 1 - i])
  {
    seq(|ops|, i requires 0 <= i < |ops| => Undo(ops[|ops| - 1 - i]))
  }

  lemma UndoAllAppend(a: seq<Op>, b: seq<Op>)
    requires forall i | 0 <= i < |a| :: Constructive(a[i])
    requires forall i | 0 <= i < |b| :: Constructive(b[i])
    ensures forall i | 0 <= i < |a + b| :: Constructive((a + b)[i])
    ensures UndoAll(a + b) == UndoAll(b) + UndoAll(a)
  {
  }

  lemma UndoTable(name: string, t: Table, s: Schema)
    requires WellFormed(s) && Apply(CreateTable(name, t), s).Some?
    ensures var n := Apply(CreateTable(name, t), s).value; WellFormed(n) && Apply(DropTable(name), n) == Some(s)
  {
    var n := s[name := t];
    assert n - {name} == s;
  }

  lemma UndoIndex(name: string, on: string, columns: set<string>, s: Schema)
    requires WellFormed(s) && Apply(CreateIndex(name, on, columns), s).Some?
    ensures var n := Apply(CreateIndex(name, on, columns), s).value;
            WellFormed(n) && Apply(DropIndex(name, on), n) == Some(s)
  {
    assert name !in s[on].indexes;
    assert s[on].indexes[name := columns] - {name} == s[on].indexes;
    assert s[on := s[on].(indexes := s[on].indexes[name := columns])][on := s[on]] == s;
  }

  lemma UndoColumn(on: string, c: string, definition: string, s: Schema)
    requires WellFormed(s) && Apply(AddColumn(on, c, definition), s).Some?
    ensures var n := Apply(AddColumn(on, c, definition), s).value;
            WellFormed(n) && Apply(DropColumn(on, c), n) == Some(s)
  {
    var t := s[on];
    var wider := t.(columns := t.columns[c := definition]);
    assert WellFormedTable(s, t);
    assert wider.columns - {c} == t.columns;
    assert WithoutColumn(wider, c).keys == t.keys && WithoutColumn(wider, c).indexes == t.indexes;
    assert s[on := wider][on := t] == s;
  }

  lemma UndoKey(name: string, on: string, key: ForeignKey, s: Schema)
    requires WellFormed(s) && Apply(CreateKey(name, on, key), s).Some?
    ensures var n := Apply(CreateKey(name, on, key), s).value;
            WellFormed(n) && Apply(DropKey(name, on), n) == Some(s)
  {
    assert s[on].keys[name := key] - {name} == s[on].keys;
    assert s[on := s[on].(keys := s[on].keys[name := key])][on := s[on]] == s;
  }

  lemma UndoOne(op: Op, s: Schema)
    requires Constructive(op) && WellFormed(s) && Apply(op, s).Some?
    ensures WellFormed(Apply(op, s).value) && Apply(Undo(op), Apply(op, s).value) == Some(s)
  {
    match op
    case CreateTable(name, t) => UndoTable(name, t, s);
    case CreateIndex(name, on, columns) => UndoIndex(name, on, columns, s);
    case AddColumn(on, c, definition) => UndoColumn(on, c, definition, s);
    case CreateKey(name, on, key) => UndoKey(name, on, key, s);
  }

  lemma {:induction false} RunAppend(a: seq<Op>, b: seq<Op>, s: Schema)
    ensures RunAll(a + b, s) == match RunAll(a, s) case None => None case Some(n) => RunAll(b, n)
    decreases |a|
  {
    if a == [] {
      assert a + b == b;
    } else {
      assert (a + b)[1..] == a[1..] + b;
      if Apply(a[0], s).Some? { RunAppend(a[1..], b, Apply(a[0], s).value); }
    }
  }

  /** Whatever a sequence of constructive operations did, undoing it in reverse order
      restores the schema exactly; no drop fails on the way. */
  lemma {:induction false} UndoRestores(ops: seq<Op>, s: Schema)
    requires forall i | 0 <= i < |ops| :: Constructive(ops[i])
    requires WellFormed(s) && RunAll(ops, s).Some?
    ensures WellFormed(RunAll(ops, s).value)
    ensures RunAll(UndoAll(ops), RunAll(ops, s).value) == Some(s)
    decreases |ops|
  {
    if ops != [] {
      var next := Apply(ops[0], s).value;
      UndoOne(ops[0], s);
      UndoRestores(ops[1..], next);
      assert UndoAll(ops) == UndoAll(ops[1..]) + [Undo(ops[0])];
      RunAppend(UndoAll(ops[1..]), [Undo(ops[0])], RunAll(ops, s).value);
      RunOne(Undo(ops[0]), next);
    }
  }

  lemma RunOne(x: Op, s: Schema)
    ensures RunAll([x], s) == Apply(x, s)
  {
    assert [x][1..] == [];
  }

  lemma KeyAndColumnDropsCommute(key: string, a: string, column: string, b: string, s: Schema)
    requires a != b
    ensures match (Apply(DropKey(key, a), s), Apply(DropColumn(b, column), s))
            case (Some(p), Some(q)) =>
              Apply(DropColumn(b, column), p).Some? && Apply(DropColumn(b, column), p) == Apply(DropKey(key, a), q)
            case (Some(p), None) => Apply(DropColumn(b, column), p).None?
            case (None, Some(q)) => Apply(DropKey(key, a), q).None?
            case _ => true
  {
    if a in s && b in s && key in s[a].keys && column in s[b].columns {
      var p, q := s[a].(keys := s[a].keys - {key}), WithoutColumn(s[b], column);
      assert s[a := p][b := q] == s[b := q][a := p];
    }
  }

  /** A key of one table may be dropped before or after columns of another. */
  lemma {:induction false} KeyDropMovesPastColumns(key: string, a: string, drops: seq<Op>, b: string, s: Schema)
    requires a != b && forall i | 0 <= i < |drops| :: drops[i].DropColumn? && drops[i].on == b
    ensures RunAll([DropKey(key, a)] + drops, s) == RunAll(drops + [DropKey(key, a)], s)
    decreases |drops|
  {
    var k := DropKey(key, a);
    RunAppend([k], drops, s);
    RunAppend(drops, [k], s);
    RunOne(k, s);
    if drops != [] {
      KeyAndColumnDropsCommute(key, a, drops[0].column, b, s);
      if Apply(drops[0], s).Some? {
        var next := Apply(drops[0], s).value;
        KeyDropMovesPastColumns(key, a, drops[1..], b, next);
        RunAppend([k], drops[1..], next);
        RunAppend(drops[1..], [k], next);
        RunOne(k, next);
      }
    } else {
      assert drops + [k] == [k] + drops;
    }
  }

  /** No name stands for two things: indexes and tables share a namespace. */
  predicate NamesApart(s: Schema) {
    && (forall n, i | n in s && i in s[n].indexes :: i !in s)
    && (forall m, n, i | m in s && n in s && i in s[m].indexes && i in s[n].indexes :: m == n)
  }

  lemma FewerNamesStayApart(s: Schema, n: Schema)
    requires NamesApart(s) && n.Keys <= s.Keys && forall t | t in n :: n[t].indexes.Keys <= s[t].indexes.Keys
    ensures NamesApart(n)
  {
    forall m, t, i | m in n && t in n && i in n[m].indexes && i in n[t].indexes ensures m == t && i !in n {
      assert i in s[m].indexes && i in s[t].indexes;
    }
  }

  lemma NewTableStaysApart(s: Schema, name: string, t: Table)
    requires NamesApart(s) && !NameTaken(s, name) && t.indexes == map[]
    ensures NamesApart(s[name := t])
  {
    var n := s[name := t];
    forall m, i | m in n && i in n[m].indexes ensures m in s && i !in n {
      assert i in s[m].indexes;
    }
  }

  lemma NewIndexStaysApart(s: Schema, name: string, on: string, columns: set<string>)
    requires NamesApart(s) && !NameTaken(s, name) && on in s
    ensures NamesApart(s[on := s[on].(indexes := s[on].indexes[name := columns])])
  {
    var n := s[on := s[on].(indexes := s[on].indexes[name := columns])];
    forall m, i | m in n && i in n[m].indexes ensures (i == name && m == on) || (i != name && i in s[m].indexes) {}
  }

  lemma ApplyKeepsNamesApart(op: Op, s: Schema)
    requires NamesApart(s) && Apply(op, s).Some?
    ensures NamesApart(Apply(op, s).value)
  {
    match op
    case CreateTable(name, t) => NewTableStaysApart(s, name, t);
    case CreateIndex(name, on, columns) => NewIndexStaysApart(s, name, on, columns);
    case _ => FewerNamesStayApart(s, Apply(op, s).value);
  }

  /** Every operation that does not fail, drops included, leaves keys and indexes with the
      columns and parents they name, and names apart. */
  lemma ApplyKeepsWellFormed(op: Op, s: Schema)
    requires WellFormed(s) && NamesApart(s) && Apply(op, s).Some?
    ensures WellFormed(Apply(op, s).value) && NamesApart(Apply(op, s).value)
  {
    var n := Apply(op, s).value;
    forall t | t in n ensures WellFormedTable(n, n[t]) { ApplyKeepsTable(op, s, t); }
    ApplyKeepsNamesApart(op, s);
  }

  lemma ApplyKeepsTable(op: Op, s: Schema, t: string)
    requires WellFormed(s) && Apply(op, s).Some? && t in Apply(op, s).value
    ensures WellFormedTable(Apply(op, s).value, Apply(op, s).value[t])
  {
    var n := Apply(op, s).value;
    if t in s {
      assert WellFormedTable(s, s[t]);
      if op.DropTable? {
        forall k | k in s[t].keys ensures s[t].keys[k].parent != op.name || t == op.name {
          assert !ReferredTo(s, op.name);
        }
      }
    }
  }

  /** A table is dropped exactly if it exists and no key of another table would lose its
      parent. */
  lemma DropTableSucceedsIff(name: string, s: Schema)
    requires WellFormed(s)
    ensures Apply(DropTable(name), s).Some? <==> name in s && WellFormed(s - {name})
  {
    var less := s - {name};
    if name in s && ReferredTo(s, name) {
      var n, k :| n in s && n != name && k in s[n].keys && s[n].keys[k].parent == name;
      assert n in less && !WellFormedTable(less, less[n]);
    }
    if name in s && !ReferredTo(s, name) {
      forall t | t in less ensures WellFormedTable(less, less[t]) { ApplyKeepsTable(DropTable(name), s, t); }
    }
  }

  /** The database a migration runs against. */
  class Database {
    var schema: Schema

    constructor (schema: Schema)
      ensures this.schema == schema
    {
      this.schema := schema;
    }

    method Perform(op: Op) returns (ok: bool)
      modifies this
      ensures ok <==> Apply(op, old(schema)).Some?
      ensures schema == if ok then Apply(op, old(schema)).value else old(schema)
    {
      var next := Apply(op, schema);
      ok := next.Some?;
      if ok { schema := next.value; }
    }

    /** All of `ops` in one transaction: a failure takes back the whole migration. */
    method Migrate(ops: seq<Op>) returns (ok: bool)
      modifies this
      ensures ok <==> RunAll(ops, old(schema)).Some?
      ensures schema == if ok then RunAll(ops, old(schema)).value else old(schema)
    {
      var before := schema;
      var i := 0;
      while i < |ops|
        invariant 0 <= i <= |ops|
        invariant RunAll(ops, before) == RunAll(ops[i..], schema)
      {
        ok := Perform(ops[i]);
        assert ops[i..][1..] == ops[i + 1..];
        if !ok {
          schema := before;
          return;
        }
        i := i + 1;
      }
      return true;
    }
  }
}
