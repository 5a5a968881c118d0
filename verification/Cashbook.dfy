/** The cashbook table, its writer and its rebuild from the general ledger:
    `rebuild_cashbook_from_gl.py`, `record_cashbook_from_gl` and the database
    function `fn_insert_cashbook_entry`. */
module Cashbook {
  import opened LedgerGrouping

  /** A cashbook row. Ids are handed out in append order, so the position of a row
      stands for its id. */
  datatype Row = Row(date: int, branch: Branch, moneyIn: int, moneyOut: int, running: int)

  datatype Posting = NoRow | Post(moneyIn: int, moneyOut: int)

  predicate Fits(x: int) { -CASHBOOK_MAX <= x <= CASHBOOK_MAX }

  // ---------------------------------------------------------------------------
  // The writer.

  function Net(lines: seq<Line>): int {
    if lines == [] then 0 else Net(lines[..|lines| - 1]) + Amount(lines[|lines| - 1])
  }

  /** Money leaving the till: the negative cash and cheque amounts. */
  function TillOut(lines: seq<Line>): int {
    if lines == [] then 0
    else
      var l := lines[|lines| - 1];
      TillOut(lines[..|lines| - 1]) + (if l.account != Bank && Amount(l) < 0 then -Amount(l) else 0)
  }

  predicate IsDeposit(kind: Kind) { kind == Named("BankDeposit") }

  /** The row `record_cashbook_from_gl` asks for. */
  function PostingOf(kind: Kind, lines: seq<Line>): Posting {
    var net, till := Net(lines), TillOut(lines);
    var p := if IsDeposit(kind) then Post(0, till)
             else Post(if net > 0 then net else 0, if net < 0 then -net else 0);
    if p == Post(0, 0) then NoRow else p
  }

  /** The branch's row with the latest (date, id), or -1. */
  function Latest(rows: seq<Row>, b: Branch): (k: int)
    ensures -1 <= k < |rows|
    ensures k == -1 <==> forall j | 0 <= j < |rows| :: rows[j].branch != b
    ensures k >= 0 ==> rows[k].branch == b
    ensures k >= 0 ==> forall j | 0 <= j < |rows| && rows[j].branch == b ::
              rows[j].date < rows[k].date || (rows[j].date == rows[k].date && j <= k)
  {
    if rows == [] then -1
    else
      var k, last := Latest(rows[..|rows| - 1], b), |rows| - 1;
      if rows[last].branch == b && (k == -1 || rows[k].date <= rows[last].date) then last else k
  }

  function LastBalance(rows: seq<Row>, b: Branch): int {
    var k := Latest(rows, b);
    if k == -1 then 0 else rows[k].running
  }

  /** `fn_insert_cashbook_entry` inside the writer's savepoint: a value that does not
      fit NUMERIC(15,2) makes it fail, and the failure is swallowed. */
  function InsertEntry(rows: seq<Row>, date: int, b: Branch, p: Posting): seq<Row> {
    if p == NoRow then rows
    else
      var running := LastBalance(rows, b) + p.moneyIn - p.moneyOut;
      if Fits(p.moneyIn) && Fits(p.moneyOut) && Fits(running)
      then rows + [Row(date, b, p.moneyIn, p.moneyOut, running)]
      else rows
  }

  function Record(rows: seq<Row>, lines: seq<Line>): seq<Row> {
    if lines == [] then rows
    else InsertEntry(rows, lines[0].date, lines[0].branch, PostingOf(lines[0].kind, lines))
  }

  function Replay(groups: seq<seq<Line>>): seq<Row> {
    if groups == [] then []
    else Record(Replay(groups[..|groups| - 1]), groups[|groups| - 1])
  }

  // ---------------------------------------------------------------------------
  // The final window update.

  /** SUM(money_in - money_out) OVER (PARTITION BY branch ORDER BY date, id), for row
      `k`, over the first `n` rows. */
  function WindowSum(rows: seq<Row>, k: nat, n: nat): int
    requires k < |rows| && n <= |rows|
  {
    if n == 0 then 0
    else
      var r := rows[n - 1];
      WindowSum(rows, k, n - 1)
      + (if r.branch == rows[k].branch && (r.date < rows[k].date || (r.date == rows[k].date && n - 1 <= k))
         then r.moneyIn - r.moneyOut else 0)
  }

  function Windowed(rows: seq<Row>): seq<Row> {
    seq(|rows|, k requires 0 <= k < |rows| => rows[k].(running := WindowSum(rows, k, |rows|)))
  }

  /** `j` comes before `k` in the window of `k`'s branch. */
  predicate Precedes(rows: seq<Row>, j: nat, k: nat)
    requires j < |rows| && k < |rows|
  {
    rows[j].branch == rows[k].branch && (rows[j].date < rows[k].date || (rows[j].date == rows[k].date && j < k))
  }

  lemma {:induction false} SumOfFirst(rows: seq<Row>, k: nat, n: nat)
    requires k < |rows| && n <= |rows| && forall j | 0 <= j < |rows| :: !Precedes(rows, j, k)
    ensures WindowSum(rows, k, n) == if k < n then rows[k].moneyIn - rows[k].moneyOut else 0
  {
    if n > 0 {
      SumOfFirst(rows, k, n - 1);
      assert !Precedes(rows, n - 1, k);
    }
  }

  lemma {:induction false} SumOfNext(rows: seq<Row>, p: nat, k: nat, n: nat)
    requires p < |rows| && k < |rows| && n <= |rows| && Precedes(rows, p, k)
    requires forall j | 0 <= j < |rows| :: !(Precedes(rows, p, j) && Precedes(rows, j, k))
    ensures WindowSum(rows, k, n)
         == WindowSum(rows, p, n) + if k < n then rows[k].moneyIn - rows[k].moneyOut else 0
  {
    if n > 0 {
      SumOfNext(rows, p, k, n - 1);
      assert !(Precedes(rows, p, n - 1) && Precedes(rows, n - 1, k));
    }
  }

  /** What the window UPDATE does to any table: in the order of date and id within a
      branch the first row's balance is what it moves, every other row's is that of the
      row before it plus what it moves itself, and no other column changes. */
  lemma WindowIsRunningBalance(rows: seq<Row>, k: nat)
    requires k < |rows|
    ensures |Windowed(rows)| == |rows|
    ensures Windowed(rows)[k] == rows[k].(running := Windowed(rows)[k].running)
    ensures (forall j | 0 <= j < |rows| :: !Precedes(rows, j, k))
            ==> Windowed(rows)[k].running == rows[k].moneyIn - rows[k].moneyOut
    ensures forall p: nat | p < |rows| && Precedes(rows, p, k)
                            && forall j | 0 <= j < |rows| :: !(Precedes(rows, p, j) && Precedes(rows, j, k)) ::
              Windowed(rows)[k].running == Windowed(rows)[p].running + rows[k].moneyIn - rows[k].moneyOut
  {
    if forall j | 0 <= j < |rows| :: !Precedes(rows, j, k) { SumOfFirst(rows, k, |rows|); }
    forall p: nat | p < |rows| && Precedes(rows, p, k)
                    && forall j | 0 <= j < |rows| :: !(Precedes(rows, p, j) && Precedes(rows, j, k))
      ensures Windowed(rows)[k].running == Windowed(rows)[p].running + rows[k].moneyIn - rows[k].moneyOut
    {
      SumOfNext(rows, p, k, |rows|);
    }
  }

  predicate RowsInOrder(rows: seq<Row>) {
    rows == []
    || (var front, last := rows[..|rows| - 1], rows[|rows| - 1];
        RowsInOrder(front) && forall r: Row | r in front :: r.date <= last.date)
  }

  /** What a branch's rows add up to. */
  function BranchSum(rows: seq<Row>, b: Branch): int {
    if rows == [] then 0
    else
      var r := rows[|rows| - 1];
      BranchSum(rows[..|rows| - 1], b) + (if r.branch == b then r.moneyIn - r.moneyOut else 0)
  }

  /** Every row carries the sum of its branch's rows up to and including itself. */
  predicate Running(rows: seq<Row>) {
    rows == []
    || (var last := rows[|rows| - 1];
        Running(rows[..|rows| - 1]) && last.running == BranchSum(rows, last.branch) && Fits(last.running))
  }

  lemma {:induction false} LastBalanceIsBranchSum(rows: seq<Row>, b: Branch)
    requires RowsInOrder(rows) && Running(rows)
    ensures LastBalance(rows, b) == BranchSum(rows, b)
    decreases |rows|
  {
    if rows != [] { LastBalanceIsBranchSum(rows[..|rows| - 1], b); }
  }

  lemma InsertKeepsRunning(rows: seq<Row>, date: int, b: Branch, p: Posting)
    requires RowsInOrder(rows) && Running(rows)
    requires forall r | r in rows :: r.date <= date
    ensures var after := InsertEntry(rows, date, b, p);
            RowsInOrder(after) && Running(after) && forall r | r in after :: r.date <= date
  {
    LastBalanceIsBranchSum(rows, b);
    var after := InsertEntry(rows, date, b, p);
    if after != rows { assert after[..|after| - 1] == rows; }
  }

  /** The incremental balances of the writer are a running sum as long as rows come
      in date order. */
  lemma {:induction false} ReplayRuns(groups: seq<seq<Line>>)
    requires HeadsInOrder(groups)
    ensures var rows := Replay(groups);
            && RowsInOrder(rows) && Running(rows)
            && forall r | r in rows :: exists g: seq<Line> :: g in groups && g != [] && r.date == g[0].date
    decreases |groups|
  {
    if groups != [] {
      var front, g := groups[..|groups| - 1], groups[|groups| - 1];
      ReplayRuns(front);
      var rows := Replay(front);
      assert forall r | r in rows :: r.date <= g[0].date;
      InsertKeepsRunning(rows, g[0].date, g[0].branch, PostingOf(g[0].kind, g));
      assert forall h | h in front :: h in groups;
      assert g in groups;
    }
  }

  lemma {:induction false} RowsInOrderAt(rows: seq<Row>, i: nat, j: nat)
    requires RowsInOrder(rows) && i < j < |rows|
    ensures rows[i].date <= rows[j].date
    decreases |rows|
  {
    if j < |rows| - 1 { RowsInOrderAt(rows[..|rows| - 1], i, j); } else { assert rows[i] == rows[..|rows| - 1][i]; }
  }

  lemma {:induction false} WindowIsPrefixSum(rows: seq<Row>, k: nat, n: nat)
    requires RowsInOrder(rows) && k < |rows| && n <= |rows|
    ensures n <= k + 1 ==> WindowSum(rows, k, n) == BranchSum(rows[..n], rows[k].branch)
    ensures n > k ==> WindowSum(rows, k, n) == BranchSum(rows[..k + 1], rows[k].branch)
    decreases n
  {
    if n > 0 {
      WindowIsPrefixSum(rows, k, n - 1);
      if n - 1 < k { RowsInOrderAt(rows, n - 1, k); }
      if n - 1 > k { RowsInOrderAt(rows, k, n - 1); }
      if n <= k + 1 { assert rows[..n][..n - 1] == rows[..n - 1]; }
    }
  }

  lemma {:induction false} RunningAt(rows: seq<Row>, k: nat)
    requires Running(rows) && k < |rows|
    ensures rows[k].running == BranchSum(rows[..k + 1], rows[k].branch) && Fits(rows[k].running)
    decreases |rows|
  {
    if k < |rows| - 1 {
      RunningAt(rows[..|rows| - 1], k);
      assert rows[..|rows| - 1][..k + 1] == rows[..k + 1];
    } else {
      assert rows[..k + 1] == rows;
    }
  }

  /** After a date-ordered replay the final UPDATE changes no row and cannot overflow:
      the writer's own balances already are the window sums. */
  lemma WindowUpdateIsNoOp(groups: seq<seq<Line>>)
    requires HeadsInOrder(groups)
    ensures Windowed(Replay(groups)) == Replay(groups)
    ensures forall r | r in Windowed(Replay(groups)) :: Fits(r.running)
  {
    var rows := Replay(groups);
    ReplayRuns(groups);
    forall k | 0 <= k < |rows| ensures Windowed(rows)[k] == rows[k] && Fits(rows[k].running) {
      WindowIsPrefixSum(rows, k, |rows|);
      RunningAt(rows, k);
    }
  }

  // ---------------------------------------------------------------------------
  // Conservation.

  /** What the entry's row moves: money in less money out. */
  function Moved(lines: seq<Line>): int {
    if lines == [] then 0
    else
      match PostingOf(lines[0].kind, lines)
      case NoRow => 0
      case Post(moneyIn, moneyOut) => moneyIn - moneyOut
  }

  /** What the groups headed on `b` move, by the ledger alone. */
  function LedgerBalance(groups: seq<seq<Line>>, b: Branch): int {
    if groups == [] then 0
    else
      var g := groups[|groups| - 1];
      LedgerBalance(groups[..|groups| - 1], b) + (if g != [] && g[0].branch == b then Moved(g) else 0)
  }

  /** The last group is headed on another branch or asks for no row, or its amount and
      the balance it leads to, both read off the ledger, are in range. */
  predicate LastInRange(groups: seq<seq<Line>>, b: Branch)
    requires groups != []
  {
    var g := groups[|groups| - 1];
    g == [] || g[0].branch != b || Moved(g) == 0 || (Fits(Moved(g)) && Fits(LedgerBalance(groups, b)))
  }

  /** Every group headed on `b` is in range. */
  predicate InRange(groups: seq<seq<Line>>, b: Branch) {
    groups == [] || (InRange(groups[..|groups| - 1], b) && LastInRange(groups, b))
  }

  predicate Agree(groups: seq<seq<Line>>, b: Branch) {
    LastBalance(Replay(groups), b) == LedgerBalance(groups, b)
  }

  /** Cashbook and ledger agree on branch `b` after every group. */
  predicate AlwaysAgree(groups: seq<seq<Line>>, b: Branch) {
    groups == [] || (AlwaysAgree(groups[..|groups| - 1], b) && Agree(groups, b))
  }

  lemma {:induction false} TillOutIsNotNegative(lines: seq<Line>)
    ensures TillOut(lines) >= 0
    decreases |lines|
  {
    if lines != [] { TillOutIsNotNegative(lines[..|lines| - 1]); }
  }

  /** What one posting writes: at most one row, dated and headed like its first line, with
      either money in or money out and not both. It moves debits less credits, for a bank
      deposit what leaves the till. There is no row exactly if nothing moves, or the
      amount or the new balance exceeds NUMERIC(15,2). */
  lemma PostingWritesOneRow(rows: seq<Row>, lines: seq<Line>)
    requires lines != []
    ensures var after, head := Record(rows, lines), lines[0];
            var moves := if head.kind == Named("BankDeposit") then -TillOut(lines) else Net(lines);
            var balance := LastBalance(rows, head.branch) + moves;
            && (after == rows <==> moves == 0 || moves > 999_999_999_999_999 || -moves > 999_999_999_999_999
                                   || balance > 999_999_999_999_999 || -balance > 999_999_999_999_999)
            && (after != rows ==>
                  |after| == |rows| + 1 && after[..|rows|] == rows &&
                  var row := after[|rows|];
                  && row.date == head.date && row.branch == head.branch && row.running == balance
                  && row.moneyIn >= 0 && row.moneyOut >= 0 && (row.moneyIn == 0 || row.moneyOut == 0)
                  && row.moneyIn - row.moneyOut == moves)
  {
    TillOutIsNotNegative(lines);
  }

  lemma InsertMovesOneBalance(rows: seq<Row>, date: int, b: Branch, p: Posting, c: Branch)
    requires forall r | r in rows :: r.date <= date
    ensures var after := InsertEntry(rows, date, b, p);
            LastBalance(after, c) == if after != rows && c == b then LastBalance(rows, b) + p.moneyIn - p.moneyOut
                                     else LastBalance(rows, c)
  {
    var after := InsertEntry(rows, date, b, p);
    if after != rows { assert after[..|after| - 1] == rows; }
  }

  lemma RecordMovesOneBalance(rows: seq<Row>, g: seq<Line>, c: Branch)
    requires g != [] && forall r | r in rows :: r.date <= g[0].date
    ensures var fits := Fits(Moved(g)) && Fits(LastBalance(rows, g[0].branch) + Moved(g));
            LastBalance(Record(rows, g), c) == LastBalance(rows, c) + if fits && c == g[0].branch then Moved(g) else 0
  {
    TillOutIsNotNegative(g);
    InsertMovesOneBalance(rows, g[0].date, g[0].branch, PostingOf(g[0].kind, g), c);
  }

  lemma OneMoreAgrees(groups: seq<seq<Line>>, b: Branch)
    requires groups != [] && HeadsInOrder(groups) && Agree(groups[..|groups| - 1], b)
    ensures Agree(groups, b) <==> LastInRange(groups, b)
  {
    var front, g := groups[..|groups| - 1], groups[|groups| - 1];
    ReplayRuns(front);
    assert forall r | r in Replay(front) :: r.date <= g[0].date;
    RecordMovesOneBalance(Replay(front), g, b);
  }

  /** On each branch the cashbook follows the ledger after every group exactly when
      every group headed there is in range; the first one that is not loses its row
      without an error. Groups of other branches do not matter. */
  lemma {:induction false} BalancesFollowLedger(groups: seq<seq<Line>>, b: Branch)
    requires HeadsInOrder(groups)
    ensures AlwaysAgree(groups, b) <==> InRange(groups, b)
    ensures InRange(groups, b) ==> Agree(groups, b)
    decreases |groups|
  {
    if groups != [] {
      BalancesFollowLedger(groups[..|groups| - 1], b);
      if InRange(groups[..|groups| - 1], b) { OneMoreAgrees(groups, b); }
    }
  }
}
