/** `main` of `rebuild_cashbook_from_gl.py`, and what the rebuilt balances are. */
module CashbookRebuild {
  import opened LedgerGrouping
  import opened Cashbook

  /** The database session: the cashbook as committed, and as this session sees it. */
  class Session {
    var committed: seq<Row>
    var working: seq<Row>

    constructor (stored: seq<Row>)
      ensures committed == working == stored
    {
      committed, working := stored, stored;
    }

    method DeleteAll()
      modifies this`working
      ensures working == []
    {
      working := [];
    }

    /** `record_cashbook_from_gl`. A NULL reference type raises before the savepoint is
        set; a value out of range only loses the row. */
    method RecordFromGl(kind: Kind, date: int, branch: Branch, lines: seq<Line>) returns (raised: bool)
      modifies this`working
      ensures raised <==> kind == NoKind
      ensures working == if raised then old(working)
              else InsertEntry(old(working), date, branch, PostingOf(kind, lines))
    {
      var net, till := 0, 0;
      for i := 0 to |lines|
        invariant net == Net(lines[..i]) && till == TillOut(lines[..i])
      {
        assert lines[..i + 1][..i] == lines[..i];
        var amount := lines[i].debit - lines[i].credit;
        net := net + amount;
        if lines[i].account != Bank && amount < 0 { till := till - amount; }
      }
      assert lines[..|lines|] == lines;
      if kind == NoKind { return true; }
      raised := false;
      var moneyIn, moneyOut := 0, till;
      if !IsDeposit(kind) {
        if net == 0 { return; }
        moneyIn, moneyOut := if net > 0 then net else 0, if net < 0 then -net else 0;
      }
      if moneyIn == 0 && moneyOut == 0 { return; }
      var running := LastBalance(working, branch) + moneyIn - moneyOut;
      if Fits(moneyIn) && Fits(moneyOut) && Fits(running) {
        working := working + [Row(date, branch, moneyIn, moneyOut, running)];
      }
    }

    /** The window UPDATE; it fails if a sum does not fit its column. */
    method UpdateBalances() returns (ok: bool)
      modifies this`working
      ensures ok <==> forall r | r in Windowed(old(working)) :: Fits(r.running)
      ensures working == if ok then Windowed(old(working)) else old(working)
    {
      var updated := Windowed(working);
      ok := forall r | r in updated :: Fits(r.running);
      if ok { working := updated; }
    }

    method Commit()
      modifies this`committed
      ensures committed == working
    {
      committed := working;
    }
  }

  predicate AllTyped(groups: seq<seq<Line>>) {
    forall g: seq<Line> | g in groups :: g == [] || g[0].kind != NoKind
  }

  /** The replay loop; a raised error leaves the rest undone. */
  method ReplayLedger(db: Session, ledger: seq<Line>, order: seq<int>, byEntry: map<int, seq<Line>>)
      returns (raised: bool)
    requires forall i | 0 <= i < |order| ::
               order[i] in byEntry && byEntry[order[i]] == LinesOf(ledger, order[i]) && byEntry[order[i]] != []
    requires db.working == []
    modifies db`working
    ensures raised <==> !AllTyped(Replayed(ledger, order))
    ensures !raised ==> db.working == Replay(Replayed(ledger, order))
  {
    for i := 0 to |order|
      invariant db.working == Replay(Replayed(ledger, order[..i]))
      invariant AllTyped(Replayed(ledger, order[..i]))
    {
      var lines := byEntry[order[i]];
      ghost var before := Replayed(ledger, order[..i]);
      assert order[..i + 1][..i] == order[..i];
      if !OutOfRange(lines) {
        var head := lines[0];
        raised := db.RecordFromGl(head.kind, head.date, head.branch, lines);
        assert (before + [lines])[..|before|] == before;
        if raised {
          assert lines in Replayed(ledger, order[..i + 1]);
          ReplayedGrows(ledger, order, i + 1);
          return;
        }
      }
    }
    assert order[..|order|] == order;
    return false;
  }

  /** The script. Without `apply`, or when a replayed entry has no reference type (the
      writer then raises and nothing is committed), the stored cashbook stays; else it
      becomes the replay of the ledger, whatever it held before. */
  method Rebuild(db: Session, ledger: seq<Line>, apply: bool) returns (raised: bool)
    requires DateSorted(ledger)
    modifies db
    ensures var groups := Replayed(ledger, FirstSeen(ledger));
            && (raised <==> apply && !AllTyped(groups))
            && db.committed == if apply && !raised then Replay(groups) else old(db.committed)
  {
    var order, byEntry := GroupByEntry(ledger);
    if !apply { return false; }
    forall i | 0 <= i < |order| ensures LinesOf(ledger, order[i]) != [] { NotSeenHasNoLines(ledger, order[i]); }
    db.DeleteAll();
    raised := ReplayLedger(db, ledger, order, byEntry);
    if !raised {
      assert order[..|order|] == order;
      ReplayedHeadsInOrder(ledger, |order|);
      WindowUpdateIsNoOp(Replayed(ledger, order));
      var fits := db.UpdateBalances();
      db.Commit();
    }
  }

  lemma {:induction false} ReplayedGrows(rows: seq<Line>, order: seq<int>, n: nat)
    requires n <= |order|
    ensures forall g | g in Replayed(rows, order[..n]) :: g in Replayed(rows, order)
    decreases |order|
  {
    if n < |order| {
      assert order[..|order| - 1][..n] == order[..n];
      ReplayedGrows(rows, order[..|order| - 1], n);
    } else {
      assert order[..n] == order;
    }
  }

  // ---------------------------------------------------------------------------
  // Balances against the ledger's debits and credits.

  /** Bank amounts and money received into the till. */
  function BankAndReceipts(lines: seq<Line>): int {
    if lines == [] then 0
    else
      var l := lines[|lines| - 1];
      BankAndReceipts(lines[..|lines| - 1]) + (if l.account == Bank || Amount(l) > 0 then Amount(l) else 0)
  }

  lemma {:induction false} NetSplits(lines: seq<Line>)
    ensures Net(lines) == BankAndReceipts(lines) - TillOut(lines)
    decreases |lines|
  {
    if lines != [] { NetSplits(lines[..|lines| - 1]); }
  }

  /** A row moves the net of its entry, except on a bank deposit, whose row records
      only the money leaving the till: there exactly when bank and till receipts
      cancel. */
  lemma MovedIsNet(lines: seq<Line>)
    requires lines != []
    ensures Moved(lines) == Net(lines) <==> !IsDeposit(lines[0].kind) || BankAndReceipts(lines) == 0
  {
    NetSplits(lines);
  }

  /** An ordinary deposit: 100.00 from the till to the bank nets to zero in the ledger
      but lowers the cashbook balance. */
  lemma DepositLowersBalance()
    ensures var till := Line(1, Named("BankDeposit"), Coded("BR01"), 5, Cash, 0, 10_000);
            var bank := Line(1, Named("BankDeposit"), Coded("BR01"), 5, Bank, 10_000, 0);
            Net([till, bank]) == 0 && Moved([till, bank]) == -10_000
  {
    var till := Line(1, Named("BankDeposit"), Coded("BR01"), 5, Cash, 0, 10_000);
    var bank := Line(1, Named("BankDeposit"), Coded("BR01"), 5, Bank, 10_000, 0);
    assert [till, bank][..1] == [till] && [till][..0] == [];
    assert TillOut([till]) == 10_000 && Net([till]) == -10_000;
  }

  lemma OneLine(l: Line)
    ensures Net([l]) == Amount(l) && TillOut([l]) == if l.account != Bank && Amount(l) < 0 then -Amount(l) else 0
  {
    var none: seq<Line> := [];
    assert [l][..0] == none;
  }

  lemma InvoiceLine(rows: seq<Row>, l: Line)
    requires l.kind == Named("Invoice") && l.debit > 0 && l.credit == 0
    ensures Moved([l]) == l.debit
    ensures Record(rows, [l]) == InsertEntry(rows, l.date, l.branch, Post(l.debit, 0))
  {
    OneLine(l);
    assert "Invoice"[0] != "BankDeposit"[0];
  }

  lemma OneMoreGroup(groups: seq<seq<Line>>, g: seq<Line>, b: Branch)
    requires g != []
    ensures Replay(groups + [g]) == Record(Replay(groups), g)
    ensures LedgerBalance(groups + [g], b) == LedgerBalance(groups, b) + if g[0].branch == b then Moved(g) else 0
  {
    assert (groups + [g])[..|groups|] == groups;
  }

  /** A balance that would leave NUMERIC(15,2) loses its row, and the branch's balance
      no longer follows the ledger: two invoices, each within the skip limit. */
  lemma OverflowLosesRow(first: Line, second: Line)
    requires first.kind == second.kind == Named("Invoice") && first.branch == second.branch
    requires first.debit == CASHBOOK_MAX && second.debit == 1 && first.credit == second.credit == 0
    ensures !OutOfRange([first]) && !OutOfRange([second])
    ensures Replay([[first]] + [[second]]) == [Row(first.date, first.branch, CASHBOOK_MAX, 0, CASHBOOK_MAX)]
    ensures LedgerBalance([[first]] + [[second]], first.branch) == CASHBOOK_MAX + 1
  {
    var none: seq<seq<Line>> := [];
    InvoiceLine([], first);
    OneMoreGroup(none, [first], first.branch);
    assert none + [[first]] == [[first]];
    var row := Row(first.date, first.branch, CASHBOOK_MAX, 0, CASHBOOK_MAX);
    assert Latest([], first.branch) == -1;
    assert Replay([[first]]) == [row];
    assert Latest([row], first.branch) == 0;
    InvoiceLine([row], second);
    OneMoreGroup([[first]], [second], first.branch);
  }

  /** Debits less credits of the ledger lines whose entry is in `chosen`. */
  function EntriesSum(rows: seq<Line>, chosen: set<int>): int {
    if rows == [] then 0
    else
      var l := rows[|rows| - 1];
      EntriesSum(rows[..|rows| - 1], chosen) + (if l.entry in chosen then l.debit - l.credit else 0)
  }

  /** The same, group by group. */
  function GroupsSum(rows: seq<Line>, order: seq<int>, chosen: set<int>): int {
    if order == [] then 0
    else
      var e := order[|order| - 1];
      GroupsSum(rows, order[..|order| - 1], chosen) + (if e in chosen then Net(LinesOf(rows, e)) else 0)
  }

  lemma {:induction false} GroupsSumOneMore(rows: seq<Line>, l: Line, order: seq<int>, chosen: set<int>)
    requires forall i, j | 0 <= i < j < |order| :: order[i] != order[j]
    ensures GroupsSum(rows + [l], order, chosen)
         == GroupsSum(rows, order, chosen) + (if l.entry in order && l.entry in chosen then Amount(l) else 0)
    decreases |order|
  {
    if order != [] {
      var front, e := order[..|order| - 1], order[|order| - 1];
      GroupsSumOneMore(rows, l, front, chosen);
      assert order == front + [e];
      assert (rows + [l])[..|rows|] == rows;
      if e == l.entry { assert LinesOf(rows + [l], e)[..|LinesOf(rows, e)|] == LinesOf(rows, e); }
    }
  }

  /** Regrouping does not change sums. */
  lemma {:induction false} GroupsSumIsEntriesSum(rows: seq<Line>, chosen: set<int>)
    ensures GroupsSum(rows, FirstSeen(rows), chosen) == EntriesSum(rows, chosen)
    decreases |rows|
  {
    if rows != [] {
      var before, l := rows[..|rows| - 1], rows[|rows| - 1];
      GroupsSumIsEntriesSum(before, chosen);
      assert rows == before + [l];
      var order := FirstSeen(before);
      GroupsSumOneMore(before, l, order, chosen);
      if l.entry !in order {
        assert (order + [l.entry])[..|order|] == order;
        NotSeenHasNoLines(before, l.entry);
        assert LinesOf(rows, l.entry) == [l];
        OneLine(l);
      }
    }
  }

  predicate Chosen(rows: seq<Line>, e: int, b: Branch) {
    var lines := LinesOf(rows, e);
    lines != [] && !OutOfRange(lines) && lines[0].branch == b
  }

  /** The replayed entries headed on branch `b`. */
  function EntriesOn(rows: seq<Line>, order: seq<int>, b: Branch): set<int> {
    set e | e in order && Chosen(rows, e, b)
  }

  /** Bank amounts and till receipts of the bank deposits headed on `b`: what they net
      in the ledger beyond what their rows move. */
  function DepositDrift(groups: seq<seq<Line>>, b: Branch): int {
    if groups == [] then 0
    else
      var g := groups[|groups| - 1];
      DepositDrift(groups[..|groups| - 1], b)
      + (if g != [] && g[0].branch == b && IsDeposit(g[0].kind) then BankAndReceipts(g) else 0)
  }

  lemma OneMoreDrift(groups: seq<seq<Line>>, g: seq<Line>, b: Branch)
    requires g != []
    ensures DepositDrift(groups + [g], b) == DepositDrift(groups, b) + if g[0].branch == b then Net(g) - Moved(g) else 0
  {
    assert (groups + [g])[..|groups|] == groups;
    NetSplits(g);
  }

  lemma {:induction false} LedgerBalanceIsGroupsSum(rows: seq<Line>, order: seq<int>, chosen: set<int>, b: Branch)
    requires forall e | e in order :: LinesOf(rows, e) != [] && (e in chosen <==> Chosen(rows, e, b))
    ensures var groups := Replayed(rows, order);
            LedgerBalance(groups, b) == GroupsSum(rows, order, chosen) - DepositDrift(groups, b)
    decreases |order|
  {
    if order != [] {
      var front, e := order[..|order| - 1], order[|order| - 1];
      var before, lines := Replayed(rows, front), LinesOf(rows, e);
      assert e in order;
      if !OutOfRange(lines) {
        OneMoreGroup(before, lines, b);
        OneMoreDrift(before, lines, b);
      }
      LedgerBalanceIsGroupsSum(rows, front, chosen, b);
    }
  }

  /** Conservation: when every group headed on the branch is in range, the branch's last
      running balance is debits less credits over all cash-account lines of the replayed
      entries headed on it, less what its bank deposits put in the bank or take in. So
      it is debits less credits exactly if those deposits cancel. */
  lemma RebuiltBalanceIsLedgerSum(ledger: seq<Line>, b: Branch)
    requires DateSorted(ledger) && InRange(Replayed(ledger, FirstSeen(ledger)), b)
    ensures var groups := Replayed(ledger, FirstSeen(ledger));
            var sum := EntriesSum(ledger, EntriesOn(ledger, FirstSeen(ledger), b));
            && LastBalance(Replay(groups), b) == sum - DepositDrift(groups, b)
            && (LastBalance(Replay(groups), b) == sum <==> DepositDrift(groups, b) == 0)
  {
    var order := FirstSeen(ledger);
    assert order[..|order|] == order;
    ReplayedHeadsInOrder(ledger, |order|);
    BalancesFollowLedger(Replayed(ledger, order), b);
    forall e | e in order ensures LinesOf(ledger, e) != [] { NotSeenHasNoLines(ledger, e); }
    LedgerBalanceIsGroupsSum(ledger, order, EntriesOn(ledger, order, b), b);
    GroupsSumIsEntriesSum(ledger, EntriesOn(ledger, order, b));
  }
}
