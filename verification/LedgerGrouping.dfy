/** Cash-account ledger lines and their grouping by journal entry, as
    `backend/scripts/rebuild_cashbook_from_gl.py` does it. Money is in cents. */
module LedgerGrouping {

  /** Accounts 1010, 1020 and 1040: the only ones the query selects. */
  datatype Account = Cash | Bank | Cheque

  datatype Branch = NoBranch | Coded(code: string)

  /** The reference type of a posting; the column may be NULL. */
  datatype Kind = NoKind | Named(name: string)

  datatype Line = Line(entry: int, kind: Kind, branch: Branch, date: int, account: Account, debit: int, credit: int)

  /** NUMERIC(15,2) holds 9999999999999.99. */
  const CASHBOOK_MAX := 999_999_999_999_999

  function Amount(l: Line): int { l.debit - l.credit }

  /** ORDER BY posting_date, ... */
  predicate DateSorted(rows: seq<Line>) {
    forall i, j | 0 <= i < j < |rows| :: rows[i].date <= rows[j].date
  }

  /** The lines of one journal entry, in ledger order. */
  function LinesOf(rows: seq<Line>, entry: int): seq<Line> {
    if rows == [] then []
    else
      var before, last := LinesOf(rows[..|rows| - 1], entry), rows[|rows| - 1];
      if last.entry == entry then before + [last] else before
  }

  /** Journal entries in order of first appearance: the keys of the dictionary. */
  function FirstSeen(rows: seq<Line>): (order: seq<int>)
    ensures forall e :: e in order <==> exists k :: 0 <= k < |rows| && rows[k].entry == e
    ensures forall i, j | 0 <= i < j < |order| :: order[i] != order[j]
  {
    if rows == [] then []
    else
      var before, last := FirstSeen(rows[..|rows| - 1]), rows[|rows| - 1];
      if last.entry in before then before else before + [last.entry]
  }

  /** `by_je[r.journal_entry_id].append(r)` over a defaultdict. */
  method GroupByEntry(rows: seq<Line>) returns (order: seq<int>, byEntry: map<int, seq<Line>>)
    ensures order == FirstSeen(rows)
    ensures forall e :: e in byEntry <==> e in order
    ensures forall e | e in byEntry :: byEntry[e] == LinesOf(rows, e)
  {
    order, byEntry := [], map[];
    for i := 0 to |rows|
      invariant order == FirstSeen(rows[..i])
      invariant forall e :: e in byEntry <==> e in order
      invariant forall e | e in byEntry :: byEntry[e] == LinesOf(rows[..i], e)
      invariant forall e | e !in byEntry :: LinesOf(rows[..i], e) == []
    {
      var r := rows[i];
      assert rows[..i + 1][..i] == rows[..i];
      if r.entry in byEntry {
        byEntry := byEntry[r.entry := byEntry[r.entry] + [r]];
      } else {
        order, byEntry := order + [r.entry], byEntry[r.entry := [r]];
      }
    }
    assert rows[..|rows|] == rows;
  }

  function Flatten(rows: seq<Line>, order: seq<int>): seq<Line> {
    if order == [] then []
    else Flatten(rows, order[..|order| - 1]) + LinesOf(rows, order[|order| - 1])
  }

  lemma {:induction false} FlattenOneMore(rows: seq<Line>, r: Line, order: seq<int>)
    requires forall i, j | 0 <= i < j < |order| :: order[i] != order[j]
    ensures multiset(Flatten(rows + [r], order))
         == multiset(Flatten(rows, order)) + (if r.entry in order then multiset{r} else multiset{})
    decreases |order|
  {
    if order != [] {
      var front, e := order[..|order| - 1], order[|order| - 1];
      FlattenOneMore(rows, r, front);
      assert order == front + [e];
      assert (rows + [r])[..|rows|] == rows;
    }
  }

  /** No line is lost, repeated or reordered within its entry by the grouping. */
  lemma {:induction false} GroupingIsLossless(rows: seq<Line>)
    ensures multiset(Flatten(rows, FirstSeen(rows))) == multiset(rows)
    decreases |rows|
  {
    if rows != [] {
      var before, r := rows[..|rows| - 1], rows[|rows| - 1];
      GroupingIsLossless(before);
      assert rows == before + [r];
      var order := FirstSeen(before);
      FlattenOneMore(before, r, order);
      if r.entry !in order {
        assert (order + [r.entry])[..|order|] == order;
        NotSeenHasNoLines(before, r.entry);
        assert LinesOf(rows, r.entry) == [r];
      }
    }
  }

  lemma {:induction false} NotSeenHasNoLines(rows: seq<Line>, e: int)
    ensures LinesOf(rows, e) == [] <==> e !in FirstSeen(rows)
    ensures forall l | l in LinesOf(rows, e) :: l.entry == e
    decreases |rows|
  {
    if rows != [] { NotSeenHasNoLines(rows[..|rows| - 1], e); }
  }

  /** The head of a group is its first ledger line. */
  lemma {:induction false} HeadIsFirstLine(rows: seq<Line>, e: int) returns (k: nat)
    requires e in FirstSeen(rows)
    ensures k < |rows| && rows[k].entry == e && LinesOf(rows, e) != [] && LinesOf(rows, e)[0] == rows[k]
    ensures forall j | 0 <= j < k :: rows[j].entry != e
    decreases |rows|
  {
    var before := rows[..|rows| - 1];
    NotSeenHasNoLines(before, e);
    if e in FirstSeen(before) {
      k := HeadIsFirstLine(before, e);
    } else {
      k := |rows| - 1;
      forall j | 0 <= j < k ensures rows[j].entry != e { assert before[j].entry == rows[j].entry; }
    }
  }

  /** Groups appear in the order of their first lines. */
  lemma {:induction false} FirstSeenFollowsLedger(rows: seq<Line>, i: nat, j: nat)
    returns (p: nat, q: nat)
    requires i < j < |FirstSeen(rows)|
    ensures LinesOf(rows, FirstSeen(rows)[i]) != [] && LinesOf(rows, FirstSeen(rows)[j]) != []
    ensures p < q < |rows|
    ensures LinesOf(rows, FirstSeen(rows)[i])[0] == rows[p] && LinesOf(rows, FirstSeen(rows)[j])[0] == rows[q]
    decreases |rows|
  {
    var before, r := rows[..|rows| - 1], rows[|rows| - 1];
    var order, all := FirstSeen(before), FirstSeen(rows);
    NotSeenHasNoLines(before, all[i]);
    NotSeenHasNoLines(before, all[j]);
    if j < |order| {
      p, q := FirstSeenFollowsLedger(before, i, j);
    } else {
      p := HeadIsFirstLine(before, all[i]);
      q := |rows| - 1;
    }
  }

  /** On a date-sorted ledger the head dates do not decrease. */
  lemma HeadDatesDoNotDecrease(rows: seq<Line>, i: nat, j: nat)
    requires DateSorted(rows) && i < j < |FirstSeen(rows)|
    ensures LinesOf(rows, FirstSeen(rows)[i]) != [] && LinesOf(rows, FirstSeen(rows)[j]) != []
    ensures LinesOf(rows, FirstSeen(rows)[i])[0].date <= LinesOf(rows, FirstSeen(rows)[j])[0].date
  {
    NotSeenHasNoLines(rows, FirstSeen(rows)[i]);
    NotSeenHasNoLines(rows, FirstSeen(rows)[j]);
    var p, q := FirstSeenFollowsLedger(rows, i, j);
  }

  /** The skip list's test: some line of the group is out of range. */
  predicate OutOfRange(lines: seq<Line>) {
    exists l :: l in lines && (l.debit > CASHBOOK_MAX || l.credit > CASHBOOK_MAX)
  }

  /** The groups of `order` that are replayed, in order. */
  function Replayed(rows: seq<Line>, order: seq<int>): seq<seq<Line>> {
    if order == [] then []
    else
      var before, lines := Replayed(rows, order[..|order| - 1]), LinesOf(rows, order[|order| - 1]);
      if OutOfRange(lines) then before else before + [lines]
  }

  /** The skip list. */
  function Skipped(rows: seq<Line>, order: seq<int>): seq<int> {
    if order == [] then []
    else
      var before, e := Skipped(rows, order[..|order| - 1]), order[|order| - 1];
      if OutOfRange(LinesOf(rows, e)) then before + [e] else before
  }

  function Concat(groups: seq<seq<Line>>): seq<Line> {
    if groups == [] then [] else Concat(groups[..|groups| - 1]) + groups[|groups| - 1]
  }

  lemma {:induction false} SkippedAndReplayedAreAll(rows: seq<Line>, order: seq<int>)
    ensures multiset(Concat(Replayed(rows, order))) + multiset(Flatten(rows, Skipped(rows, order)))
         == multiset(Flatten(rows, order))
    ensures forall l | l in Concat(Replayed(rows, order)) :: l.debit <= CASHBOOK_MAX && l.credit <= CASHBOOK_MAX
    decreases |order|
  {
    if order != [] {
      var front, e := order[..|order| - 1], order[|order| - 1];
      SkippedAndReplayedAreAll(rows, front);
      var lines := LinesOf(rows, e);
      if OutOfRange(lines) {
        assert (Skipped(rows, front) + [e])[..|Skipped(rows, front)|] == Skipped(rows, front);
      } else {
        var before: seq<seq<Line>> := Replayed(rows, front);
        assert (before + [lines])[..|before|] == before;
      }
    }
  }

  lemma {:induction false} SkippedOrReplayed(rows: seq<Line>, order: seq<int>, e: int)
    ensures e in Skipped(rows, order) <==>
            e in order
            && exists l :: l in LinesOf(rows, e)
                           && (l.debit > 999_999_999_999_999 || l.credit > 999_999_999_999_999)
    ensures e in order && e !in Skipped(rows, order) ==> LinesOf(rows, e) in Replayed(rows, order)
    decreases |order|
  {
    if order != [] {
      var front, last := order[..|order| - 1], order[|order| - 1];
      SkippedOrReplayed(rows, front, e);
      assert order == front + [last];
    }
  }

  /** Every ledger line is in exactly one group, replayed or skipped. An entry is skipped
      exactly if one of its lines exceeds NUMERIC(15,2), else it is replayed whole; so no
      replayed line exceeds the range and none that is in range is lost. */
  lemma ReplayPartitionsLedger(rows: seq<Line>)
    ensures var order := FirstSeen(rows);
            && multiset(Concat(Replayed(rows, order))) + multiset(Flatten(rows, Skipped(rows, order))) == multiset(rows)
            && (forall l | l in Concat(Replayed(rows, order)) :: l.debit <= CASHBOOK_MAX && l.credit <= CASHBOOK_MAX)
            && (forall e :: e in Skipped(rows, order) <==>
                  e in order
                  && exists l :: l in LinesOf(rows, e)
                                 && (l.debit > 999_999_999_999_999 || l.credit > 999_999_999_999_999))
            && (forall e | e in order && e !in Skipped(rows, order) :: LinesOf(rows, e) in Replayed(rows, order))
  {
    var order := FirstSeen(rows);
    GroupingIsLossless(rows);
    SkippedAndReplayedAreAll(rows, order);
    forall e
      ensures e in Skipped(rows, order) <==>
              e in order
              && exists l :: l in LinesOf(rows, e)
                             && (l.debit > 999_999_999_999_999 || l.credit > 999_999_999_999_999)
      ensures e in order && e !in Skipped(rows, order) ==> LinesOf(rows, e) in Replayed(rows, order)
    {
      SkippedOrReplayed(rows, order, e);
    }
  }

  lemma {:induction false} LineOfGroup(rows: seq<Line>, e: int, i: nat) returns (p: nat)
    requires i < |LinesOf(rows, e)|
    ensures p < |rows| && rows[p] == LinesOf(rows, e)[i]
    decreases |rows|
  {
    var before := rows[..|rows| - 1];
    if i < |LinesOf(before, e)| { p := LineOfGroup(before, e, i); } else { p := |rows| - 1; }
  }

  /** A group's lines follow each other as in the ledger. */
  lemma {:induction false} GroupKeepsLedgerOrder(rows: seq<Line>, e: int, i: nat, j: nat) returns (p: nat, q: nat)
    requires i < j < |LinesOf(rows, e)|
    ensures p < q < |rows| && rows[p] == LinesOf(rows, e)[i] && rows[q] == LinesOf(rows, e)[j]
    decreases |rows|
  {
    var before := rows[..|rows| - 1];
    if j < |LinesOf(before, e)| {
      p, q := GroupKeepsLedgerOrder(before, e, i, j);
    } else {
      p := LineOfGroup(before, e, i);
      q := |rows| - 1;
    }
  }

  predicate HeadsInOrder(groups: seq<seq<Line>>) {
    groups == []
    || (var front, last := groups[..|groups| - 1], groups[|groups| - 1];
        HeadsInOrder(front) && last != [] && forall g: seq<Line> | g in front :: g != [] && g[0].date <= last[0].date)
  }

  lemma {:induction false} ReplayedGroupIsOf(rows: seq<Line>, order: seq<int>, n: nat, g: seq<Line>) returns (i: nat)
    requires n <= |order| && g in Replayed(rows, order[..n])
    ensures i < n && g == LinesOf(rows, order[i])
    decreases n
  {
    assert order[..n][..n - 1] == order[..n - 1];
    if g == LinesOf(rows, order[n - 1]) { i := n - 1; } else { i := ReplayedGroupIsOf(rows, order, n - 1, g); }
  }

  /** Replayed groups keep the head dates in order. */
  lemma {:induction false} ReplayedHeadsInOrder(rows: seq<Line>, n: nat)
    requires DateSorted(rows) && n <= |FirstSeen(rows)|
    ensures HeadsInOrder(Replayed(rows, FirstSeen(rows)[..n]))
    decreases n
  {
    if n > 0 {
      var order := FirstSeen(rows);
      ReplayedHeadsInOrder(rows, n - 1);
      assert order[..n][..n - 1] == order[..n - 1];
      var before: seq<seq<Line>> := Replayed(rows, order[..n - 1]);
      var lines := LinesOf(rows, order[n - 1]);
      NotSeenHasNoLines(rows, order[n - 1]);
      forall g: seq<Line> | g in before ensures g != [] && g[0].date <= lines[0].date {
        var i := ReplayedGroupIsOf(rows, order, n - 1, g);
        HeadDatesDoNotDecrease(rows, i, n - 1);
      }
      assert (before + [lines])[..|before|] == before;
    }
  }
}
