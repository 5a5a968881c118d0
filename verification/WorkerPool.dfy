/** The worker threads of `backend/loadtest/write_bench.py`: every interleaving of
    their steps on a shared work list, guarded by one lock. */
module WorkerPool {

  /** An invoice to create: a branch fixture and a barcode of its stock. */
  datatype Item = Item(fixture: nat, barcode: string)

  /** Where a thread stands. The states with `lock` in their comment hold it. */
  datatype Place =
    | AtTop
    | Testing                          // lock: about to look at the list
    | Taking                           // lock: the list was not empty
    | Creating(item: Item)
    | RollingBack(item: Item)
    | Filing(item: Item, ok: bool)
    | Appending(item: Item, ok: bool)  // lock: about to append the outcome
    | Closing                          // the outcome is filed; about to close the session
    | Returned
    | Died(item: Item)                 // opening the session or rolling back raised
    | Quit                             // closing the session raised

  datatype Lock = Free | HeldBy(thread: nat)

  datatype State = State(work: seq<Item>, lock: Lock, threads: seq<Place>, res: seq<Item>, errs: seq<Item>)

  function Init(work: seq<Item>, threads: nat): State {
    State(work, Free, seq(threads, _ => AtTop), [], [])
  }

  function Move(s: State, t: nat, to: Place, lock: Lock): State
    requires t < |s.threads|
  {
    s.(threads := s.threads[t := to], lock := lock)
  }

  /** One atomic step of thread `t`. */
  predicate Step(s: State, t: nat, n: State) {
    t < |s.threads| &&
    match s.threads[t]
    case AtTop => s.lock == Free && n == Move(s, t, Testing, HeldBy(t))
    case Testing =>
      n == if s.work == [] then Move(s, t, Returned, Free) else Move(s, t, Taking, s.lock)
    case Taking =>
      s.work != [] &&
      n == Move(s, t, Creating(s.work[|s.work| - 1]), Free).(work := s.work[..|s.work| - 1])
    case Creating(item) =>
      || n == Move(s, t, Filing(item, true), s.lock) || n == Move(s, t, RollingBack(item), s.lock)
      || n == Move(s, t, Died(item), s.lock)
    case RollingBack(item) =>
      n == Move(s, t, Filing(item, false), s.lock) || n == Move(s, t, Died(item), s.lock)
    case Filing(item, ok) => s.lock == Free && n == Move(s, t, Appending(item, ok), HeldBy(t))
    case Appending(item, ok) =>
      var m := Move(s, t, Closing, Free);
      n == if ok then m.(res := s.res + [item]) else m.(errs := s.errs + [item])
    case Closing => n == Move(s, t, AtTop, s.lock) || n == Move(s, t, Quit, s.lock)
    case Returned => false
    case Died(_) => false
    case Quit => false
  }

  ghost predicate Next(s: State, n: State) {
    exists t :: Step(s, t, n)
  }

  function Last(run: seq<State>): State
    requires run != []
  {
    run[|run| - 1]
  }

  /** A run: each state follows from the one before by a step of some thread. */
  ghost predicate IsRun(run: seq<State>, work: seq<Item>, threads: nat) {
    run != [] &&
    var front := run[..|run| - 1];
    if front == [] then Last(run) == Init(work, threads)
    else IsRun(front, work, threads) && Next(Last(front), Last(run))
  }

  predicate Ended(p: Place) { p.Returned? || p.Died? || p.Quit? }

  predicate AllEnded(threads: seq<Place>) {
    forall t | 0 <= t < |threads| :: Ended(threads[t])
  }

  predicate NoneDied(threads: seq<Place>) {
    forall t | 0 <= t < |threads| :: !threads[t].Died?
  }

  predicate InCritical(p: Place) { p.Testing? || p.Taking? || p.Appending? }

  /** The item in a thread's hands; a dead thread still has its own. */
  predicate Carries(p: Place, x: Item) {
    match p
    case Creating(item) => item == x
    case RollingBack(item) => item == x
    case Filing(item, _) => item == x
    case Appending(item, _) => item == x
    case Died(item) => item == x
    case _ => false
  }

  predicate Laden(p: Place) {
    p.Creating? || p.RollingBack? || p.Filing? || p.Appending? || p.Died?
  }

  function Count(items: seq<Item>, x: Item): nat {
    if items == [] then 0 else Count(items[..|items| - 1], x) + (if items[|items| - 1] == x then 1 else 0)
  }

  function CountCarried(threads: seq<Place>, x: Item): nat {
    if threads == [] then 0
    else CountCarried(threads[..|threads| - 1], x) + (if Carries(threads[|threads| - 1], x) then 1 else 0)
  }

  function CountLaden(threads: seq<Place>): nat {
    if threads == [] then 0
    else CountLaden(threads[..|threads| - 1]) + (if Laden(threads[|threads| - 1]) then 1 else 0)
  }

  /** How often `x` is anywhere: on the list, in a thread's hands, or filed. */
  function Tally(s: State, x: Item): nat {
    Count(s.work, x) + CountCarried(s.threads, x) + Count(s.res, x) + Count(s.errs, x)
  }

  function Size(s: State): nat {
    |s.work| + CountLaden(s.threads) + |s.res| + |s.errs|
  }

  /** The list is what is left of the original one, taken from the end; one thread at
      most is in a critical section, and it holds the lock; a thread past the
      emptiness test still finds an item; and no thread returns while work is left. */
  predicate Orderly(s: State, work: seq<Item>) {
    && s.work <= work
    && (forall t | 0 <= t < |s.threads| :: InCritical(s.threads[t]) <==> s.lock == HeldBy(t))
    && (s.lock.HeldBy? ==> s.lock.thread < |s.threads|)
    && (forall t | 0 <= t < |s.threads| :: s.threads[t].Taking? ==> s.work != [])
    && (forall t | 0 <= t < |s.threads| :: s.threads[t].Returned? ==> s.work == [])
  }

  function Rank(p: Place): nat {
    match p
    case Returned => 0 case Died(_) => 0 case Quit => 0
    case Taking => 1 case Testing => 2 case AtTop => 3 case Closing => 4
    case Appending(_, _) => 5 case Filing(_, _) => 6 case RollingBack(_) => 7 case Creating(_) => 8
  }

  function Ranks(threads: seq<Place>): nat {
    if threads == [] then 0 else Ranks(threads[..|threads| - 1]) + Rank(threads[|threads| - 1])
  }

  function Measure(s: State): nat { 10 * |s.work| + Ranks(s.threads) }

  lemma {:induction false} OneThreadMoves(threads: seq<Place>, t: nat, to: Place, x: Item)
    requires t < |threads|
    ensures var moved := threads[t := to];
            && CountCarried(moved, x) + (if Carries(threads[t], x) then 1 else 0)
               == CountCarried(threads, x) + (if Carries(to, x) then 1 else 0)
            && CountLaden(moved) + (if Laden(threads[t]) then 1 else 0)
               == CountLaden(threads) + (if Laden(to) then 1 else 0)
            && Ranks(moved) + Rank(threads[t]) == Ranks(threads) + Rank(to)
    decreases |threads|
  {
    var n := |threads| - 1;
    if t < n {
      OneThreadMoves(threads[..n], t, to, x);
      assert threads[t := to][..n] == threads[..n][t := to];
    } else {
      assert threads[t := to][..n] == threads[..n];
    }
  }

  lemma CountAppend(items: seq<Item>, item: Item, x: Item)
    ensures Count(items + [item], x) == Count(items, x) + if item == x then 1 else 0
  {
    assert (items + [item])[..|items|] == items;
  }

  /** A step loses no item, repeats none, and comes closer to the end. */
  lemma StepKeepsItems(s: State, t: nat, n: State, x: Item)
    requires Step(s, t, n)
    ensures Tally(n, x) == Tally(s, x) && Size(n) == Size(s) && Measure(n) < Measure(s)
  {
    OneThreadMoves(s.threads, t, n.threads[t], x);
    assert n.threads == s.threads[t := n.threads[t]];
    if s.threads[t].Appending? {
      CountAppend(if s.threads[t].ok then s.res else s.errs, s.threads[t].item, x);
    }
  }

  lemma StepKeepsOrder(s: State, t: nat, n: State, work: seq<Item>)
    requires Orderly(s, work) && Step(s, t, n)
    ensures Orderly(n, work) && |n.threads| == |s.threads|
  {
    assert InCritical(s.threads[t]) <==> s.lock == HeldBy(t);
    assert forall u | 0 <= u < |s.threads| && u != t :: n.threads[u] == s.threads[u];
  }

  lemma {:induction false} InitialThreads(n: nat, x: Item)
    ensures var threads: seq<Place> := seq(n, _ => AtTop);
            CountCarried(threads, x) == CountLaden(threads) == 0 && Ranks(threads) == 3 * n
  {
    var threads: seq<Place> := seq(n, _ => AtTop);
    if n > 0 {
      InitialThreads(n - 1, x);
      assert threads[..n - 1] == seq(n - 1, _ => AtTop);
    }
  }

  /** Under every interleaving of any number of threads: each item is in one place as
      often as it was on the list, the lock keeps order, and a run has at most
      3T + 10W steps. */
  lemma {:induction false} EveryRunIsSafe(run: seq<State>, work: seq<Item>, threads: nat, x: Item)
    requires IsRun(run, work, threads)
    ensures Tally(Last(run), x) == Count(work, x) && Size(Last(run)) == |work|
    ensures Orderly(Last(run), work) && |Last(run).threads| == threads
    ensures Measure(Last(run)) + |run| - 1 <= 3 * threads + 10 * |work|
    decreases |run|
  {
    var front := run[..|run| - 1];
    if front == [] {
      InitialThreads(threads, x);
    } else {
      EveryRunIsSafe(front, work, threads, x);
      var t :| Step(Last(front), t, Last(run));
      StepKeepsItems(Last(front), t, Last(run), x);
      StepKeepsOrder(Last(front), t, Last(run), work);
    }
  }

  lemma ThreadCanStep(s: State, work: seq<Item>, t: nat) returns (n: State)
    requires Orderly(s, work) && t < |s.threads| && !Ended(s.threads[t])
    requires s.lock == Free || s.lock == HeldBy(t)
    ensures Step(s, t, n)
  {
    assert InCritical(s.threads[t]) <==> s.lock == HeldBy(t);
    match s.threads[t] {
      case AtTop => n := Move(s, t, Testing, HeldBy(t));
      case Testing => n := if s.work == [] then Move(s, t, Returned, Free) else Move(s, t, Taking, s.lock);
      case Taking => n := Move(s, t, Creating(s.work[|s.work| - 1]), Free).(work := s.work[..|s.work| - 1]);
      case Creating(item) => n := Move(s, t, Filing(item, true), s.lock);
      case RollingBack(item) => n := Move(s, t, Filing(item, false), s.lock);
      case Filing(item, ok) => n := Move(s, t, Appending(item, ok), HeldBy(t));
      case Appending(item, ok) =>
        var m := Move(s, t, Closing, Free);
        n := if ok then m.(res := s.res + [item]) else m.(errs := s.errs + [item]);
      case Closing => n := Move(s, t, AtTop, s.lock);
    }
  }

  /** No deadlock: while some thread has not ended, some thread can step. */
  lemma NeverStuck(run: seq<State>, work: seq<Item>, threads: nat) returns (n: State)
    requires IsRun(run, work, threads) && !AllEnded(Last(run).threads)
    ensures Next(Last(run), n) && IsRun(run + [n], work, threads)
  {
    var s := Last(run);
    EveryRunIsSafe(run, work, threads, Item(0, ""));
    var t: nat :| t < |s.threads| && !Ended(s.threads[t]);
    if s.lock.HeldBy? {
      t := s.lock.thread;
      assert InCritical(s.threads[t]) <==> s.lock == HeldBy(t);
    }
    n := ThreadCanStep(s, work, t);
    assert (run + [n])[..|run + [n]| - 1] == run;
  }

  lemma {:induction false} EndedLoads(threads: seq<Place>, x: Item)
    requires AllEnded(threads)
    ensures CountLaden(threads) == 0 <==> NoneDied(threads)
    ensures NoneDied(threads) ==> CountCarried(threads, x) == 0
    decreases |threads|
  {
    if threads != [] {
      EndedLoads(threads[..|threads| - 1], x);
      assert forall t | 0 <= t < |threads| - 1 :: threads[..|threads| - 1][t] == threads[t];
    }
  }

  // ---------------------------------------------------------------------------
  // Which list an item is filed in.

  /** Between the two states a thread finished creating `x`. */
  predicate CreatedIn(s: State, n: State, x: Item) {
    exists t :: 0 <= t < |s.threads| && t < |n.threads| && s.threads[t] == Creating(x) && n.threads[t].Filing?
  }

  /** Between the two states a thread finished rolling `x` back. */
  predicate RolledBackIn(s: State, n: State, x: Item) {
    exists t :: 0 <= t < |s.threads| && t < |n.threads| && s.threads[t] == RollingBack(x) && n.threads[t].Filing?
  }

  /** How often `x` was created in the run. */
  function Creations(run: seq<State>, x: Item): nat {
    if |run| <= 1 then 0
    else Creations(run[..|run| - 1], x) + (if CreatedIn(run[|run| - 2], run[|run| - 1], x) then 1 else 0)
  }

  /** How often `x` was rolled back in the run. */
  function Rollbacks(run: seq<State>, x: Item): nat {
    if |run| <= 1 then 0
    else Rollbacks(run[..|run| - 1], x) + (if RolledBackIn(run[|run| - 2], run[|run| - 1], x) then 1 else 0)
  }

  predicate Files(p: Place, x: Item, ok: bool) { p == Filing(x, ok) || p == Appending(x, ok) }

  function CountFiling(threads: seq<Place>, x: Item, ok: bool): nat {
    if threads == [] then 0
    else CountFiling(threads[..|threads| - 1], x, ok) + (if Files(threads[|threads| - 1], x, ok) then 1 else 0)
  }

  lemma {:induction false} OneFilingMoves(threads: seq<Place>, t: nat, to: Place, x: Item, ok: bool)
    requires t < |threads|
    ensures CountFiling(threads[t := to], x, ok) + (if Files(threads[t], x, ok) then 1 else 0)
         == CountFiling(threads, x, ok) + (if Files(to, x, ok) then 1 else 0)
    decreases |threads|
  {
    var n := |threads| - 1;
    if t < n {
      OneFilingMoves(threads[..n], t, to, x, ok);
      assert threads[t := to][..n] == threads[..n][t := to];
    } else {
      assert threads[t := to][..n] == threads[..n];
    }
  }

  lemma OneThreadFinishes(s: State, t: nat, n: State, x: Item)
    requires Step(s, t, n)
    ensures CreatedIn(s, n, x) <==> s.threads[t] == Creating(x) && n.threads[t].Filing?
    ensures RolledBackIn(s, n, x) <==> s.threads[t] == RollingBack(x) && n.threads[t].Filing?
  {
    assert |n.threads| == |s.threads| && forall u | 0 <= u < |s.threads| && u != t :: n.threads[u] == s.threads[u];
  }

  lemma StepFilesSuccess(s: State, t: nat, n: State, x: Item)
    requires Step(s, t, n)
    ensures Count(n.res, x) + CountFiling(n.threads, x, true)
         == Count(s.res, x) + CountFiling(s.threads, x, true) + if CreatedIn(s, n, x) then 1 else 0
  {
    OneThreadFinishes(s, t, n, x);
    OneFilingMoves(s.threads, t, n.threads[t], x, true);
    assert n.threads == s.threads[t := n.threads[t]];
    if s.threads[t].Appending? { CountAppend(s.res, s.threads[t].item, x); }
  }

  lemma StepFilesError(s: State, t: nat, n: State, x: Item)
    requires Step(s, t, n)
    ensures Count(n.errs, x) + CountFiling(n.threads, x, false)
         == Count(s.errs, x) + CountFiling(s.threads, x, false) + if RolledBackIn(s, n, x) then 1 else 0
  {
    OneThreadFinishes(s, t, n, x);
    OneFilingMoves(s.threads, t, n.threads[t], x, false);
    assert n.threads == s.threads[t := n.threads[t]];
    if s.threads[t].Appending? { CountAppend(s.errs, s.threads[t].item, x); }
  }

  lemma {:induction false} NobodyFiles(threads: seq<Place>, x: Item, ok: bool)
    requires forall t | 0 <= t < |threads| :: threads[t] == AtTop || Ended(threads[t])
    ensures CountFiling(threads, x, ok) == 0
    decreases |threads|
  {
    if threads != [] { NobodyFiles(threads[..|threads| - 1], x, ok); }
  }

  /** Under every interleaving a created item, and nothing else, is filed as a success or
      about to be; a rolled back one, and nothing else, as an error. */
  lemma {:induction false} EveryRunFiles(run: seq<State>, work: seq<Item>, threads: nat, x: Item)
    requires IsRun(run, work, threads)
    ensures Count(Last(run).res, x) + CountFiling(Last(run).threads, x, true) == Creations(run, x)
    ensures Count(Last(run).errs, x) + CountFiling(Last(run).threads, x, false) == Rollbacks(run, x)
    decreases |run|
  {
    var front := run[..|run| - 1];
    if front == [] {
      NobodyFiles(Last(run).threads, x, true);
      NobodyFiles(Last(run).threads, x, false);
    } else {
      EveryRunFiles(front, work, threads, x);
      var t :| Step(Last(front), t, Last(run));
      StepFilesSuccess(Last(front), t, Last(run), x);
      StepFilesError(Last(front), t, Last(run), x);
    }
  }

  /** When all threads have ended, successes and errors account for the whole work list
      exactly if none died with an item in hand and the list is empty, which it is as
      soon as one thread has returned. Then each item was filed as often as it was on
      the list. Successes are the items whose invoice was created, errors those rolled
      back. */
  lemma JoinedRunHandlesEverything(run: seq<State>, work: seq<Item>, threads: nat, x: Item)
    requires IsRun(run, work, threads) && AllEnded(Last(run).threads)
    ensures var s := Last(run);
            var clean := NoneDied(s.threads) && s.work == [];
            && (|s.res| + |s.errs| == |work| <==> clean)
            && (clean ==> Count(s.res, x) + Count(s.errs, x) == Count(work, x))
            && ((exists t :: 0 <= t < |s.threads| && s.threads[t] == Returned) ==> s.work == [])
            && (NoneDied(s.threads) && s.work != [] ==> forall t | 0 <= t < |s.threads| :: s.threads[t] == Quit)
            && Count(s.res, x) == Creations(run, x) && Count(s.errs, x) == Rollbacks(run, x)
  {
    var s := Last(run);
    EveryRunFiles(run, work, threads, x);
    NobodyFiles(s.threads, x, true);
    NobodyFiles(s.threads, x, false);
    EveryRunIsSafe(run, work, threads, x);
    EndedLoads(s.threads, x);
  }

  lemma Extend(run: seq<State>, work: seq<Item>, threads: nat, t: nat, n: State)
    requires IsRun(run, work, threads) && Step(Last(run), t, n)
    ensures IsRun(run + [n], work, threads) && Last(run + [n]) == n
  {
    assert (run + [n])[..|run + [n]| - 1] == run;
  }

  /** The only thread takes the last item. */
  lemma FirstTake(work: seq<Item>) returns (run: seq<State>)
    requires work != []
    ensures IsRun(run, work, 1)
    ensures Last(run) == State(work[..|work| - 1], Free, [Creating(work[|work| - 1])], [], [])
  {
    var x := work[|work| - 1];
    var start := Init(work, 1);
    run := [start];
    assert start.threads == [AtTop] && run[..0] == [];
    Extend(run, work, 1, 0, State(work, HeldBy(0), [Testing], [], []));
    run := run + [State(work, HeldBy(0), [Testing], [], [])];
    Extend(run, work, 1, 0, State(work, HeldBy(0), [Taking], [], []));
    run := run + [State(work, HeldBy(0), [Taking], [], [])];
    var taken := State(work[..|work| - 1], Free, [Creating(x)], [], []);
    Extend(run, work, 1, 0, taken);
    run := run + [taken];
  }

  /** A rollback that raises loses its item, whatever the work list. */
  lemma ItemCanBeLost(work: seq<Item>) returns (run: seq<State>)
    requires work != []
    ensures IsRun(run, work, 1) && Last(run).threads == [Died(work[|work| - 1])]
    ensures Last(run).res == [] && Last(run).errs == []
  {
    var x, rest := work[|work| - 1], work[..|work| - 1];
    run := FirstTake(work);
    Extend(run, work, 1, 0, State(rest, Free, [RollingBack(x)], [], []));
    run := run + [State(rest, Free, [RollingBack(x)], [], [])];
    Extend(run, work, 1, 0, State(rest, Free, [Died(x)], [], []));
    run := run + [State(rest, Free, [Died(x)], [], [])];
  }

  lemma FirstSuccess(work: seq<Item>) returns (run: seq<State>)
    requires work != []
    ensures IsRun(run, work, 1)
    ensures Last(run) == State(work[..|work| - 1], HeldBy(0), [Appending(work[|work| - 1], true)], [], [])
  {
    var x, rest := work[|work| - 1], work[..|work| - 1];
    run := FirstTake(work);
    Extend(run, work, 1, 0, State(rest, Free, [Filing(x, true)], [], []));
    run := run + [State(rest, Free, [Filing(x, true)], [], [])];
    Extend(run, work, 1, 0, State(rest, HeldBy(0), [Appending(x, true)], [], []));
    run := run + [State(rest, HeldBy(0), [Appending(x, true)], [], [])];
  }

  /** A close that raises leaves the rest of the list, whatever the work list. */
  lemma WorkCanBeLeft(work: seq<Item>) returns (run: seq<State>)
    requires work != []
    ensures IsRun(run, work, 1) && Last(run).threads == [Quit]
    ensures Last(run).res == [work[|work| - 1]] && Last(run).errs == [] && Last(run).work == work[..|work| - 1]
  {
    var x, rest := work[|work| - 1], work[..|work| - 1];
    run := FirstSuccess(work);
    Extend(run, work, 1, 0, State(rest, Free, [Closing], [x], []));
    run := run + [State(rest, Free, [Closing], [x], [])];
    Extend(run, work, 1, 0, State(rest, Free, [Quit], [x], []));
    run := run + [State(rest, Free, [Quit], [x], [])];
  }

  // ---------------------------------------------------------------------------
  // The work list.

  /** Every fixture has 2N units in stock. */
  predicate Stocked(barcodes: seq<seq<string>>, n: nat) {
    forall f | 0 <= f < |barcodes| :: |barcodes[f]| == 2 * n
  }

  /** What the comprehension lists in its `i`-th turn, up to fixture `f`. */
  function Turn(barcodes: seq<seq<string>>, n: nat, i: nat, f: nat): (items: seq<Item>)
    requires Stocked(barcodes, n) && i < n && f <= |barcodes|
    ensures |items| == f
    ensures forall g | 0 <= g < f :: items[g] == Item(g, barcodes[g][n + i])
  {
    if f == 0 then [] else Turn(barcodes, n, i, f - 1) + [Item(f - 1, barcodes[f - 1][n + i])]
  }

  function Listed(barcodes: seq<seq<string>>, n: nat, i: nat): (items: seq<Item>)
    requires Stocked(barcodes, n) && i <= n
    ensures |items| == Rows(i, |barcodes|)
  {
    if i == 0 then [] else Listed(barcodes, n, i - 1) + Turn(barcodes, n, i - 1, |barcodes|)
  }

  /** i rows of b, as repeated addition. */
  function Rows(i: nat, b: nat): nat {
    if i == 0 then 0 else Rows(i - 1, b) + b
  }

  function Reversed(items: seq<Item>): (r: seq<Item>)
    ensures |r| == |items|
    ensures forall k | 0 <= k < |items| :: r[|items| - 1 - k] == items[k]
  {
    seq(|items|, k requires 0 <= k < |items| => items[|items| - 1 - k])
  }

  /** The nested comprehension, reversed. */
  method BuildWork(barcodes: seq<seq<string>>, n: nat) returns (work: seq<Item>)
    requires Stocked(barcodes, n)
    ensures work == Reversed(Listed(barcodes, n, n))
  {
    work := [];
    for i := 0 to n
      invariant work == Listed(barcodes, n, i)
    {
      for f := 0 to |barcodes|
        invariant work == Listed(barcodes, n, i) + Turn(barcodes, n, i, f)
      {
        work := work + [Item(f, barcodes[f][n + i])];
      }
    }
    work := Reversed(work);
  }

  lemma {:induction false} ListedAt(barcodes: seq<seq<string>>, n: nat, i: nat, row: nat, f: nat)
    requires Stocked(barcodes, n) && row < i <= n && f < |barcodes|
    ensures Rows(row, |barcodes|) + f < Rows(i, |barcodes|)
    ensures Listed(barcodes, n, i)[Rows(row, |barcodes|) + f] == Item(f, barcodes[f][n + row])
    decreases i
  {
    if row < i - 1 { ListedAt(barcodes, n, i - 1, row, f); }
  }

  lemma {:induction false} Locate(n: nat, b: nat, k: nat) returns (row: nat, f: nat)
    requires k < Rows(n, b)
    ensures row < n && f < b && k == Rows(row, b) + f
  {
    if k >= Rows(n - 1, b) { row, f := n - 1, k - Rows(n - 1, b); } else { row, f := Locate(n - 1, b, k); }
  }

  lemma {:induction false} RowsIsProduct(i: nat, b: nat)
    ensures Rows(i, b) == i * b
  {
    if i > 0 { RowsIsProduct(i - 1, b); }
  }

  lemma QuotientAndRemainder(k: nat, row: nat, b: nat, f: nat)
    requires f < b && k == Rows(row, b) + f
    ensures k / b == row && k % b == f
  {
    RowsIsProduct(row, b);
    var q, r := k / b, k % b;
    assert b * q + r == k;
    assert b * (q - row) == f - r;
    Multiple(b, q - row, f - r);
  }

  lemma Multiple(b: int, d: int, x: int)
    requires b * d == x && -b < x < b
    ensures d == 0 && x == 0
  {
    assert d >= 1 ==> b * (d - 1) >= 0;
    assert d <= -1 ==> b * (-1 - d) >= 0;
  }

  /** The k-th item popped, located in its turn. */
  lemma ItemAt(barcodes: seq<seq<string>>, n: nat, k: nat) returns (row: nat, f: nat)
    requires Stocked(barcodes, n) && k < Rows(n, |barcodes|)
    ensures row < n && f < |barcodes| && k == Rows(row, |barcodes|) + f
    ensures var work := Reversed(Listed(barcodes, n, n));
            |work| == Rows(n, |barcodes|) && work[|work| - 1 - k] == Item(f, barcodes[f][n + row])
  {
    row, f := Locate(n, |barcodes|, k);
    ListedAt(barcodes, n, n, row, f);
  }

  /** There are N times B items, and the k-th one popped is of fixture k mod B, with
      its stock unit N + k div B: each fixture in turn, second halves only. */
  lemma HandoutOrder(barcodes: seq<seq<string>>, n: nat, k: nat) returns (row: nat, f: nat)
    requires Stocked(barcodes, n) && k < Rows(n, |barcodes|)
    ensures barcodes != [] && row == k / |barcodes| && f == k % |barcodes|
    ensures row < n && f < |barcodes|
    ensures var work := Reversed(Listed(barcodes, n, n));
            |work| == n * |barcodes| && k < |work|
            && work[|work| - 1 - k] == Item(f, barcodes[f][n + row])
  {
    row, f := ItemAt(barcodes, n, k);
    QuotientAndRemainder(k, row, |barcodes|, f);
    RowsIsProduct(n, |barcodes|);
  }

  predicate DistinctBarcodes(barcodes: seq<seq<string>>) {
    forall f, g, i, j | 0 <= f < |barcodes| && 0 <= g < |barcodes| && 0 <= i < |barcodes[f]|
      && 0 <= j < |barcodes[g]| ::
      barcodes[f][i] == barcodes[g][j] ==> f == g && i == j
  }

  lemma DistinctCells(barcodes: seq<seq<string>>, n: nat, f: nat, i: nat, g: nat, j: nat)
    requires Stocked(barcodes, n) && DistinctBarcodes(barcodes)
    requires f < |barcodes| && g < |barcodes| && i < n && j < n
    ensures barcodes[f][n + i] == barcodes[g][n + j] ==> f == g && i == j
    ensures barcodes[f][n + i] != barcodes[g][j]
  {
  }

  /** With distinct barcodes no unit is handed out twice, and none is among the first
      N of any fixture, which include those the sequential phase used. */
  lemma HandoutsAreFresh(barcodes: seq<seq<string>>, n: nat, k: nat, m: nat, g: nat, j: nat)
    requires Stocked(barcodes, n) && DistinctBarcodes(barcodes)
    requires k < Rows(n, |barcodes|) && m < Rows(n, |barcodes|) && g < |barcodes| && j < n
    ensures var work := Reversed(Listed(barcodes, n, n));
            && (work[|work| - 1 - k].barcode == work[|work| - 1 - m].barcode ==> k == m)
            && work[|work| - 1 - k].barcode != barcodes[g][j]
  {
    var row, f := ItemAt(barcodes, n, k);
    var row', f' := ItemAt(barcodes, n, m);
    DistinctCells(barcodes, n, f, row, f', row');
    DistinctCells(barcodes, n, f, row, g, j);
  }
}
