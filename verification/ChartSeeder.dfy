/** `backend/scripts/seed_chart_of_accounts.py`: the two-pass chart seeder. */
module ChartSeeder {

  import opened Options

  /** The descriptive columns; `system` is is_system_account. */
  datatype Details = Details(text: string, system: bool)

  /** One tuple of COA_DATA. */
  datatype Entry = Entry(code: string, details: Details, parent: Option<string>)

  datatype Account = Account(code: string, details: Details, parent: Option<int>)

  type Accounts = map<int, Account>

  /** account_code is unique; ids come from a sequence. */
  predicate Sound(accounts: Accounts, nextId: int) {
    && (forall i | i in accounts :: i < nextId)
    && (forall i, j | i in accounts && j in accounts && accounts[i].code == accounts[j].code :: i == j)
  }

  predicate DistinctCodes(data: seq<Entry>) {
    forall i, j | 0 <= i < j < |data| :: data[i].code != data[j].code
  }

  function Codes(accounts: Accounts): set<string> {
    set i | i in accounts :: accounts[i].code
  }

  /** code_to_id: the id of each code. */
  predicate Indexes(ids: map<string, int>, accounts: Accounts) {
    && (forall c | c in ids :: ids[c] in accounts && accounts[ids[c]].code == c)
    && (forall i | i in accounts :: accounts[i].code in ids && ids[accounts[i].code] == i)
  }

  /** The accounts, the next id and code_to_id during the first pass. */
  datatype Pass = Pass(accounts: Accounts, nextId: int, ids: map<string, int>)

  function Create(p: Pass, e: Entry, existing: set<string>): Pass {
    if e.code in existing then p
    else Pass(p.accounts[p.nextId := Account(e.code, e.details, None)], p.nextId + 1, p.ids[e.code := p.nextId])
  }

  function CreateAll(p: Pass, data: seq<Entry>, existing: set<string>): Pass {
    if data == [] then p
    else Create(CreateAll(p, data[..|data| - 1], existing), data[|data| - 1], existing)
  }

  predicate Linkable(ids: map<string, int>, e: Entry) {
    e.parent.Some? && e.parent.value in ids && e.code in ids
  }

  /** `e`'s account exists with another parent than it should have. */
  predicate NeedsLink(accounts: Accounts, ids: map<string, int>, e: Entry) {
    Linkable(ids, e) && ids[e.code] in accounts && accounts[ids[e.code]].parent != Some(ids[e.parent.value])
  }

  function Link(accounts: Accounts, ids: map<string, int>, e: Entry): Accounts {
    if NeedsLink(accounts, ids, e)
    then accounts[ids[e.code] := accounts[ids[e.code]].(parent := Some(ids[e.parent.value]))]
    else accounts
  }

  function LinkAll(accounts: Accounts, ids: map<string, int>, data: seq<Entry>): Accounts {
    if data == [] then accounts
    else Link(LinkAll(accounts, ids, data[..|data| - 1]), ids, data[|data| - 1])
  }

  /** How many links the second pass sets. */
  function CountLinks(accounts: Accounts, ids: map<string, int>, data: seq<Entry>): nat {
    if data == [] then 0
    else
      var front := data[..|data| - 1];
      CountLinks(accounts, ids, front)
      + if NeedsLink(LinkAll(accounts, ids, front), ids, data[|data| - 1]) then 1 else 0
  }

  function FirstPass(accounts: Accounts, nextId: int, ids: map<string, int>, data: seq<Entry>): Pass {
    CreateAll(Pass(accounts, nextId, ids), data, Codes(accounts))
  }

  function Seeded(accounts: Accounts, nextId: int, ids: map<string, int>, data: seq<Entry>): Accounts {
    var p := FirstPass(accounts, nextId, ids, data);
    LinkAll(p.accounts, p.ids, data)
  }

  function Missing(data: seq<Entry>, existing: set<string>): nat {
    if data == [] then 0
    else Missing(data[..|data| - 1], existing) + if data[|data| - 1].code in existing then 0 else 1
  }

  predicate HasUserAccount(accounts: Accounts) {
    exists i :: i in accounts && !accounts[i].details.system
  }

  /** The chart_of_accounts table. */
  class ChartTable {
    var accounts: Accounts
    var nextId: int

    constructor ()
      ensures accounts == map[] && nextId == 1
    {
      accounts, nextId := map[], 1;
    }

    /** db.add and flush: the new row gets the next id. */
    method Insert(code: string, details: Details) returns (id: int)
      modifies this
      ensures id == old(nextId) && nextId == id + 1
      ensures accounts == old(accounts)[id := Account(code, details, None)]
    {
      id := nextId;
      accounts, nextId := accounts[id := Account(code, details, None)], nextId + 1;
    }

    /** `seed_chart_of_accounts`; `ids` are the (account_code, id) pairs it queries. */
    method Seed(data: seq<Entry>, force: bool, ids: map<string, int>) returns (created: nat, skipped: nat, linked: nat)
      requires Indexes(ids, accounts)
      modifies this
      ensures var aborted := (exists i :: i in old(accounts) && !old(accounts)[i].details.system) && !force;
              && accounts == (if aborted then old(accounts) else Seeded(old(accounts), old(nextId), ids, data))
              && created == (if aborted then 0 else Missing(data, Codes(old(accounts))))
              && (if aborted then skipped == |old(accounts)| else created + skipped == |data|)
              && (var p := FirstPass(old(accounts), old(nextId), ids, data);
                  linked == if aborted then 0 else CountLinks(p.accounts, p.ids, data))
    {
      created, skipped, linked := 0, 0, 0;
      if HasUserAccount(accounts) && !force {
        return 0, |accounts|, 0;
      }
      var existing, codeToId := Codes(accounts), ids;
      for i := 0 to |data|
        invariant Pass(accounts, nextId, codeToId)
               == CreateAll(Pass(old(accounts), old(nextId), ids), data[..i], existing)
        invariant created == Missing(data[..i], existing) && created + skipped == i
      {
        assert data[..i + 1][..i] == data[..i];
        if data[i].code in existing {
          skipped := skipped + 1;
        } else {
          var id := Insert(data[i].code, data[i].details);
          codeToId := codeToId[data[i].code := id];
          created := created + 1;
        }
      }
      assert data[..|data|] == data;
      ghost var first := accounts;
      for i := 0 to |data|
        invariant accounts == LinkAll(first, codeToId, data[..i])
        invariant linked == CountLinks(first, codeToId, data[..i])
      {
        assert data[..i + 1][..i] == data[..i];
        if NeedsLink(accounts, codeToId, data[i]) {
          var child := codeToId[data[i].code];
          accounts := accounts[child := accounts[child].(parent := Some(codeToId[data[i].parent.value]))];
          linked := linked + 1;
        }
      }
    }
  }

  // ---------------------------------------------------------------------------
  // The first pass.

  predicate CodeIn(data: seq<Entry>, c: string) {
    exists k :: 0 <= k < |data| && data[k].code == c
  }

  lemma CodeInLast(data: seq<Entry>, c: string)
    requires data != []
    ensures CodeIn(data, c) <==> CodeIn(data[..|data| - 1], c) || c == data[|data| - 1].code
  {
    var front := data[..|data| - 1];
    if CodeIn(front, c) {
      var k :| 0 <= k < |front| && front[k].code == c;
      assert data[k].code == c;
    }
  }

  lemma IndexedCodes(ids: map<string, int>, accounts: Accounts)
    requires Indexes(ids, accounts)
    ensures ids.Keys == Codes(accounts)
  {
    forall c | c in ids ensures c in Codes(accounts) {
      var i := ids[c];
      assert i in accounts && accounts[i].code == c;
    }
  }

  /** Old accounts are kept, new ones have no parent yet and are listed ones. */
  predicate Grown(accounts: Accounts, q: Accounts, data: seq<Entry>) {
    && (forall i | i in accounts :: i in q && q[i] == accounts[i])
    && (forall i | i in q && i !in accounts :: q[i].parent == None && CodeIn(data, q[i].code))
  }

  lemma CreateKeepsSound(p: Pass, e: Entry, existing: set<string>)
    requires Sound(p.accounts, p.nextId) && Indexes(p.ids, p.accounts) && (e.code in existing <==> e.code in p.ids)
    ensures var q := Create(p, e, existing); Sound(q.accounts, q.nextId) && Indexes(q.ids, q.accounts)
  {
  }

  lemma {:induction false} FirstPassIsSound(accounts: Accounts, nextId: int, ids: map<string, int>, data: seq<Entry>)
    requires Sound(accounts, nextId) && Indexes(ids, accounts) && DistinctCodes(data)
    ensures var p := FirstPass(accounts, nextId, ids, data);
            && Sound(p.accounts, p.nextId) && Indexes(p.ids, p.accounts) && p.nextId >= nextId
            && (forall c :: c in p.ids <==> c in ids || CodeIn(data, c))
    decreases |data|
  {
    IndexedCodes(ids, accounts);
    if data != [] {
      var front, e := data[..|data| - 1], data[|data| - 1];
      FirstPassIsSound(accounts, nextId, ids, front);
      forall c ensures CodeIn(data, c) <==> CodeIn(front, c) || c == e.code { CodeInLast(data, c); }
      assert !CodeIn(front, e.code);
      CreateKeepsSound(FirstPass(accounts, nextId, ids, front), e, Codes(accounts));
    }
  }

  lemma CreateGrows(accounts: Accounts, p: Pass, front: seq<Entry>, data: seq<Entry>, e: Entry, existing: set<string>)
    requires Grown(accounts, p.accounts, front) && Sound(p.accounts, p.nextId)
    requires forall c :: CodeIn(data, c) <==> CodeIn(front, c) || c == e.code
    ensures Grown(accounts, Create(p, e, existing).accounts, data)
  {
    assert p.nextId !in p.accounts;
  }

  lemma {:induction false} FirstPassGrows(accounts: Accounts, nextId: int, ids: map<string, int>, data: seq<Entry>)
    requires Sound(accounts, nextId) && Indexes(ids, accounts) && DistinctCodes(data)
    ensures Grown(accounts, FirstPass(accounts, nextId, ids, data).accounts, data)
    decreases |data|
  {
    if data != [] {
      var front, e := data[..|data| - 1], data[|data| - 1];
      var p := FirstPass(accounts, nextId, ids, front);
      FirstPassIsSound(accounts, nextId, ids, front);
      FirstPassGrows(accounts, nextId, ids, front);
      forall c ensures CodeIn(data, c) <==> CodeIn(front, c) || c == e.code { CodeInLast(data, c); }
      CreateGrows(accounts, p, front, data, e, Codes(accounts));
    }
  }

  /** A listed code that was missing becomes an account with the listed details. */
  lemma {:induction false} CreatedAsListed(accounts: Accounts, nextId: int, ids: map<string, int>, data: seq<Entry>,
                                           k: nat)
    requires Sound(accounts, nextId) && Indexes(ids, accounts) && DistinctCodes(data)
    requires k < |data| && data[k].code !in Codes(accounts)
    ensures var p := FirstPass(accounts, nextId, ids, data);
            && data[k].code in p.ids && p.ids[data[k].code] in p.accounts && p.ids[data[k].code] !in accounts
            && p.accounts[p.ids[data[k].code]] == Account(data[k].code, data[k].details, None)
    decreases |data|
  {
    var n := |data| - 1;
    FirstPassIsSound(accounts, nextId, ids, data[..n]);
    FirstPassGrows(accounts, nextId, ids, data[..n]);
    if k < n {
      CreatedAsListed(accounts, nextId, ids, data[..n], k);
      assert data[k].code != data[n].code;
    }
  }

  /** `created` counts the new accounts. */
  lemma {:induction false} MissingCountsNew(accounts: Accounts, nextId: int, ids: map<string, int>, data: seq<Entry>)
    requires Sound(accounts, nextId) && Indexes(ids, accounts) && DistinctCodes(data)
    ensures |FirstPass(accounts, nextId, ids, data).accounts| == |accounts| + Missing(data, Codes(accounts))
    decreases |data|
  {
    if data != [] {
      var front := data[..|data| - 1];
      var p := FirstPass(accounts, nextId, ids, front);
      FirstPassIsSound(accounts, nextId, ids, front);
      MissingCountsNew(accounts, nextId, ids, front);
      assert p.nextId !in p.accounts;
    }
  }

  // ---------------------------------------------------------------------------
  // The second pass.

  /** Same accounts up to parents. */
  predicate SameButParents(a: Accounts, b: Accounts) {
    && a.Keys == b.Keys
    && forall i | i in a :: b[i].code == a[i].code && b[i].details == a[i].details
  }

  lemma IndexesCarryOver(ids: map<string, int>, nextId: int, a: Accounts, b: Accounts)
    requires Indexes(ids, a) && Sound(a, nextId) && SameButParents(a, b)
    ensures Indexes(ids, b) && Sound(b, nextId)
  {
    forall c | c in ids ensures ids[c] in b && b[ids[c]].code == c {
      var i := ids[c];
      assert i in a && b[i].code == a[i].code;
    }
  }

  /** Links change only the parents of listed accounts that name one. */
  lemma {:induction false} LinksTouchOnlyChildren(accounts: Accounts, ids: map<string, int>, data: seq<Entry>)
    ensures SameButParents(accounts, LinkAll(accounts, ids, data))
    decreases |data|
  {
    if data != [] { LinksTouchOnlyChildren(accounts, ids, data[..|data| - 1]); }
  }

  lemma {:induction false} UnlistedKeepParent(accounts: Accounts, ids: map<string, int>, data: seq<Entry>, i: int)
    requires i in accounts && Indexes(ids, accounts)
    requires forall k | 0 <= k < |data| :: data[k].code != accounts[i].code || !Linkable(ids, data[k])
    ensures i in LinkAll(accounts, ids, data) && LinkAll(accounts, ids, data)[i] == accounts[i]
    decreases |data|
  {
    if data != [] {
      LinksTouchOnlyChildren(accounts, ids, data[..|data| - 1]);
      UnlistedKeepParent(accounts, ids, data[..|data| - 1], i);
    }
  }

  lemma {:induction false} ListedGetParent(accounts: Accounts, ids: map<string, int>, data: seq<Entry>, k: nat)
    requires k < |data| && Indexes(ids, accounts) && DistinctCodes(data) && Linkable(ids, data[k])
    ensures var i := ids[data[k].code];
            && i in LinkAll(accounts, ids, data)
            && LinkAll(accounts, ids, data)[i].parent == Some(ids[data[k].parent.value])
    decreases |data|
  {
    var front := data[..|data| - 1];
    LinksTouchOnlyChildren(accounts, ids, front);
    if k < |front| {
      ListedGetParent(accounts, ids, front, k);
      assert data[k].code != data[|data| - 1].code;
    }
  }

  function Relinked(a: Accounts, b: Accounts): set<int> {
    set i | i in a && i in b && a[i].parent != b[i].parent
  }

  /** `linked` counts the accounts whose parent changes. */
  lemma {:induction false} LinksCountRelinked(accounts: Accounts, ids: map<string, int>, data: seq<Entry>)
    requires Indexes(ids, accounts) && DistinctCodes(data)
    ensures CountLinks(accounts, ids, data) == |Relinked(accounts, LinkAll(accounts, ids, data))|
    decreases |data|
  {
    if data == [] {
      assert Relinked(accounts, accounts) == {};
    } else {
      var front, e := data[..|data| - 1], data[|data| - 1];
      var before := LinkAll(accounts, ids, front);
      LinksCountRelinked(accounts, ids, front);
      LinksTouchOnlyChildren(accounts, ids, front);
      if NeedsLink(before, ids, e) {
        var child := ids[e.code];
        assert forall k | 0 <= k < |front| :: front[k] == data[k];
        UnlistedKeepParent(accounts, ids, front, child);
        assert Relinked(accounts, LinkAll(accounts, ids, data)) == Relinked(accounts, before) + {child};
      }
    }
  }

  // ---------------------------------------------------------------------------
  // Results.

  /** Every parent named in the data is listed, and is itself a top-level account. */
  predicate TwoLevels(data: seq<Entry>) {
    forall k | 0 <= k < |data| && data[k].parent.Some? ::
      exists m :: 0 <= m < |data| && data[m].code == data[k].parent.value && data[m].parent == None
  }

  /** The codes and links of SeededChart. */
  lemma SeededLinks(accounts: Accounts, nextId: int, ids: map<string, int>, data: seq<Entry>)
    requires Sound(accounts, nextId) && Indexes(ids, accounts) && DistinctCodes(data) && TwoLevels(data)
    ensures var p, q := FirstPass(accounts, nextId, ids, data), Seeded(accounts, nextId, ids, data);
            && Sound(q, p.nextId) && Indexes(p.ids, q)
            && (forall k | 0 <= k < |data| :: data[k].code in p.ids && p.ids[data[k].code] in q)
            && (forall k | 0 <= k < |data| && data[k].parent.Some? ::
                  data[k].parent.value in p.ids && q[p.ids[data[k].code]].parent == Some(p.ids[data[k].parent.value]))
            && (forall i | i in accounts ::
                  i in q && q[i].code == accounts[i].code && q[i].details == accounts[i].details)
            && (forall i | i in accounts
                          && (forall k | 0 <= k < |data| && data[k].parent.Some? :: data[k].code != accounts[i].code)
                  :: q[i] == accounts[i])
  {
    var p, q := FirstPass(accounts, nextId, ids, data), Seeded(accounts, nextId, ids, data);
    FirstPassIsSound(accounts, nextId, ids, data);
    FirstPassGrows(accounts, nextId, ids, data);
    LinksTouchOnlyChildren(p.accounts, p.ids, data);
    IndexesCarryOver(p.ids, p.nextId, p.accounts, q);
    forall k | 0 <= k < |data| ensures data[k].code in p.ids { assert CodeIn(data, data[k].code); }
    forall k | 0 <= k < |data| && data[k].parent.Some?
      ensures data[k].parent.value in p.ids && q[p.ids[data[k].code]].parent == Some(p.ids[data[k].parent.value])
    {
      assert CodeIn(data, data[k].parent.value);
      ListedGetParent(p.accounts, p.ids, data, k);
    }
    forall i | i in accounts && (forall k | 0 <= k < |data| && data[k].parent.Some? :: data[k].code != accounts[i].code)
      ensures q[i] == accounts[i]
    {
      UnlistedKeepParent(p.accounts, p.ids, data, i);
    }
  }

  /** Every listed code is there exactly once and hangs under its named parent, whether
      parent or child is listed first; every account that was there keeps its code and
      details, and keeps its parent too unless the list gives it one; a code that was
      missing is an account with the listed details. The counters tell how many are new
      and how many got another parent. */
  lemma SeededChart(accounts: Accounts, nextId: int, ids: map<string, int>, data: seq<Entry>)
    requires Sound(accounts, nextId) && Indexes(ids, accounts) && DistinctCodes(data) && TwoLevels(data)
    ensures var p, q := FirstPass(accounts, nextId, ids, data), Seeded(accounts, nextId, ids, data);
            && Sound(q, p.nextId) && Indexes(p.ids, q)
            && (forall k | 0 <= k < |data| :: data[k].code in p.ids && p.ids[data[k].code] in q)
            && (forall k | 0 <= k < |data| && data[k].parent.Some? ::
                  data[k].parent.value in p.ids && q[p.ids[data[k].code]].parent == Some(p.ids[data[k].parent.value]))
            && (forall i | i in accounts ::
                  i in q && q[i].code == accounts[i].code && q[i].details == accounts[i].details)
            && (forall i | i in accounts
                          && (forall k | 0 <= k < |data| && data[k].parent.Some? :: data[k].code != accounts[i].code)
                  :: q[i] == accounts[i])
            && (forall k | 0 <= k < |data| && data[k].code !in Codes(accounts) ::
                  q[p.ids[data[k].code]].details == data[k].details)
            && |q| == |accounts| + Missing(data, Codes(accounts))
            && CountLinks(p.accounts, p.ids, data) == |Relinked(p.accounts, q)|
  {
    var p, q := FirstPass(accounts, nextId, ids, data), Seeded(accounts, nextId, ids, data);
    SeededLinks(accounts, nextId, ids, data);
    SeededCounts(accounts, nextId, ids, data);
    forall k | 0 <= k < |data| && data[k].code !in Codes(accounts)
      ensures q[p.ids[data[k].code]].details == data[k].details
    {
      SeededDetails(accounts, nextId, ids, data, k);
    }
  }

  lemma SeededDetails(accounts: Accounts, nextId: int, ids: map<string, int>, data: seq<Entry>, k: nat)
    requires Sound(accounts, nextId) && Indexes(ids, accounts) && DistinctCodes(data)
    requires k < |data| && data[k].code !in Codes(accounts)
    ensures var p, q := FirstPass(accounts, nextId, ids, data), Seeded(accounts, nextId, ids, data);
            data[k].code in p.ids && p.ids[data[k].code] in q && q[p.ids[data[k].code]].details == data[k].details
  {
    var p := FirstPass(accounts, nextId, ids, data);
    CreatedAsListed(accounts, nextId, ids, data, k);
    LinksTouchOnlyChildren(p.accounts, p.ids, data);
    var i := p.ids[data[k].code];
    assert i in p.accounts && p.accounts[i].details == data[k].details;
    assert LinkAll(p.accounts, p.ids, data)[i].details == p.accounts[i].details;
  }

  lemma SeededCounts(accounts: Accounts, nextId: int, ids: map<string, int>, data: seq<Entry>)
    requires Sound(accounts, nextId) && Indexes(ids, accounts) && DistinctCodes(data)
    ensures var p, q := FirstPass(accounts, nextId, ids, data), Seeded(accounts, nextId, ids, data);
            && |q| == |accounts| + Missing(data, Codes(accounts))
            && CountLinks(p.accounts, p.ids, data) == |Relinked(p.accounts, q)|
  {
    var p, q := FirstPass(accounts, nextId, ids, data), Seeded(accounts, nextId, ids, data);
    FirstPassIsSound(accounts, nextId, ids, data);
    LinksTouchOnlyChildren(p.accounts, p.ids, data);
    MissingCountsNew(accounts, nextId, ids, data);
    LinksCountRelinked(p.accounts, p.ids, data);
    assert |q| == |q.Keys| && |p.accounts| == |p.accounts.Keys|;
  }

  /** `height` falls from each account to its parent, so no parent chain turns back. */
  predicate Ranked(accounts: Accounts, height: map<int, nat>) {
    forall i | i in accounts ::
      i in height && (accounts[i].parent.Some? ==>
        accounts[i].parent.value in accounts && accounts[i].parent.value in height
        && height[accounts[i].parent.value] < height[i])
  }

  ghost predicate Forest(accounts: Accounts) {
    exists height :: Ranked(accounts, height)
  }

  predicate ListedTop(data: seq<Entry>, c: string) {
    exists k :: 0 <= k < |data| && data[k].code == c && data[k].parent == None
  }

  predicate ListedChild(data: seq<Entry>, c: string) {
    exists k :: 0 <= k < |data| && data[k].code == c && data[k].parent.Some?
  }

  lemma TopIsNotChild(data: seq<Entry>, c: string)
    requires DistinctCodes(data)
    ensures !(ListedTop(data, c) && ListedChild(data, c))
  {
  }

  /** Where an account's parent comes from after seeding. */
  lemma SeededParent(accounts: Accounts, nextId: int, ids: map<string, int>, data: seq<Entry>, i: int)
    requires Sound(accounts, nextId) && Indexes(ids, accounts) && DistinctCodes(data) && TwoLevels(data)
    requires i in Seeded(accounts, nextId, ids, data)
    ensures var q := Seeded(accounts, nextId, ids, data);
            !ListedChild(data, q[i].code) ==>
              if i in accounts then q[i] == accounts[i] else q[i].parent == None
  {
    var p, q := FirstPass(accounts, nextId, ids, data), Seeded(accounts, nextId, ids, data);
    SeededLinks(accounts, nextId, ids, data);
    FirstPassIsSound(accounts, nextId, ids, data);
    FirstPassGrows(accounts, nextId, ids, data);
    LinksTouchOnlyChildren(p.accounts, p.ids, data);
    if !ListedChild(data, q[i].code) { UnlistedKeepParent(p.accounts, p.ids, data, i); }
  }

  /** The parent code the list names for a listed child. */
  ghost function ParentCode(data: seq<Entry>, c: string): (p: string)
    requires ListedChild(data, c)
    ensures exists k :: 0 <= k < |data| && data[k].code == c && data[k].parent == Some(p)
  {
    var k :| 0 <= k < |data| && data[k].code == c && data[k].parent.Some?;
    data[k].parent.value
  }

  /** The first listed child met when climbing from `i` before seeding; `height` only
      makes the climb end. */
  function ChildAbove(accounts: Accounts, height: map<int, nat>, data: seq<Entry>, i: int): (r: Option<int>)
    requires Ranked(accounts, height) && i in accounts
    ensures r.Some? ==> r.value in accounts && ListedChild(data, accounts[r.value].code)
    decreases height[i]
  {
    match accounts[i].parent
    case None => None
    case Some(j) => if ListedChild(data, accounts[j].code) then Some(j) else ChildAbove(accounts, height, data, j)
  }

  /** The listed top that the first listed child above `i` belongs under. */
  ghost function TopAbove(accounts: Accounts, height: map<int, nat>, data: seq<Entry>, i: int): Option<string>
    requires Ranked(accounts, height) && i in accounts
  {
    match ChildAbove(accounts, height, data, i)
    case None => None
    case Some(j) => Some(ParentCode(data, accounts[j].code))
  }

  /** `rank` falls from each existing listed top to the top above it. */
  ghost predicate Untangles(accounts: Accounts, height: map<int, nat>, data: seq<Entry>, rank: string -> nat)
    requires Ranked(accounts, height)
  {
    forall i | i in accounts && ListedTop(data, accounts[i].code) ::
      var above := TopAbove(accounts, height, data, i);
      above.Some? ==> rank(above.value) < rank(accounts[i].code)
  }

  /** No listed top is above itself, directly or by way of other listed tops. */
  ghost predicate TopsUntangled(accounts: Accounts, height: map<int, nat>, data: seq<Entry>)
    requires Ranked(accounts, height)
  {
    exists rank: string -> nat :: Untangles(accounts, height, data, rank)
  }

  /** A listed child hangs under the top its entry names. */
  lemma ChildHangsUnderItsTop(accounts: Accounts, nextId: int, ids: map<string, int>, data: seq<Entry>, i: int)
    requires Sound(accounts, nextId) && Indexes(ids, accounts) && DistinctCodes(data) && TwoLevels(data)
    requires i in Seeded(accounts, nextId, ids, data) && ListedChild(data, Seeded(accounts, nextId, ids, data)[i].code)
    ensures var q := Seeded(accounts, nextId, ids, data);
            && q[i].parent.Some? && q[i].parent.value in q
            && q[q[i].parent.value].code == ParentCode(data, q[i].code)
            && ListedTop(data, q[q[i].parent.value].code)
  {
    var p, q := FirstPass(accounts, nextId, ids, data), Seeded(accounts, nextId, ids, data);
    SeededLinks(accounts, nextId, ids, data);
    var k :| 0 <= k < |data| && data[k].code == q[i].code && data[k].parent == Some(ParentCode(data, q[i].code));
    assert p.ids[data[k].code] == i;
    var m :| 0 <= m < |data| && data[m].code == data[k].parent.value && data[m].parent == None;
  }

  // Forest after seeding ==> untangled before.

  /** After seeding the climb from `i` still passes the first listed child above it. */
  lemma {:induction false} ClimbFalls(accounts: Accounts, nextId: int, ids: map<string, int>, data: seq<Entry>,
                                      height: map<int, nat>, after: map<int, nat>, i: int)
    requires Sound(accounts, nextId) && Indexes(ids, accounts) && DistinctCodes(data) && TwoLevels(data)
    requires Ranked(accounts, height) && Ranked(Seeded(accounts, nextId, ids, data), after)
    requires i in accounts && !ListedChild(data, accounts[i].code)
    ensures var j := ChildAbove(accounts, height, data, i);
            i in after && (j.Some? ==> j.value in after && after[j.value] < after[i])
    decreases height[i]
  {
    SeededLinks(accounts, nextId, ids, data);
    SeededParent(accounts, nextId, ids, data, i);
    if accounts[i].parent.Some? && !ListedChild(data, accounts[accounts[i].parent.value].code) {
      ClimbFalls(accounts, nextId, ids, data, height, after, accounts[i].parent.value);
    }
  }

  lemma ForestUntangles(accounts: Accounts, nextId: int, ids: map<string, int>, data: seq<Entry>, height: map<int, nat>)
    requires Sound(accounts, nextId) && Indexes(ids, accounts) && DistinctCodes(data) && TwoLevels(data)
    requires Ranked(accounts, height) && Forest(Seeded(accounts, nextId, ids, data))
    ensures TopsUntangled(accounts, height, data)
  {
    var p, q := FirstPass(accounts, nextId, ids, data), Seeded(accounts, nextId, ids, data);
    SeededLinks(accounts, nextId, ids, data);
    var after: map<int, nat> :| Ranked(q, after);
    var rank: string -> nat := c => if c in p.ids && p.ids[c] in after then after[p.ids[c]] else 0;
    forall i | i in accounts && ListedTop(data, accounts[i].code)
      ensures var above := TopAbove(accounts, height, data, i);
              above.Some? ==> rank(above.value) < rank(accounts[i].code)
    {
      var j := ChildAbove(accounts, height, data, i);
      TopIsNotChild(data, accounts[i].code);
      ClimbFalls(accounts, nextId, ids, data, height, after, i);
      if j.Some? { ChildHangsUnderItsTop(accounts, nextId, ids, data, j.value); }
    }
    assert Untangles(accounts, height, data, rank);
  }

  // Untangled before ==> forest after seeding.

  /** The band of `i`: a listed child lies one above the rank of its top, and everything
      that climbs to it lies there with it. */
  ghost function Band(accounts: Accounts, height: map<int, nat>, data: seq<Entry>, rank: string -> nat, i: int,
                      code: string): nat
    requires Ranked(accounts, height)
  {
    if ListedChild(data, code) then rank(ParentCode(data, code)) + 1
    else if i !in accounts then 0
    else match TopAbove(accounts, height, data, i) case None => 0 case Some(c) => rank(c) + 1
  }

  /** The place of `i` within its band. */
  function Place(height: map<int, nat>, data: seq<Entry>, i: int, code: string): nat {
    if ListedChild(data, code) || i !in height then 0 else height[i] + 1
  }

  /** From an account to its parent the band falls, or it stays and the place falls. */
  lemma BandFalls(accounts: Accounts, nextId: int, ids: map<string, int>, data: seq<Entry>,
                  height: map<int, nat>, rank: string -> nat, i: int)
    requires Sound(accounts, nextId) && Indexes(ids, accounts) && DistinctCodes(data) && TwoLevels(data)
    requires Ranked(accounts, height) && Untangles(accounts, height, data, rank)
    requires i in Seeded(accounts, nextId, ids, data) && Seeded(accounts, nextId, ids, data)[i].parent.Some?
    ensures var q := Seeded(accounts, nextId, ids, data);
            var j := q[i].parent.value;
            j in q &&
            var a := Band(accounts, height, data, rank, j, q[j].code);
            var b := Band(accounts, height, data, rank, i, q[i].code);
            a < b || (a == b && Place(height, data, j, q[j].code) < Place(height, data, i, q[i].code))
  {
    var q := Seeded(accounts, nextId, ids, data);
    SeededLinks(accounts, nextId, ids, data);
    if ListedChild(data, q[i].code) {
      ChildHangsUnderItsTop(accounts, nextId, ids, data, i);
      TopIsNotChild(data, q[q[i].parent.value].code);
    } else {
      SeededParent(accounts, nextId, ids, data, i);
    }
  }

  lemma {:induction false} Bound(height: map<int, nat>) returns (n: nat)
    ensures forall i | i in height :: height[i] + 1 < n
    decreases |height|
  {
    n := 0;
    if i :| i in height {
      var m := Bound(height - {i});
      n := if m > height[i] + 1 then m else height[i] + 2;
      assert forall j | j in height :: j == i || (j in height - {i} && (height - {i})[j] == height[j]);
    }
  }

  /** The height of a place in a band: bands of `n` places each, one above the other. */
  function Stacked(n: nat, band: nat, place: nat): nat {
    if band == 0 then place else n + Stacked(n, band - 1, place)
  }

  lemma {:induction false} StackedFalls(n: nat, a: nat, x: nat, b: nat, y: nat)
    requires x < n && (a < b || (a == b && x < y))
    ensures Stacked(n, a, x) < Stacked(n, b, y)
  {
    if a > 0 { StackedFalls(n, a - 1, x, b - 1, y); }
  }

  ghost function After(accounts: Accounts, height: map<int, nat>, data: seq<Entry>, rank: string -> nat, n: nat,
                       i: int, code: string): nat
    requires Ranked(accounts, height)
  {
    Stacked(n, Band(accounts, height, data, rank, i, code), Place(height, data, i, code))
  }

  lemma AfterFalls(accounts: Accounts, nextId: int, ids: map<string, int>, data: seq<Entry>,
                   height: map<int, nat>, rank: string -> nat, n: nat, i: int)
    requires Sound(accounts, nextId) && Indexes(ids, accounts) && DistinctCodes(data) && TwoLevels(data)
    requires Ranked(accounts, height) && Untangles(accounts, height, data, rank)
    requires n > 0 && forall j | j in height :: height[j] + 1 < n
    requires i in Seeded(accounts, nextId, ids, data) && Seeded(accounts, nextId, ids, data)[i].parent.Some?
    ensures var q := Seeded(accounts, nextId, ids, data);
            var j := q[i].parent.value;
            && j in q
            && After(accounts, height, data, rank, n, j, q[j].code)
               < After(accounts, height, data, rank, n, i, q[i].code)
  {
    var q := Seeded(accounts, nextId, ids, data);
    var j := q[i].parent.value;
    BandFalls(accounts, nextId, ids, data, height, rank, i);
    StackedFalls(n, Band(accounts, height, data, rank, j, q[j].code), Place(height, data, j, q[j].code),
                 Band(accounts, height, data, rank, i, q[i].code), Place(height, data, i, q[i].code));
  }

  lemma UntangledSeedsForest(accounts: Accounts, nextId: int, ids: map<string, int>, data: seq<Entry>,
                             height: map<int, nat>)
    requires Sound(accounts, nextId) && Indexes(ids, accounts) && DistinctCodes(data) && TwoLevels(data)
    requires Ranked(accounts, height) && TopsUntangled(accounts, height, data)
    ensures Forest(Seeded(accounts, nextId, ids, data))
  {
    var q := Seeded(accounts, nextId, ids, data);
    var rank :| Untangles(accounts, height, data, rank);
    var bound := Bound(height);
    var n := bound + 1;
    var after := map i | i in q :: After(accounts, height, data, rank, n, i, q[i].code);
    forall i | i in q ensures q[i].parent.Some? ==> q[i].parent.value in q && after[q[i].parent.value] < after[i] {
      if q[i].parent.Some? { AfterFalls(accounts, nextId, ids, data, height, rank, n, i); }
    }
    assert Ranked(q, after);
  }

  /** Seeding keeps a forest a forest exactly when no existing listed top already hangs,
      by way of listed children, below itself. */
  lemma SeedingKeepsForestIff(accounts: Accounts, nextId: int, ids: map<string, int>, data: seq<Entry>,
                              height: map<int, nat>)
    requires Sound(accounts, nextId) && Indexes(ids, accounts) && DistinctCodes(data) && TwoLevels(data)
    requires Ranked(accounts, height)
    ensures Forest(Seeded(accounts, nextId, ids, data)) <==> TopsUntangled(accounts, height, data)
  {
    if TopsUntangled(accounts, height, data) { UntangledSeedsForest(accounts, nextId, ids, data, height); }
    if Forest(Seeded(accounts, nextId, ids, data)) { ForestUntangles(accounts, nextId, ids, data, height); }
  }

  /** So it does whenever no existing listed top was given a parent. */
  lemma SeedingKeepsForest(accounts: Accounts, nextId: int, ids: map<string, int>, data: seq<Entry>)
    requires Sound(accounts, nextId) && Indexes(ids, accounts) && DistinctCodes(data) && TwoLevels(data)
    requires Forest(accounts)
    requires forall i | i in accounts && ListedTop(data, accounts[i].code) :: accounts[i].parent == None
    ensures Forest(Seeded(accounts, nextId, ids, data))
  {
    var height :| Ranked(accounts, height);
    assert Untangles(accounts, height, data, _ => 0);
    SeedingKeepsForestIff(accounts, nextId, ids, data, height);
  }

  /** Without that condition it may not: an existing 1000 placed under 1010 becomes the
      parent of 1010. */
  lemma ParentedTopMakesCycle()
    ensures var d := Details("", true);
            var data := [Entry("1000", d, None), Entry("1010", d, Some("1000"))];
            var accounts := map[1 := Account("1000", d, Some(2)), 2 := Account("1010", d, None)];
            var ids := map["1000" := 1, "1010" := 2];
            && Forest(accounts) && Sound(accounts, 3) && Indexes(ids, accounts)
            && !Forest(Seeded(accounts, 3, ids, data))
  {
    var d := Details("", true);
    var data := [Entry("1000", d, None), Entry("1010", d, Some("1000"))];
    var accounts := map[1 := Account("1000", d, Some(2)), 2 := Account("1010", d, None)];
    var ids := map["1000" := 1, "1010" := 2];
    assert "1000"[2] != "1010"[2];
    assert Ranked(accounts, map[1 := 1, 2 := 0]);
    IndexedCodes(ids, accounts);
    assert data[..1] == [data[0]] && data[..1][..0] == data[..0] == [];
    var p := Pass(accounts, 3, ids);
    assert CreateAll(p, data[..1], Codes(accounts)) == p;
    assert CreateAll(p, data, Codes(accounts)) == p;
    assert LinkAll(accounts, ids, data[..1]) == accounts;
    var q := Seeded(accounts, 3, ids, data);
    assert q == Link(accounts, ids, data[1]);
    assert q[1].parent == Some(2) && q[2].parent == Some(1);
  }

  /** A second forced run finds nothing to create and nothing to link. */
  lemma SecondRunIsNoOp(accounts: Accounts, nextId: int, ids: map<string, int>, data: seq<Entry>,
                        ids': map<string, int>)
    requires Sound(accounts, nextId) && Indexes(ids, accounts) && DistinctCodes(data) && TwoLevels(data)
    requires Indexes(ids', Seeded(accounts, nextId, ids, data))
    ensures var p, q := FirstPass(accounts, nextId, ids, data), Seeded(accounts, nextId, ids, data);
            && Missing(data, Codes(q)) == 0
            && FirstPass(q, p.nextId, ids', data) == Pass(q, p.nextId, ids')
            && CountLinks(q, ids', data) == 0
            && Seeded(q, p.nextId, ids', data) == q
  {
    var p, q := FirstPass(accounts, nextId, ids, data), Seeded(accounts, nextId, ids, data);
    SeededLinks(accounts, nextId, ids, data);
    IndexedCodes(ids', q);
    IndexedCodes(p.ids, q);
    forall c | c in ids' ensures ids'[c] == p.ids[c] { assert ids'[c] in q && p.ids[c] in q; }
    forall k | 0 <= k < |data| ensures data[k].code in Codes(q) && !NeedsLink(q, ids', data[k]) {
      assert data[k].code in p.ids;
    }
    NothingToDo(q, p.nextId, ids', data);
  }

  lemma {:induction false} NothingToDo(accounts: Accounts, nextId: int, ids: map<string, int>, data: seq<Entry>)
    requires forall k | 0 <= k < |data| :: data[k].code in Codes(accounts) && !NeedsLink(accounts, ids, data[k])
    ensures Missing(data, Codes(accounts)) == 0
    ensures FirstPass(accounts, nextId, ids, data) == Pass(accounts, nextId, ids)
    ensures LinkAll(accounts, ids, data) == accounts && CountLinks(accounts, ids, data) == 0
    decreases |data|
  {
    if data != [] { NothingToDo(accounts, nextId, ids, data[..|data| - 1]); }
  }
}
