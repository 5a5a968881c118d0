/** `backend/scripts/seed_permissions.py` against the tables: sessions do not flush by
    themselves, so renamed permissions are written at the next creation or commit, and
    a unique index may refuse them. */
module PermissionRun {
  import opened PermissionSeeder

  /** lower(btrim(.)), under which pairs and group names are unique. */
  type Fold = string -> string

  predicate SameKey(fold: Fold, p: Permission, q: Permission) {
    fold(p.resource) == fold(q.resource) && fold(p.action) == fold(q.action)
  }

  /** Two rows the unique indexes do not admit together. */
  predicate Conflict(fold: Fold, p: Permission, q: Permission) {
    p.name == q.name || SameKey(fold, p, q)
  }

  predicate Conforms(fold: Fold, perms: Permissions) {
    forall i, j | i in perms && j in perms && i != j :: !Conflict(fold, perms[i], perms[j])
  }

  predicate ConformingList(fold: Fold, data: seq<Permission>) {
    forall i, j | 0 <= i < |data| && 0 <= j < |data| && i != j :: !Conflict(fold, data[i], data[j])
  }

  /** Stored rows, renamed rows not yet written, next id, created_permissions. */
  datatype Work = Work(stored: Permissions, dirty: Permissions, nextId: int, created: map<string, int>, raised: bool)

  /** The rows as the session sees them. */
  function Seen(w: Work): Permissions {
    w.stored + w.dirty
  }

  /** Row `j` when row `i` is written: a flush writes changed rows in order of id. */
  function RowAt(stored: Permissions, dirty: Permissions, i: int, j: int): Permission
    requires j in stored
  {
    if j in dirty && j < i then dirty[j] else stored[j]
  }

  predicate FlushFails(fold: Fold, stored: Permissions, dirty: Permissions) {
    exists i, j :: i in dirty && j in stored && j != i && Conflict(fold, RowAt(stored, dirty, i, j), dirty[i])
  }

  predicate InsertFails(fold: Fold, perms: Permissions, p: Permission) {
    exists j :: j in perms && Conflict(fold, perms[j], p)
  }

  /** One turn of the upsert loop. */
  ghost function Step(fold: Fold, w: Work, p: Permission): Work {
    if w.raised then w
    else if HasPair(w.stored, p) then
      var i := IdOfPair(w.stored, p);
      w.(dirty := w.dirty[i := p], created := w.created[p.name := i])
    else if FlushFails(fold, w.stored, w.dirty) then w.(raised := true)
    else if InsertFails(fold, Seen(w), p) then w.(raised := true, nextId := w.nextId + 1)
    else Work(Seen(w)[w.nextId := p], map[], w.nextId + 1, w.created[p.name := w.nextId], false)
  }

  ghost function Steps(fold: Fold, w: Work, data: seq<Permission>, n: nat): Work
    requires n <= |data|
  {
    if n == 0 then w else Step(fold, Steps(fold, w, data, n - 1), data[n - 1])
  }

  /** The loop over a purged table, then the commit. */
  ghost function Upserted(fold: Fold, purged: Permissions, nextId: int, data: seq<Permission>): Work {
    var w := Steps(fold, Work(purged, map[], nextId, map[], false), data, |data|);
    if w.raised || FlushFails(fold, w.stored, w.dirty) then w.(raised := true)
    else w.(stored := Seen(w), dirty := map[])
  }

  /** A new group's name is taken up to case, or listed twice. */
  predicate GroupsFail(fold: Fold, groups: Groups, specs: seq<GroupSpec>) {
    exists k :: 0 <= k < |specs| && specs[k].name !in groups && Taken(fold, groups, specs, k)
  }

  predicate Taken(fold: Fold, groups: Groups, specs: seq<GroupSpec>, k: nat)
    requires k < |specs|
  {
    || (exists g :: g in groups && fold(g) == fold(specs[k].name))
    || (exists m :: 0 <= m < k && specs[m].name !in groups && fold(specs[m].name) == fold(specs[k].name))
  }

  lemma PurgeNothing(groups: Groups)
    ensures PurgedGroups(groups, {}) == groups
  {
    assert forall g | g in groups :: groups[g] - {} == groups[g];
  }

  lemma PurgeTwice(perms: Permissions, groups: Groups, grants: set<Grant>, a: set<int>, b: set<int>)
    ensures perms - a - b == perms - (a + b)
    ensures PurgedGrants(PurgedGrants(grants, a), b) == PurgedGrants(grants, a + b)
    ensures PurgedGroups(PurgedGroups(groups, a), b) == PurgedGroups(groups, a + b)
  {
    assert forall g | g in groups :: groups[g] - a - b == groups[g] - (a + b);
  }

  lemma PurgeIsRemoval(perms: Permissions)
    ensures perms - LegacyIds(perms) == Purged(perms)
  {
  }

  method PickOne<T(==)>(s: set<T>) returns (x: T)
    requires s != {}
    ensures x in s
  {
    x :| x in s;
  }

  /** The permission, group and grant tables. */
  class AccessTables {
    var perms: Permissions
    var nextId: int
    var groups: Groups
    var grants: set<Grant>

    constructor ()
      ensures perms == map[] && groups == map[] && grants == {} && nextId == 1
    {
      perms, groups, grants, nextId := map[], map[], {}, 1;
    }

    /** db.delete: the row, and its association rows with groups and users. */
    method Delete(i: int)
      modifies this
      ensures perms == old(perms) - {i} && nextId == old(nextId)
      ensures groups == PurgedGroups(old(groups), {i})
      ensures grants == PurgedGrants(old(grants), {i})
    {
      perms := perms - {i};
      groups := PurgedGroups(groups, {i});
      grants := PurgedGrants(grants, {i});
    }

    method PurgeLegacy()
      modifies this
      ensures perms == Purged(old(perms)) && nextId == old(nextId)
      ensures groups == PurgedGroups(old(groups), LegacyIds(old(perms)))
      ensures grants == PurgedGrants(old(grants), LegacyIds(old(perms)))
    {
      var stale := LegacyIds(perms);
      ghost var gone: set<int> := {};
      PurgeNothing(groups);
      while stale != {}
        invariant gone + stale == LegacyIds(old(perms)) && gone !! stale
        invariant perms == old(perms) - gone && nextId == old(nextId)
        invariant groups == PurgedGroups(old(groups), gone)
        invariant grants == PurgedGrants(old(grants), gone)
        decreases |stale|
      {
        var i := PickOne(stale);
        PurgeTwice(old(perms), old(groups), old(grants), gone, {i});
        Delete(i);
        stale, gone := stale - {i}, gone + {i};
      }
      assert gone == LegacyIds(old(perms));
      PurgeIsRemoval(old(perms));
    }

    /** db.add and flush: the waiting renames, then the new row. */
    method FlushAndCreate(fold: Fold, dirty: Permissions, p: Permission, ghost created: map<string, int>)
        returns (raised: bool)
      requires !HasPair(perms, p)
      modifies this`perms, this`nextId
      ensures var w := Step(fold, Work(old(perms), dirty, old(nextId), created, false), p);
              && raised == w.raised && nextId == w.nextId
              && (!raised ==> w == Work(perms, map[], nextId, created[p.name := old(nextId)], false))
    {
      raised := FlushFails(fold, perms, dirty);
      if !raised {
        perms := perms + dirty;
        raised := InsertFails(fold, perms, p);
        if !raised { perms := perms[nextId := p]; }
        nextId := nextId + 1;
      }
    }

    /** The upsert loop and its commit; an error takes everything since the purge back. */
    method UpsertListed(fold: Fold, data: seq<Permission>) returns (created: map<string, int>, raised: bool)
      requires UniquePairs(perms) && IdsBelow(perms, nextId)
      modifies this`perms, this`nextId
      ensures var w := Upserted(fold, old(perms), old(nextId), data);
              && raised == w.raised && nextId == w.nextId && (!raised ==> created == w.created)
              && perms == if raised then old(perms) else w.stored
    {
      var committed, dirty: Permissions := perms, map[];
      ghost var start := Work(perms, map[], nextId, map[], false);
      created, raised := map[], false;
      for k := 0 to |data|
        invariant var w := Work(perms, dirty, nextId, created, false); w == Steps(fold, start, data, k) && Sane(w)
        invariant !raised && committed == old(perms)
      {
        var p := data[k];
        StepKeepsSane(fold, Work(perms, dirty, nextId, created, false), p);
        if HasPair(perms, p) {
          var i :| i in perms && SamePair(perms[i], p);
          assert i == IdOfPair(perms, p);
          dirty, created := dirty[i := p], created[p.name := i];
        } else {
          var id := nextId;
          raised := FlushAndCreate(fold, dirty, p, created);
          if raised {
            RaisedStays(fold, start, data, k + 1, |data|);
            perms := committed;
            return;
          }
          dirty, created := map[], created[p.name := id];
        }
      }
      raised := FlushFails(fold, perms, dirty);
      perms := if raised then committed else perms + dirty;
    }

    /** The group loop and its commit. */
    method ResetGroups(fold: Fold, created: map<string, int>, specs: seq<GroupSpec>) returns (raised: bool)
      modifies this`groups
      ensures raised == GroupsFail(fold, old(groups), specs)
      ensures groups == if raised then old(groups) else SetGroups(old(groups), created, specs)
    {
      var next := groups;
      for k := 0 to |specs|
        invariant groups == old(groups) && next == SetGroups(groups, created, specs[..k])
      {
        assert specs[..k + 1][..k] == specs[..k];
        next := next[specs[k].name := Named(created, specs[k].members)];
      }
      assert specs[..|specs|] == specs;
      raised := GroupsFail(fold, groups, specs);
      if !raised { groups := next; }
    }

    /** `seed_permissions`, up to its grant of the Admin group to one user: the purge
        stays even if a later commit fails, and the upserts if the groups fail. */
    method Seed(fold: Fold, data: seq<Permission>, specs: seq<GroupSpec>) returns (raised: bool)
      requires Conforms(fold, perms) && IdsBelow(perms, nextId)
      modifies this
      ensures var w := Upserted(fold, Purged(old(perms)), old(nextId), data);
              var kept := PurgedGroups(old(groups), LegacyIds(old(perms)));
              && raised == (w.raised || GroupsFail(fold, kept, specs))
              && nextId == w.nextId
              && perms == (if w.raised then Purged(old(perms)) else AfterUpserts(old(perms), old(nextId), data).perms)
              && groups == if raised then kept else SeededGroups(old(perms), old(nextId), old(groups), data, specs)
      ensures grants == PurgedGrants(old(grants), LegacyIds(old(perms)))
    {
      PurgeKeeps(perms, nextId);
      UnraisedIsUpsertAll(fold, Purged(perms), nextId, data);
      PurgeLegacy();
      var created;
      created, raised := UpsertListed(fold, data);
      if !raised { raised := ResetGroups(fold, created, specs); }
    }
  }

  // ---------------------------------------------------------------------------
  // Without an error the run is the plain sequence of upserts.

  predicate Sane(w: Work) {
    && UniquePairs(w.stored) && IdsBelow(w.stored, w.nextId)
    && forall i | i in w.dirty :: i in w.stored && SamePair(w.dirty[i], w.stored[i])
  }

  lemma StepKeepsSane(fold: Fold, w: Work, p: Permission)
    requires Sane(w)
    ensures Sane(Step(fold, w, p))
  {
  }

  lemma {:induction false} RaisedStays(fold: Fold, w: Work, data: seq<Permission>, k: nat, n: nat)
    requires k <= n <= |data| && Steps(fold, w, data, k).raised
    ensures Steps(fold, w, data, n) == Steps(fold, w, data, k)
  {
    if k < n { RaisedStays(fold, w, data, k, n - 1); }
  }

  lemma SeenPairs(w: Work, p: Permission)
    requires Sane(w)
    ensures Seen(w).Keys == w.stored.Keys && UniquePairs(Seen(w))
    ensures HasPair(Seen(w), p) <==> HasPair(w.stored, p)
    ensures HasPair(w.stored, p) ==> IdOfPair(Seen(w), p) == IdOfPair(w.stored, p)
  {
    assert forall j | j in Seen(w) :: j in w.stored && SamePair(Seen(w)[j], w.stored[j]);
    if HasPair(w.stored, p) {
      var i := IdOfPair(w.stored, p);
      assert i in Seen(w) && SamePair(Seen(w)[i], p);
    }
  }

  lemma StepIsUpsert(fold: Fold, w: Work, p: Permission)
    requires Sane(w) && !Step(fold, w, p).raised
    ensures TablesOf(Step(fold, w, p)) == Upsert(TablesOf(w), p)
  {
    SeenPairs(w, p);
    if HasPair(w.stored, p) {
      assert Seen(Step(fold, w, p)) == Seen(w)[IdOfPair(w.stored, p) := p];
    }
  }

  lemma {:induction false} StepsKeepSane(fold: Fold, w: Work, data: seq<Permission>, n: nat)
    requires n <= |data| && Sane(w)
    ensures Sane(Steps(fold, w, data, n))
  {
    if n > 0 {
      StepsKeepSane(fold, w, data, n - 1);
      StepKeepsSane(fold, Steps(fold, w, data, n - 1), data[n - 1]);
    }
  }

  lemma NextUpsert(t: Tables, data: seq<Permission>, n: nat)
    requires n < |data|
    ensures UpsertAll(t, data[..n + 1]) == Upsert(UpsertAll(t, data[..n]), data[n])
  {
    assert data[..n + 1][..n] == data[..n];
  }

  function TablesOf(w: Work): Tables {
    Tables(Seen(w), w.nextId, w.created)
  }

  lemma {:induction false} StepsAreUpserts(fold: Fold, w: Work, data: seq<Permission>, n: nat)
    requires n <= |data| && Sane(w) && !Steps(fold, w, data, n).raised
    ensures TablesOf(Steps(fold, w, data, n)) == UpsertAll(TablesOf(w), data[..n])
  {
    if n > 0 {
      StepsAreUpserts(fold, w, data, n - 1);
      StepsKeepSane(fold, w, data, n - 1);
      NextUpsert(TablesOf(w), data, n - 1);
      StepIsUpsert(fold, Steps(fold, w, data, n - 1), data[n - 1]);
    }
  }

  lemma UnraisedIsUpsertAll(fold: Fold, purged: Permissions, nextId: int, data: seq<Permission>)
    requires UniquePairs(purged) && IdsBelow(purged, nextId)
    ensures var w := Upserted(fold, purged, nextId, data);
            !w.raised ==> Tables(w.stored, w.nextId, w.created) == UpsertAll(Tables(purged, nextId, map[]), data)
  {
    var start := Work(purged, map[], nextId, map[], false);
    var w := Steps(fold, start, data, |data|);
    assert data[..|data|] == data && TablesOf(start) == Tables(purged, nextId, map[]);
    if !w.raised { StepsAreUpserts(fold, start, data, |data|); }
  }

  // ---------------------------------------------------------------------------
  // When a run raises.

  predicate IsNew(purged: Permissions, p: Permission) { !HasPair(purged, p) }

  /** How many flushes come before the one that writes entry `n`. */
  function Flush(purged: Permissions, data: seq<Permission>, n: nat): nat
    requires n <= |data|
  {
    if n == 0 then 0 else Flush(purged, data, n - 1) + if IsNew(purged, data[n - 1]) then 1 else 0
  }

  /** Row `i` is itself renamed, and that is written before entry `k`: in an earlier
      flush, or in the same one if `k` is new or updates a row of higher id. */
  ghost predicate RenamedBefore(purged: Permissions, data: seq<Permission>, i: int, k: nat)
    requires i in purged && k < |data|
  {
    exists m :: 0 <= m < |data| && SamePair(purged[i], data[m]) && WrittenBefore(purged, data, i, m, k)
  }

  ghost predicate WrittenBefore(purged: Permissions, data: seq<Permission>, i: int, m: nat, k: nat)
    requires m < |data| && k < |data|
  {
    || Flush(purged, data, m) < Flush(purged, data, k)
    || (Flush(purged, data, m) == Flush(purged, data, k) && (IsNew(purged, data[k]) || i < IdOfPair(purged, data[k])))
  }

  /** Row `i` stands in the way of entry `k`: its pair differs only in case or outer
      blanks, or it has the name and still has it when `k` is written. */
  ghost predicate Blocks(fold: Fold, purged: Permissions, data: seq<Permission>, i: int, k: nat)
    requires i in purged && k < |data|
  {
    && !SamePair(purged[i], data[k])
    && ((fold(purged[i].resource) == fold(data[k].resource) && fold(purged[i].action) == fold(data[k].action))
        || (purged[i].name == data[k].name && !RenamedBefore(purged, data, i, k)))
  }

  ghost predicate Blocked(fold: Fold, purged: Permissions, data: seq<Permission>) {
    exists i, k :: i in purged && 0 <= k < |data| && Blocks(fold, purged, data, i, k)
  }

  lemma {:induction false} FlushGrows(purged: Permissions, data: seq<Permission>, m: nat, n: nat)
    requires m <= n <= |data|
    ensures Flush(purged, data, m) <= Flush(purged, data, n)
    ensures m < n && IsNew(purged, data[m]) ==> Flush(purged, data, m) < Flush(purged, data, n)
  {
    if m < n { FlushGrows(purged, data, m, n - 1); }
  }

  predicate OldRows(purged: Permissions, data: seq<Permission>, n: nat, stored: Permissions)
    requires n <= |data|
  {
    forall i | i in purged :: i in stored && OldRow(purged, data, n, i, stored[i])
  }

  predicate NewRows(purged: Permissions, data: seq<Permission>, n: nat, stored: Permissions)
    requires n <= |data|
  {
    forall i | i in stored && i !in purged :: exists c :: 0 <= c < n && IsNew(purged, data[c]) && stored[i] == data[c]
  }

  /** `p` is an entry that waits to be written to row `i`. */
  predicate Waits(purged: Permissions, data: seq<Permission>, n: nat, i: int, p: Permission)
    requires n <= |data| && i in purged
  {
    exists m :: 0 <= m < n && Flush(purged, data, m) == Flush(purged, data, n) && SamePair(purged[i], data[m])
      && p == data[m]
  }

  predicate Waiting(purged: Permissions, data: seq<Permission>, n: nat, dirty: Permissions)
    requires n <= |data|
  {
    && (forall i | i in dirty :: i in purged && Waits(purged, data, n, i, dirty[i]))
    && (forall i, m | i in purged && 0 <= m < n && SamePair(purged[i], data[m])
                      && Flush(purged, data, m) == Flush(purged, data, n) :: i in dirty)
  }

  /** What is stored and what waits after `n` entries without an error. */
  predicate Describes(purged: Permissions, data: seq<Permission>, n: nat, w: Work)
    requires n <= |data|
  {
    OldRows(purged, data, n, w.stored) && NewRows(purged, data, n, w.stored) && Waiting(purged, data, n, w.dirty)
  }

  /** An old row is as the last flush left it. */
  predicate OldRow(purged: Permissions, data: seq<Permission>, n: nat, i: int, row: Permission)
    requires n <= |data| && i in purged
  {
    && (row == purged[i] || exists m :: 0 <= m < n && row == data[m] && SamePair(purged[i], data[m]))
    && forall m | 0 <= m < |data| && SamePair(purged[i], data[m]) ::
         if Flush(purged, data, m) < Flush(purged, data, n) then row == data[m] else row == purged[i]
  }

  /** Pairs tell listed entries apart. */
  lemma OneEntryPerPair(fold: Fold, data: seq<Permission>, a: nat, b: nat)
    requires ConformingList(fold, data) && a < |data| && b < |data| && SamePair(data[a], data[b])
    ensures a == b
  {
    if a != b { assert Conflict(fold, data[a], data[b]); }
  }

  /** What waits for the coming flush is due in it, and nothing else is. */
  lemma WaitingIsDue(fold: Fold, purged: Permissions, data: seq<Permission>, n: nat, w: Work, i: int, m: nat)
    requires ConformingList(fold, data) && n <= |data| && Describes(purged, data, n, w)
    requires n == |data| || IsNew(purged, data[n])
    requires i in purged && m < |data| && SamePair(purged[i], data[m])
    ensures Flush(purged, data, m) == Flush(purged, data, n) ==> i in w.dirty && m < n
    ensures i in w.dirty ==> w.dirty[i] == data[m] && Flush(purged, data, m) == Flush(purged, data, n) && m < n
  {
    if i in w.dirty {
      var k :| 0 <= k < n && Flush(purged, data, k) == Flush(purged, data, n) && SamePair(purged[i], data[k])
          && w.dirty[i] == data[k];
      OneEntryPerPair(fold, data, k, m);
    }
    if n < m { FlushGrows(purged, data, n, m); }
  }

  /** A row created in this run conflicts with no other entry. */
  lemma NewRowIsFree(fold: Fold, purged: Permissions, data: seq<Permission>, n: nat, stored: Permissions, i: int,
                     k: nat)
    requires ConformingList(fold, data) && n <= |data| && NewRows(purged, data, n, stored)
    requires i in stored && k < |data| && Conflict(fold, stored[i], data[k]) && (IsNew(purged, data[k]) ==> n <= k)
    ensures i in purged
  {
  }

  lemma IsNewIff(purged: Permissions, data: seq<Permission>, n: nat, w: Work, fold: Fold)
    requires ConformingList(fold, data) && n < |data| && Describes(purged, data, n, w)
    ensures HasPair(w.stored, data[n]) <==> !IsNew(purged, data[n])
    ensures forall i | i in w.stored && SamePair(w.stored[i], data[n]) :: i in purged && SamePair(purged[i], data[n])
  {
    forall i | i in w.stored && SamePair(w.stored[i], data[n]) ensures i in purged && SamePair(purged[i], data[n]) {
      NewRowIsFree(fold, purged, data, n, w.stored, i, n);
      assert OldRow(purged, data, n, i, w.stored[i]);
    }
    if i :| i in purged && SamePair(purged[i], data[n]) {
      assert OldRow(purged, data, n, i, w.stored[i]);
      assert SamePair(w.stored[i], data[n]);
    }
  }

  lemma UpdateDescribed(fold: Fold, purged: Permissions, data: seq<Permission>, n: nat, w: Work)
    requires ConformingList(fold, data) && n < |data| && Describes(purged, data, n, w) && Sane(w)
    requires !w.raised && HasPair(w.stored, data[n])
    ensures Describes(purged, data, n + 1, Step(fold, w, data[n]))
  {
    IsNewIff(purged, data, n, w, fold);
    var i := IdOfPair(w.stored, data[n]);
    var v := Step(fold, w, data[n]);
    assert Flush(purged, data, n + 1) == Flush(purged, data, n);
    forall j | j in purged ensures OldRow(purged, data, n + 1, j, v.stored[j]) {
      assert OldRow(purged, data, n, j, w.stored[j]);
    }
    forall j | j in v.dirty ensures j in purged && Waits(purged, data, n + 1, j, v.dirty[j]) {
      if j != i { assert Waits(purged, data, n, j, w.dirty[j]); }
    }
    forall j, m | j in purged && 0 <= m < n + 1 && SamePair(purged[j], data[m])
                  && Flush(purged, data, m) == Flush(purged, data, n + 1)
      ensures j in v.dirty
    {
      if m == n {
        assert OldRow(purged, data, n, j, w.stored[j]);
        assert SamePair(w.stored[j], data[n]);
      }
    }
  }

  lemma FlushedRow(fold: Fold, purged: Permissions, data: seq<Permission>, n: nat, w: Work, i: int)
    requires ConformingList(fold, data) && n < |data| && Describes(purged, data, n, w) && IsNew(purged, data[n])
    requires i in purged
    ensures OldRow(purged, data, n + 1, i, Seen(w)[i])
  {
    assert OldRow(purged, data, n, i, w.stored[i]);
    forall m | 0 <= m < |data| && SamePair(purged[i], data[m])
      ensures if Flush(purged, data, m) < Flush(purged, data, n + 1) then Seen(w)[i] == data[m]
              else Seen(w)[i] == purged[i]
    {
      WaitingIsDue(fold, purged, data, n, w, i, m);
    }
    if i in w.dirty { assert Waits(purged, data, n, i, w.dirty[i]); }
  }

  lemma InsertDescribed(fold: Fold, purged: Permissions, data: seq<Permission>, n: nat, w: Work)
    requires ConformingList(fold, data) && n < |data| && Describes(purged, data, n, w) && Sane(w)
    requires !Step(fold, w, data[n]).raised && !HasPair(w.stored, data[n])
    ensures Describes(purged, data, n + 1, Step(fold, w, data[n]))
  {
    IsNewIff(purged, data, n, w, fold);
    var v := Step(fold, w, data[n]);
    assert w.nextId !in w.stored;
    assert OldRows(purged, data, n + 1, v.stored) by {
      forall i | i in purged ensures i in v.stored && OldRow(purged, data, n + 1, i, v.stored[i]) {
        FlushedRow(fold, purged, data, n, w, i);
      }
    }
    assert NewRows(purged, data, n + 1, v.stored) by { InsertKeepsNewRows(purged, data, n, w); }
    forall i, m | i in purged && 0 <= m < n + 1 && SamePair(purged[i], data[m])
      ensures Flush(purged, data, m) < Flush(purged, data, n + 1)
    {
      FlushGrows(purged, data, m, n);
    }
  }

  lemma InsertKeepsNewRows(purged: Permissions, data: seq<Permission>, n: nat, w: Work)
    requires n < |data| && Describes(purged, data, n, w) && IsNew(purged, data[n])
    ensures NewRows(purged, data, n + 1, Seen(w)[w.nextId := data[n]])
  {
    var stored := Seen(w)[w.nextId := data[n]];
    forall i | i in stored && i !in purged
      ensures exists c :: 0 <= c < n + 1 && IsNew(purged, data[c]) && stored[i] == data[c]
    {
      if i != w.nextId { var c :| 0 <= c < n && IsNew(purged, data[c]) && w.stored[i] == data[c]; }
    }
  }

  /** A flush fails exactly when a row blocks one of the entries it writes. */
  lemma FlushFailsIff(fold: Fold, purged: Permissions, data: seq<Permission>, n: nat, w: Work)
    requires ConformingList(fold, data) && Conforms(fold, purged) && n <= |data| && Describes(purged, data, n, w)
    requires n == |data| || IsNew(purged, data[n])
    ensures FlushFails(fold, w.stored, w.dirty) <==>
            exists i, k :: i in purged && 0 <= k < n && Flush(purged, data, k) == Flush(purged, data, n)
              && Blocks(fold, purged, data, i, k)
  {
    if i, k :|
        && i in purged && 0 <= k < n && Flush(purged, data, k) == Flush(purged, data, n)
        && Blocks(fold, purged, data, i, k)
    {
      BlockedFlushFails(fold, purged, data, n, w, i, k);
    }
    if a, j :| a in w.dirty && j in w.stored && j != a && Conflict(fold, RowAt(w.stored, w.dirty, a, j), w.dirty[a]) {
      var k :| 0 <= k < n && Flush(purged, data, k) == Flush(purged, data, n) && SamePair(purged[a], data[k])
          && w.dirty[a] == data[k];
      FailingFlushIsBlocked(fold, purged, data, n, w, a, j, k);
    }
  }

  lemma BlockedFlushFails(fold: Fold, purged: Permissions, data: seq<Permission>, n: nat, w: Work, i: int, k: nat)
    requires ConformingList(fold, data) && Conforms(fold, purged) && n <= |data| && Describes(purged, data, n, w)
    requires n == |data| || IsNew(purged, data[n])
    requires i in purged && k < n && Flush(purged, data, k) == Flush(purged, data, n)
             && Blocks(fold, purged, data, i, k)
    ensures FlushFails(fold, w.stored, w.dirty)
  {
    FlushGrows(purged, data, k, n);
    var a := IdOfPair(purged, data[k]);
    WaitingIsDue(fold, purged, data, n, w, a, k);
    assert a != i && !Conflict(fold, purged[a], purged[i]);
    assert OldRow(purged, data, n, i, w.stored[i]);
    if m :| 0 <= m < |data| && SamePair(purged[i], data[m]) {
      assert !WrittenBefore(purged, data, i, m, k);
      WaitingIsDue(fold, purged, data, n, w, i, m);
    }
    assert RowAt(w.stored, w.dirty, a, i) == purged[i];
  }

  lemma OneEntry(fold: Fold, data: seq<Permission>, m: nat, p: Permission)
    requires ConformingList(fold, data) && m < |data| && SamePair(p, data[m])
    ensures forall k | 0 <= k < |data| && SamePair(p, data[k]) :: k == m
  {
    forall k | 0 <= k < |data| && SamePair(p, data[k]) ensures k == m { OneEntryPerPair(fold, data, k, m); }
  }

  lemma OneRowPerPair(purged: Permissions, a: int, p: Permission)
    requires UniquePairs(purged) && a in purged && SamePair(purged[a], p)
    ensures a == IdOfPair(purged, p)
    ensures forall j | j in purged && j != a :: !SamePair(purged[j], p)
  {
  }

  /** What row `j` holds when the entry `k` is written to row `a`. */
  lemma RowAtWrite(fold: Fold, purged: Permissions, data: seq<Permission>, n: nat, w: Work, a: int, j: int, k: nat)
    requires ConformingList(fold, data) && Conforms(fold, purged) && n <= |data| && Describes(purged, data, n, w)
    requires n == |data| || IsNew(purged, data[n])
    requires a in purged && j in purged && a != j && k < n && SamePair(purged[a], data[k])
             && Flush(purged, data, k) == Flush(purged, data, n)
    ensures var row := RowAt(w.stored, w.dirty, a, j);
            if RenamedBefore(purged, data, j, k) then exists m :: 0 <= m < |data| && m != k && row == data[m]
            else row == purged[j]
  {
    assert OldRow(purged, data, n, j, w.stored[j]);
    assert UniquePairs(purged);
    OneRowPerPair(purged, a, data[k]);
    if m :| 0 <= m < |data| && SamePair(purged[j], data[m]) {
      OneEntry(fold, data, m, purged[j]);
      WaitingIsDue(fold, purged, data, n, w, j, m);
      assert RenamedBefore(purged, data, j, k) <==> WrittenBefore(purged, data, j, m, k);
    }
  }

  lemma FailingFlushIsBlocked(fold: Fold, purged: Permissions, data: seq<Permission>, n: nat, w: Work, a: int, j: int,
                              k: nat)
    requires ConformingList(fold, data) && Conforms(fold, purged) && n <= |data| && Describes(purged, data, n, w)
    requires n == |data| || IsNew(purged, data[n])
    requires a in purged && a in w.dirty && j in w.stored && j != a
             && Conflict(fold, RowAt(w.stored, w.dirty, a, j), w.dirty[a])
    requires k < n && Flush(purged, data, k) == Flush(purged, data, n) && SamePair(purged[a], data[k])
             && w.dirty[a] == data[k]
    ensures j in purged && Blocks(fold, purged, data, j, k)
  {
    assert j in w.dirty ==> j in purged;
    if j !in purged { NewRowIsFree(fold, purged, data, n, w.stored, j, k); }
    RowAtWrite(fold, purged, data, n, w, a, j, k);
    assert !Conflict(fold, purged[a], purged[j]);
  }

  lemma InsertFailsIff(fold: Fold, purged: Permissions, data: seq<Permission>, n: nat, w: Work)
    requires ConformingList(fold, data) && Conforms(fold, purged) && n < |data| && Describes(purged, data, n, w)
    requires IsNew(purged, data[n])
    ensures InsertFails(fold, Seen(w), data[n]) <==> exists i :: i in purged && Blocks(fold, purged, data, i, n)
  {
    if i :| i in purged && Blocks(fold, purged, data, i, n) {
      FlushedRow(fold, purged, data, n, w, i);
      assert SamePair(Seen(w)[i], purged[i]);
      assert SameKey(fold, purged[i], data[n])
        || forall m | 0 <= m < |data| && SamePair(purged[i], data[m]) :: !WrittenBefore(purged, data, i, m, n);
      assert Conflict(fold, Seen(w)[i], data[n]);
    }
    if j :| j in Seen(w) && Conflict(fold, Seen(w)[j], data[n]) {
      assert j in w.dirty ==> j in purged;
      if j !in purged { NewRowIsFree(fold, purged, data, n, w.stored, j, n); }
      FlushedRow(fold, purged, data, n, w, j);
      if m :| 0 <= m < |data| && SamePair(purged[j], data[m]) {
        OneEntry(fold, data, m, purged[j]);
      }
      assert Blocks(fold, purged, data, j, n);
    }
  }

  /** No entry before `n` that is written in an earlier flush than `flush` is blocked. */
  ghost predicate NoneBlocked(fold: Fold, purged: Permissions, data: seq<Permission>, n: nat, flush: nat)
    requires n <= |data|
  {
    forall i, k | i in purged && 0 <= k < n && Flush(purged, data, k) < flush :: !Blocks(fold, purged, data, i, k)
  }

  /** After `n` entries: an error only if some row blocks an entry; otherwise none of the
      entries written so far was blocked. */
  ghost predicate Progress(fold: Fold, purged: Permissions, data: seq<Permission>, n: nat, w: Work)
    requires n <= |data|
  {
    && Sane(w)
    && (w.raised ==> Blocked(fold, purged, data))
    && (!w.raised ==> Describes(purged, data, n, w) && NoneBlocked(fold, purged, data, n, Flush(purged, data, n)))
  }

  lemma StartsUnblocked(fold: Fold, purged: Permissions, nextId: int, data: seq<Permission>)
    requires Conforms(fold, purged) && IdsBelow(purged, nextId)
    ensures Progress(fold, purged, data, 0, Work(purged, map[], nextId, map[], false))
  {
  }

  lemma StepProgresses(fold: Fold, purged: Permissions, data: seq<Permission>, n: nat, w: Work)
    requires ConformingList(fold, data) && Conforms(fold, purged) && n < |data| && Progress(fold, purged, data, n, w)
    ensures Progress(fold, purged, data, n + 1, Step(fold, w, data[n]))
  {
    StepKeepsSane(fold, w, data[n]);
    if !w.raised {
      IsNewIff(purged, data, n, w, fold);
      if HasPair(w.stored, data[n]) {
        UpdateDescribed(fold, purged, data, n, w);
      } else {
        FlushFailsIff(fold, purged, data, n, w);
        InsertFailsIff(fold, purged, data, n, w);
        if !Step(fold, w, data[n]).raised { InsertDescribed(fold, purged, data, n, w); }
      }
    }
  }

  lemma {:induction false} StepsProgress(fold: Fold, purged: Permissions, nextId: int, data: seq<Permission>, n: nat)
    requires ConformingList(fold, data) && Conforms(fold, purged) && IdsBelow(purged, nextId) && n <= |data|
    ensures Progress(fold, purged, data, n, Steps(fold, Work(purged, map[], nextId, map[], false), data, n))
  {
    if n == 0 {
      StartsUnblocked(fold, purged, nextId, data);
    } else {
      StepsProgress(fold, purged, nextId, data, n - 1);
      StepProgresses(fold, purged, data, n - 1, Steps(fold, Work(purged, map[], nextId, map[], false), data, n - 1));
    }
  }

  /** The permission commit fails exactly when some row that the purge leaves blocks a
      listed entry. */
  lemma UpsertRaisesIff(fold: Fold, purged: Permissions, nextId: int, data: seq<Permission>)
    requires ConformingList(fold, data) && Conforms(fold, purged) && IdsBelow(purged, nextId)
    ensures Upserted(fold, purged, nextId, data).raised <==> Blocked(fold, purged, data)
  {
    var w := Steps(fold, Work(purged, map[], nextId, map[], false), data, |data|);
    StepsProgress(fold, purged, nextId, data, |data|);
    if !w.raised {
      FlushFailsIff(fold, purged, data, |data|, w);
      if i, k :| i in purged && 0 <= k < |data| && Blocks(fold, purged, data, i, k)
    {
        FlushGrows(purged, data, k, |data|);
      }
    }
  }

  /** So without a clash nothing fails, and a name held by a permission that stays
      unlisted always does. */
  lemma ClashesDecide(fold: Fold, purged: Permissions, nextId: int, data: seq<Permission>)
    requires ConformingList(fold, data) && Conforms(fold, purged) && IdsBelow(purged, nextId)
    ensures NoNameClash(purged, data)
            && (forall i, k | i in purged && 0 <= k < |data| && SameKey(fold, purged[i], data[k]) ::
               SamePair(purged[i], data[k]))
            ==> !Upserted(fold, purged, nextId, data).raised
    ensures (exists i, k ::
               i in purged && 0 <= k < |data| && purged[i].name == data[k].name && !PairListed(data, purged[i]))
            ==> Upserted(fold, purged, nextId, data).raised
  {
    UpsertRaisesIff(fold, purged, nextId, data);
    if i, k :| i in purged && 0 <= k < |data| && purged[i].name == data[k].name && !PairListed(data, purged[i]) {
      assert Blocks(fold, purged, data, i, k) by {
        assert !SamePair(data[k], purged[i]);
        assert !RenamedBefore(purged, data, i, k);
      }
    }
  }

  /** A listed permission, or an earlier one that stays unlisted. */
  predicate Remains(purged: Permissions, data: seq<Permission>, p: Permission) {
    p in data || (Has(purged, p) && !PairListed(data, p))
  }

  lemma UnlistedIsFree(fold: Fold, purged: Permissions, data: seq<Permission>, p: Permission, k: nat)
    requires !Blocked(fold, purged, data) && k < |data| && Has(purged, p) && !PairListed(data, p)
    ensures !Conflict(fold, p, data[k])
  {
    var i :| i in purged && purged[i] == p;
    assert !SamePair(data[k], p) && !RenamedBefore(purged, data, i, k);
    assert !Blocks(fold, purged, data, i, k);
  }

  lemma RemainingAreFree(fold: Fold, purged: Permissions, data: seq<Permission>, p: Permission, q: Permission)
    requires ConformingList(fold, data) && Conforms(fold, purged) && !Blocked(fold, purged, data)
    requires Remains(purged, data, p) && Remains(purged, data, q) && !SamePair(p, q)
    ensures !Conflict(fold, p, q)
  {
    if p in data {
      var k :| 0 <= k < |data| && data[k] == p;
      if q !in data { UnlistedIsFree(fold, purged, data, q, k); }
    } else if q in data {
      var k :| 0 <= k < |data| && data[k] == q;
      UnlistedIsFree(fold, purged, data, p, k);
    }
  }

  /** Nothing blocks an entry that is there as listed. */
  lemma ListedIsFree(fold: Fold, purged: Permissions, data: seq<Permission>)
    requires Conforms(fold, purged)
    requires forall k | 0 <= k < |data| && !IsLegacy(data[k]) :: Has(purged, data[k])
    requires forall i, k | i in purged && 0 <= k < |data| && IsLegacy(data[k]) :: !Conflict(fold, purged[i], data[k])
    ensures !Blocked(fold, purged, data)
  {
    forall i, k | i in purged && 0 <= k < |data| ensures !Blocks(fold, purged, data, i, k) {
      if !IsLegacy(data[k]) { var j :| j in purged && purged[j] == data[k]; }
    }
  }

  /** A run that does not fail leaves a table the indexes admit, and one on which the next
      run does not fail. */
  lemma SeededConforms(fold: Fold, perms: Permissions, nextId: int, data: seq<Permission>)
    requires ConformingList(fold, data) && Conforms(fold, perms) && IdsBelow(perms, nextId)
    requires !Upserted(fold, Purged(perms), nextId, data).raised
    ensures var n := AfterUpserts(perms, nextId, data);
            Conforms(fold, n.perms) && !Upserted(fold, Purged(n.perms), n.nextId, data).raised
  {
    var n := AfterUpserts(perms, nextId, data);
    PurgeKeeps(perms, nextId);
    UpsertRaisesIff(fold, Purged(perms), nextId, data);
    forall q ensures Has(n.perms, q) <==> Remains(Purged(perms), data, q) { SeededPermissions(perms, nextId, data, q); }
    forall i, j | i in n.perms && j in n.perms && i != j ensures !Conflict(fold, n.perms[i], n.perms[j]) {
      SeededPermissions(perms, nextId, data, n.perms[i]);
      assert Has(n.perms, n.perms[i]) && Has(n.perms, n.perms[j]);
      RemainingAreFree(fold, Purged(perms), data, n.perms[i], n.perms[j]);
    }
    SeededPermissions(perms, nextId, data, Permission("", "", "", ""));
    SecondRunIsFree(fold, n.perms, n.nextId, data);
  }

  lemma SecondRunIsFree(fold: Fold, perms: Permissions, nextId: int, data: seq<Permission>)
    requires ConformingList(fold, data) && Conforms(fold, perms) && IdsBelow(perms, nextId)
    requires forall q | q in data :: Has(perms, q)
    ensures !Upserted(fold, Purged(perms), nextId, data).raised
  {
    var purged := Purged(perms);
    PurgeKeeps(perms, nextId);
    forall k | 0 <= k < |data| && !IsLegacy(data[k]) ensures Has(purged, data[k]) { assert data[k] in data; }
    forall i, k | i in purged && 0 <= k < |data| && IsLegacy(data[k]) ensures !Conflict(fold, purged[i], data[k]) {
      assert data[k] in data;
      var j :| j in perms && perms[j] == data[k];
    }
    ListedIsFree(fold, purged, data);
    UpsertRaisesIff(fold, purged, nextId, data);
  }

  // ---------------------------------------------------------------------------
  // When the group commit fails.

  predicate NamesApart(fold: Fold, names: set<string>) {
    forall g, h | g in names && h in names && fold(g) == fold(h) :: g == h
  }

  predicate GroupListed(specs: seq<GroupSpec>, g: string) {
    exists k :: 0 <= k < |specs| && specs[k].name == g
  }

  lemma {:induction false} ResetGroupNames(groups: Groups, created: map<string, int>, specs: seq<GroupSpec>, g: string)
    ensures g in SetGroups(groups, created, specs) <==> g in groups || GroupListed(specs, g)
    decreases |specs|
  {
    if specs != [] {
      var front, last := specs[..|specs| - 1], specs[|specs| - 1];
      ResetGroupNames(groups, created, front, g);
      assert specs == front + [last];
      assert GroupListed(specs, g) <==> GroupListed(front, g) || last.name == g;
    }
  }

  /** The group commit fails exactly when the groups it would leave, old and new, were
      not apart up to case and outer blanks. */
  lemma GroupsFailIff(fold: Fold, groups: Groups, created: map<string, int>, specs: seq<GroupSpec>)
    requires DistinctSpecs(specs) && NamesApart(fold, groups.Keys)
    ensures GroupsFail(fold, groups, specs) <==> !NamesApart(fold, SetGroups(groups, created, specs).Keys)
  {
    var after := SetGroups(groups, created, specs);
    forall g ensures g in after <==> g in groups || GroupListed(specs, g) {
      ResetGroupNames(groups, created, specs, g);
    }
    if GroupsFail(fold, groups, specs) {
      var k :| 0 <= k < |specs| && specs[k].name !in groups && Taken(fold, groups, specs, k);
      assert specs[k].name in after;
      if m :| 0 <= m < k && specs[m].name !in groups && fold(specs[m].name) == fold(specs[k].name) {
        assert specs[m].name in after;
      }
    } else {
      forall g, h | g in after && h in after && fold(g) == fold(h) ensures g == h {
        if g !in groups && h !in groups {
          var j :| 0 <= j < |specs| && specs[j].name == g;
          var k :| 0 <= k < |specs| && specs[k].name == h;
          assert !Taken(fold, groups, specs, j) && !Taken(fold, groups, specs, k);
        }
      }
    }
  }
}
