/** `backend/scripts/seed_permissions.py`: what the purge of legacy permissions, the upsert
    of the listed ones and the reset of the default groups amount to. */
module PermissionSeeder {

  /** A permission's columns; also one entry of permissions_data. */
  datatype Permission = Permission(name: string, resource: string, action: string, description: string)

  /** A default group and the permission names it lists. */
  datatype GroupSpec = GroupSpec(name: string, members: seq<string>)

  datatype Grant = Grant(user: string, permission: int)

  type Permissions = map<int, Permission>
  type Groups = map<string, set<int>>

  const LEGACY := {"sales", "inventory", "purchasing", "finance", "warehouse", "hr", "support", "employees", "reports"}

  predicate SamePair(p: Permission, q: Permission) {
    p.resource == q.resource && p.action == q.action
  }

  predicate UniquePairs(perms: Permissions) {
    forall i, j | i in perms && j in perms && SamePair(perms[i], perms[j]) :: i == j
  }

  /** What permissions_data satisfies: no pair and no name twice. */
  predicate DistinctData(data: seq<Permission>) {
    forall i, j | 0 <= i < j < |data| :: !SamePair(data[i], data[j]) && data[i].name != data[j].name
  }

  /** No existing permission carries the name of a listed one with another pair. */
  predicate NoNameClash(perms: Permissions, data: seq<Permission>) {
    forall i, k | i in perms && 0 <= k < |data| && perms[i].name == data[k].name :: SamePair(perms[i], data[k])
  }

  predicate IdsBelow(perms: Permissions, next: int) {
    forall i | i in perms :: i < next
  }

  predicate Has(perms: Permissions, p: Permission) {
    exists i :: i in perms && perms[i] == p
  }

  // ---------------------------------------------------------------------------

  predicate IsLegacy(p: Permission) { p.resource in LEGACY }

  function Purged(perms: Permissions): Permissions {
    map i | i in perms && !IsLegacy(perms[i]) :: perms[i]
  }

  /** Permissions, next id, and created_permissions by name. */
  datatype Tables = Tables(perms: Permissions, nextId: int, created: map<string, int>)

  predicate HasPair(perms: Permissions, p: Permission) {
    exists i :: i in perms && SamePair(perms[i], p)
  }

  ghost function IdOfPair(perms: Permissions, p: Permission): (i: int)
    requires HasPair(perms, p)
    ensures i in perms && SamePair(perms[i], p)
  {
    var i :| i in perms && SamePair(perms[i], p); i
  }

  ghost function Upsert(t: Tables, p: Permission): Tables {
    if HasPair(t.perms, p) then
      var i := IdOfPair(t.perms, p);
      t.(perms := t.perms[i := p], created := t.created[p.name := i])
    else
      Tables(t.perms[t.nextId := p], t.nextId + 1, t.created[p.name := t.nextId])
  }

  ghost function UpsertAll(t: Tables, data: seq<Permission>): Tables {
    if data == [] then t else Upsert(UpsertAll(t, data[..|data| - 1]), data[|data| - 1])
  }

  ghost function AfterUpserts(perms: Permissions, nextId: int, data: seq<Permission>): Tables {
    UpsertAll(Tables(Purged(perms), nextId, map[]), data)
  }

  /** `perms(*names)`: the permissions among the named ones that were created. */
  function Named(created: map<string, int>, names: seq<string>): set<int> {
    set n | n in names && n in created :: created[n]
  }

  function PurgedGroups(groups: Groups, gone: set<int>): Groups {
    map g | g in groups :: groups[g] - gone
  }

  function PurgedGrants(grants: set<Grant>, gone: set<int>): set<Grant> {
    set g | g in grants && g.permission !in gone
  }

  function SetGroups(groups: Groups, created: map<string, int>, specs: seq<GroupSpec>): Groups {
    if specs == [] then groups
    else
      var last := specs[|specs| - 1];
      SetGroups(groups, created, specs[..|specs| - 1])[last.name := Named(created, last.members)]
  }

  function LegacyIds(perms: Permissions): set<int> {
    set i | i in perms && IsLegacy(perms[i])
  }

  ghost function SeededGroups(perms: Permissions, nextId: int, groups: Groups, data: seq<Permission>,
                              specs: seq<GroupSpec>): Groups {
    SetGroups(PurgedGroups(groups, LegacyIds(perms)), AfterUpserts(perms, nextId, data).created, specs)
  }

  // ---------------------------------------------------------------------------
  // Upserting.

  lemma UpsertKeepsOrder(t: Tables, p: Permission)
    requires UniquePairs(t.perms) && IdsBelow(t.perms, t.nextId)
    ensures var n := Upsert(t, p);
            && UniquePairs(n.perms) && IdsBelow(n.perms, n.nextId) && t.nextId <= n.nextId
            && p.name in n.created && n.created[p.name] in n.perms && n.perms[n.created[p.name]] == p
  {
  }

  /** An upsert replaces whatever had its pair, and nothing else. */
  lemma UpsertHas(t: Tables, p: Permission, q: Permission)
    requires UniquePairs(t.perms) && IdsBelow(t.perms, t.nextId)
    ensures Has(Upsert(t, p).perms, q) <==> q == p || (Has(t.perms, q) && !SamePair(q, p))
  {
    var n := Upsert(t, p);
    UpsertKeepsOrder(t, p);
    if Has(t.perms, q) && !SamePair(q, p) {
      var i :| i in t.perms && t.perms[i] == q;
      assert i in n.perms && n.perms[i] == q;
    }
    assert n.perms[n.created[p.name]] == p;
  }

  predicate PairListed(data: seq<Permission>, q: Permission) {
    exists k :: 0 <= k < |data| && SamePair(data[k], q)
  }

  lemma PairListedLast(data: seq<Permission>, q: Permission)
    requires data != []
    ensures PairListed(data, q) <==> PairListed(data[..|data| - 1], q) || SamePair(data[|data| - 1], q)
  {
    var front := data[..|data| - 1];
    if PairListed(front, q) {
      var k :| 0 <= k < |front| && SamePair(front[k], q);
      assert SamePair(data[k], q);
    }
  }

  lemma {:induction false} UpsertAllKeepsOrder(t: Tables, data: seq<Permission>)
    requires UniquePairs(t.perms) && IdsBelow(t.perms, t.nextId)
    ensures var n := UpsertAll(t, data); UniquePairs(n.perms) && IdsBelow(n.perms, n.nextId)
    decreases |data|
  {
    if data != [] {
      var front := data[..|data| - 1];
      UpsertAllKeepsOrder(t, front);
      UpsertKeepsOrder(UpsertAll(t, front), data[|data| - 1]);
    }
  }

  lemma InFront(data: seq<Permission>, q: Permission)
    requires data != [] && DistinctData(data)
    ensures var front, p := data[..|data| - 1], data[|data| - 1];
            && DistinctData(front)
            && (q in data <==> q in front || q == p)
            && (q in front ==> !SamePair(q, p))
  {
    var front, p := data[..|data| - 1], data[|data| - 1];
    assert data == front + [p];
    if q in front {
      var k :| 0 <= k < |front| && front[k] == q;
      assert data[k] == q;
    }
  }

  /** After the upserts the permissions are the listed ones, and those there before
      whose pair is not listed. */
  lemma {:induction false} UpsertAllHas(t: Tables, data: seq<Permission>, q: Permission)
    requires UniquePairs(t.perms) && IdsBelow(t.perms, t.nextId) && DistinctData(data)
    ensures Has(UpsertAll(t, data).perms, q) <==> q in data || (Has(t.perms, q) && !PairListed(data, q))
    decreases |data|
  {
    if data != [] {
      var front, p := data[..|data| - 1], data[|data| - 1];
      InFront(data, q);
      UpsertAllHas(t, front, q);
      UpsertAllKeepsOrder(t, front);
      UpsertHas(UpsertAll(t, front), p, q);
      PairListedLast(data, q);
    }
  }

  /** created_permissions holds, for each listed name, the id of that permission. */
  lemma {:induction false} CreatedAreListed(t: Tables, data: seq<Permission>, k: nat)
    requires UniquePairs(t.perms) && IdsBelow(t.perms, t.nextId) && DistinctData(data) && k < |data|
    ensures var n := UpsertAll(t, data);
            && data[k].name in n.created && n.created[data[k].name] in n.perms
            && n.perms[n.created[data[k].name]] == data[k]
    decreases |data|
  {
    var front, p := data[..|data| - 1], data[|data| - 1];
    UpsertAllKeepsOrder(t, front);
    var m := UpsertAll(t, front);
    UpsertKeepsOrder(m, p);
    if k < |front| {
      CreatedAreListed(t, front, k);
      assert !SamePair(data[k], p) && data[k].name != p.name;
    }
  }

  lemma {:induction false} OnlyListedAreCreated(t: Tables, data: seq<Permission>)
    requires t.created == map[]
    ensures forall n | n in UpsertAll(t, data).created :: exists k :: 0 <= k < |data| && data[k].name == n
    decreases |data|
  {
    if data != [] {
      var front := data[..|data| - 1];
      OnlyListedAreCreated(t, front);
      forall n | n in UpsertAll(t, front).created ensures exists k :: 0 <= k < |data| && data[k].name == n {
        var k :| 0 <= k < |front| && front[k].name == n;
        assert data[k].name == n;
      }
      assert data[|data| - 1].name == data[|data| - 1].name;
    }
  }

  // ---------------------------------------------------------------------------
  // The state after a run.

  lemma PurgeKeeps(perms: Permissions, nextId: int)
    requires UniquePairs(perms) && IdsBelow(perms, nextId)
    ensures UniquePairs(Purged(perms)) && IdsBelow(Purged(perms), nextId)
    ensures forall q :: Has(Purged(perms), q) <==> Has(perms, q) && !IsLegacy(q)
  {
    forall q | Has(perms, q) && !IsLegacy(q) ensures Has(Purged(perms), q) {
      var i :| i in perms && perms[i] == q;
      assert i in Purged(perms) && Purged(perms)[i] == q;
    }
  }

  /** The nine modules that once had one coarse resource each. */
  predicate InOldScheme(resource: string) {
    || resource == "sales" || resource == "inventory" || resource == "purchasing" || resource == "finance"
    || resource == "warehouse" || resource == "hr" || resource == "support" || resource == "employees"
    || resource == "reports"
  }

  /** After a run the permissions are exactly the listed ones, once each, and the
      earlier ones that are neither legacy nor of a listed pair. */
  lemma SeededPermissions(perms: Permissions, nextId: int, data: seq<Permission>, q: Permission)
    requires UniquePairs(perms) && IdsBelow(perms, nextId) && DistinctData(data)
    ensures var n := AfterUpserts(perms, nextId, data);
            && UniquePairs(n.perms) && IdsBelow(n.perms, n.nextId)
            && (Has(n.perms, q) <==> q in data || (Has(perms, q) && !PairListed(data, q) && !InOldScheme(q.resource)))
  {
    PurgeKeeps(perms, nextId);
    var start := Tables(Purged(perms), nextId, map[]);
    UpsertAllHas(start, data, q);
    UpsertAllKeepsOrder(start, data);
  }

  /** The permissions a group's ids stand for. */
  predicate GroupHolds(perms: Permissions, members: set<int>, q: Permission) {
    exists i :: i in members && i in perms && perms[i] == q
  }

  /** A default group ends up with exactly the permissions its list names. */
  lemma GroupHoldsItsList(perms: Permissions, nextId: int, data: seq<Permission>, names: seq<string>, q: Permission)
    requires UniquePairs(perms) && IdsBelow(perms, nextId) && DistinctData(data)
    ensures var n := AfterUpserts(perms, nextId, data);
            GroupHolds(n.perms, Named(n.created, names), q) <==> q in data && q.name in names
  {
    PurgeKeeps(perms, nextId);
    var start := Tables(Purged(perms), nextId, map[]);
    var n := UpsertAll(start, data);
    OnlyListedAreCreated(start, data);
    if q in data && q.name in names {
      var k :| 0 <= k < |data| && data[k] == q;
      CreatedAreListed(start, data, k);
      var i := n.created[q.name];
      assert i in Named(n.created, names) && i in n.perms && n.perms[i] == q;
    }
    if GroupHolds(n.perms, Named(n.created, names), q) {
      var i :| i in Named(n.created, names) && i in n.perms && n.perms[i] == q;
      var name :| name in names && name in n.created && n.created[name] == i;
      var k :| 0 <= k < |data| && data[k].name == name;
      CreatedAreListed(start, data, k);
      assert q == data[k];
    }
  }

  predicate DistinctSpecs(specs: seq<GroupSpec>) {
    forall i, j | 0 <= i < j < |specs| :: specs[i].name != specs[j].name
  }

  lemma {:induction false} GroupsAreSet(groups: Groups, created: map<string, int>, specs: seq<GroupSpec>, g: string)
    requires DistinctSpecs(specs)
    ensures var after := SetGroups(groups, created, specs);
            && (forall k | 0 <= k < |specs| && specs[k].name == g ::
                  g in after && after[g] == Named(created, specs[k].members))
            && ((forall k | 0 <= k < |specs| :: specs[k].name != g) ==>
                  (g in after <==> g in groups) && (g in groups ==> after[g] == groups[g]))
    decreases |specs|
  {
    if specs != [] { GroupsAreSet(groups, created, specs[..|specs| - 1], g); }
  }

  /** What a permission becomes: the listed one of its pair, or itself. */
  ghost function Current(data: seq<Permission>, p: Permission): (q: Permission)
    ensures PairListed(data, p) ==> q in data && SamePair(q, p)
    ensures !PairListed(data, p) ==> q == p
  {
    if PairListed(data, p) then
      var k :| 0 <= k < |data| && SamePair(data[k], p); data[k]
    else p
  }

  lemma {:induction false} UpsertAllKeepsIds(t: Tables, data: seq<Permission>, i: int)
    requires UniquePairs(t.perms) && IdsBelow(t.perms, t.nextId) && DistinctData(data) && i in t.perms
    ensures var n := UpsertAll(t, data);
            i in n.perms && SamePair(n.perms[i], t.perms[i]) && (n.perms[i] == t.perms[i] || n.perms[i] in data)
    decreases |data|
  {
    if data != [] {
      var front, p := data[..|data| - 1], data[|data| - 1];
      UpsertAllKeepsIds(t, front, i);
      UpsertAllKeepsOrder(t, front);
      InFront(data, p);
      InFront(data, UpsertAll(t, front).perms[i]);
    }
  }

  /** A permission of another resource keeps its id and its pair. */
  lemma KeptPermission(perms: Permissions, nextId: int, data: seq<Permission>, i: int)
    requires UniquePairs(perms) && IdsBelow(perms, nextId) && DistinctData(data) && i in perms && !IsLegacy(perms[i])
    ensures var n := AfterUpserts(perms, nextId, data).perms;
            i in n && n[i] == Current(data, perms[i]) && SamePair(n[i], perms[i])
  {
    PurgeKeeps(perms, nextId);
    var start := Tables(Purged(perms), nextId, map[]);
    UpsertAllKeepsIds(start, data, i);
    var n, c := UpsertAll(start, data), Current(data, perms[i]);
    UpsertAllHas(start, data, c);
    UpsertAllKeepsOrder(start, data);
    if PairListed(data, perms[i]) {
      var j :| j in n.perms && n.perms[j] == c;
      assert SamePair(n.perms[j], n.perms[i]);
    }
  }

  lemma CurrentIsStable(data: seq<Permission>, p: Permission)
    requires DistinctData(data)
    ensures Current(data, Current(data, p)) == Current(data, p)
  {
    var c := Current(data, p);
    if PairListed(data, p) {
      var k :| 0 <= k < |data| && data[k] == c;
      assert SamePair(data[k], c) && PairListed(data, c);
      var d := Current(data, c);
      assert d in data && SamePair(d, c);
      var m :| 0 <= m < |data| && data[m] == d;
    }
  }

  /** A custom group keeps a permission exactly when its resource is not a legacy one;
      the listed permissions with a legacy resource (those of "employees") are deleted
      and created anew in every run, so no custom group holds them afterwards. */
  lemma CustomGroupKeepsIff(perms: Permissions, nextId: int, groups: Groups, data: seq<Permission>,
                            specs: seq<GroupSpec>, g: string, i: int)
    requires UniquePairs(perms) && IdsBelow(perms, nextId) && DistinctData(data) && DistinctSpecs(specs)
    requires g in groups && groups[g] <= perms.Keys && i in groups[g]
    requires forall k | 0 <= k < |specs| :: specs[k].name != g
    ensures var one := AfterUpserts(perms, nextId, data);
            var groups1 := SeededGroups(perms, nextId, groups, data, specs);
            && g in groups1
            && (i in groups1[g] <==> perms[i].resource !in LEGACY)
            && (forall q: Permission | q.resource in LEGACY :: !GroupHolds(one.perms, groups1[g], q))
  {
    var one := AfterUpserts(perms, nextId, data);
    var groups1 := SeededGroups(perms, nextId, groups, data, specs);
    GroupsAreSet(PurgedGroups(groups, LegacyIds(perms)), one.created, specs, g);
    forall j | j in groups1[g] ensures j in one.perms && !IsLegacy(one.perms[j]) {
      KeptPermission(perms, nextId, data, j);
    }
  }

  /** A user keeps a granted permission exactly when its resource is not a legacy one;
      what is kept has its id and its pair still. */
  lemma UserKeepsIff(perms: Permissions, nextId: int, data: seq<Permission>, grants: set<Grant>, g: Grant)
    requires UniquePairs(perms) && IdsBelow(perms, nextId) && DistinctData(data)
    requires g in grants && g.permission in perms
    ensures var kept, n := PurgedGrants(grants, LegacyIds(perms)), AfterUpserts(perms, nextId, data).perms;
            && kept <= grants
            && (g in kept <==> perms[g.permission].resource !in LEGACY)
            && (g in kept ==> g.permission in n && SamePair(n[g.permission], perms[g.permission]))
  {
    if !IsLegacy(perms[g.permission]) { KeptPermission(perms, nextId, data, g.permission); }
  }

  lemma CustomGroupIsStable(perms: Permissions, nextId: int, groups: Groups, data: seq<Permission>,
                            specs: seq<GroupSpec>, g: string)
    requires UniquePairs(perms) && IdsBelow(perms, nextId) && DistinctData(data) && DistinctSpecs(specs)
    requires g in groups && groups[g] <= perms.Keys
    requires forall k | 0 <= k < |specs| :: specs[k].name != g
    ensures var one := AfterUpserts(perms, nextId, data);
            var two := AfterUpserts(one.perms, one.nextId, data);
            var groups1 := SeededGroups(perms, nextId, groups, data, specs);
            var groups2 := SeededGroups(one.perms, one.nextId, groups1, data, specs);
            && g in groups1 && g in groups2 && groups2[g] == groups1[g]
            && forall i | i in groups1[g] :: i in one.perms && i in two.perms && two.perms[i] == one.perms[i]
  {
    var one := AfterUpserts(perms, nextId, data);
    var two := AfterUpserts(one.perms, one.nextId, data);
    var groups1 := SeededGroups(perms, nextId, groups, data, specs);
    GroupsAreSet(PurgedGroups(groups, LegacyIds(perms)), one.created, specs, g);
    GroupsAreSet(PurgedGroups(groups1, LegacyIds(one.perms)), two.created, specs, g);
    forall i | i in groups1[g]
      ensures i in one.perms && !IsLegacy(one.perms[i]) && i in two.perms && two.perms[i] == one.perms[i]
    {
      KeptPermission(perms, nextId, data, i);
      SeededPermissions(perms, nextId, data, perms[i]);
      KeptPermission(one.perms, one.nextId, data, i);
      CurrentIsStable(data, perms[i]);
    }
  }

  lemma DefaultGroupIsStable(perms: Permissions, nextId: int, groups: Groups, data: seq<Permission>,
                             specs: seq<GroupSpec>, k: nat, q: Permission)
    requires UniquePairs(perms) && IdsBelow(perms, nextId) && DistinctData(data) && DistinctSpecs(specs) && k < |specs|
    ensures var one := AfterUpserts(perms, nextId, data);
            var two := AfterUpserts(one.perms, one.nextId, data);
            var groups1 := SeededGroups(perms, nextId, groups, data, specs);
            var groups2 := SeededGroups(one.perms, one.nextId, groups1, data, specs);
            var g := specs[k].name;
            && g in groups1 && g in groups2
            && (GroupHolds(one.perms, groups1[g], q) <==> q in data && q.name in specs[k].members)
            && (GroupHolds(two.perms, groups2[g], q) <==> q in data && q.name in specs[k].members)
  {
    var one := AfterUpserts(perms, nextId, data);
    var two := AfterUpserts(one.perms, one.nextId, data);
    var groups1 := SeededGroups(perms, nextId, groups, data, specs);
    SeededPermissions(perms, nextId, data, q);
    GroupsAreSet(PurgedGroups(groups, LegacyIds(perms)), one.created, specs, specs[k].name);
    GroupsAreSet(PurgedGroups(groups1, LegacyIds(one.perms)), two.created, specs, specs[k].name);
    GroupHoldsItsList(perms, nextId, data, specs[k].members, q);
    GroupHoldsItsList(one.perms, one.nextId, data, specs[k].members, q);
  }

  /** A second run ends in the same state up to ids: the same permissions, default
      groups with the same contents, and custom groups untouched. */
  lemma SecondRunSameState(perms: Permissions, nextId: int, groups: Groups, data: seq<Permission>,
                           specs: seq<GroupSpec>, g: string, q: Permission)
    requires UniquePairs(perms) && IdsBelow(perms, nextId) && DistinctData(data) && DistinctSpecs(specs)
    requires forall h | h in groups :: groups[h] <= perms.Keys
    requires g in groups || exists k :: 0 <= k < |specs| && specs[k].name == g
    ensures var one := AfterUpserts(perms, nextId, data);
            var two := AfterUpserts(one.perms, one.nextId, data);
            var groups1 := SeededGroups(perms, nextId, groups, data, specs);
            var groups2 := SeededGroups(one.perms, one.nextId, groups1, data, specs);
            && (Has(two.perms, q) <==> Has(one.perms, q))
            && g in groups1 && g in groups2
            && (GroupHolds(two.perms, groups2[g], q) <==> GroupHolds(one.perms, groups1[g], q))
  {
    var one := AfterUpserts(perms, nextId, data);
    SeededPermissions(perms, nextId, data, q);
    SeededPermissions(one.perms, one.nextId, data, q);
    if q in data {
      var k :| 0 <= k < |data| && data[k] == q;
      assert SamePair(data[k], q);
    }
    if k :| 0 <= k < |specs| && specs[k].name == g {
      DefaultGroupIsStable(perms, nextId, groups, data, specs, k, q);
    } else {
      CustomGroupIsStable(perms, nextId, groups, data, specs, g);
    }
  }
}
