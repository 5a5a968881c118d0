/** `resolve` of `backend/loadtest/qa_api_audit.py`: follows references, merges
    `allOf`, picks the first non-null branch of `anyOf`, nine levels deep at most. */
module SchemaResolver {
  import opened Options
  import opened JsonSchema

  function Left(depth: nat): nat {
    if depth > 8 then 0 else 9 - depth
  }

  predicate IsNullSchema(s: Schema) { s.kind == Some(One(NullType)) }

  /** The first branch that is not `{"type": "null"}`. */
  function FirstNonNull(subs: seq<Schema>): (k: int)
    ensures -1 <= k < |subs|
    ensures k >= 0 ==> !IsNullSchema(subs[k])
    ensures forall i | 0 <= i < k :: IsNullSchema(subs[i])
    ensures k == -1 ==> forall i | 0 <= i < |subs| :: IsNullSchema(subs[i])
  {
    if subs == [] then -1
    else if !IsNullSchema(subs[0]) then 0
    else
      var k := FirstNonNull(subs[1..]);
      assert forall i | 1 <= i < |subs| :: subs[i] == subs[1..][i - 1];
      if k == -1 then -1 else k + 1
  }

  function Merged(properties: map<string, Schema>, required: set<string>): Schema {
    EMPTY.(kind := Some(One(ObjectType)), properties := Some(properties), required := Some(required))
  }

  /** None is an unknown reference, a KeyError. */
  function Resolve(spec: Spec, s: Schema, depth: nat): Option<Schema>
    decreases Left(depth), 0, 0
  {
    if depth > 8 then Some(s)
    else if s.ref.Some? then
      if s.ref.value in spec then Resolve(spec, spec[s.ref.value], depth + 1) else None
    else if s.allOf.Some? then MergeAll(spec, s.allOf.value, depth + 1)
    else if s.anyOf.Some? && FirstNonNull(s.anyOf.value) >= 0 then
      Resolve(spec, s.anyOf.value[FirstNonNull(s.anyOf.value)], depth + 1)
    else Some(s)
  }

  /** The merged dictionary after the branches `subs`: later properties win. */
  function MergeAll(spec: Spec, subs: seq<Schema>, depth: nat): Option<Schema>
    decreases Left(depth), 1, |subs|
  {
    if subs == [] then Some(Merged(map[], {}))
    else
      match (MergeAll(spec, subs[..|subs| - 1], depth), Resolve(spec, subs[|subs| - 1], depth))
      case (Some(m), Some(r)) =>
        Some(Merged(PropertiesOf(m) + PropertiesOf(r), RequiredOf(m) + RequiredOf(r)))
      case _ => None
  }

  /** The same with the source's loop over a merged dictionary. */
  method ResolveByLoop(spec: Spec, s: Schema, depth: nat) returns (r: Option<Schema>)
    ensures r == Resolve(spec, s, depth)
    decreases Left(depth)
  {
    if depth > 8 { return Some(s); }
    if s.ref.Some? {
      if s.ref.value !in spec { return None; }
      r := ResolveByLoop(spec, spec[s.ref.value], depth + 1);
      return;
    }
    if s.allOf.Some? {
      var subs := s.allOf.value;
      var properties: map<string, Schema>, required: set<string> := map[], {};
      for i := 0 to |subs|
        invariant MergeAll(spec, subs[..i], depth + 1) == Some(Merged(properties, required))
      {
        assert subs[..i + 1][..i] == subs[..i];
        var sub := ResolveByLoop(spec, subs[i], depth + 1);
        if sub.None? {
          MergeFails(spec, subs, depth + 1, i + 1);
          return None;
        }
        properties := properties + PropertiesOf(sub.value);
        required := required + RequiredOf(sub.value);
      }
      assert subs[..|subs|] == subs;
      return Some(Merged(properties, required));
    }
    if s.anyOf.Some? && FirstNonNull(s.anyOf.value) >= 0 {
      r := ResolveByLoop(spec, s.anyOf.value[FirstNonNull(s.anyOf.value)], depth + 1);
      return;
    }
    return Some(s);
  }

  lemma {:induction false} MergeFails(spec: Spec, subs: seq<Schema>, depth: nat, i: nat)
    requires i <= |subs| && MergeAll(spec, subs[..i], depth).None?
    ensures MergeAll(spec, subs, depth).None?
    decreases |subs|
  {
    if i < |subs| {
      assert subs[..|subs| - 1][..i] == subs[..i];
      MergeFails(spec, subs[..|subs| - 1], depth, i);
    } else {
      assert subs[..i] == subs;
    }
  }

  /** The next `n` steps are references that can be followed. */
  predicate ChainOfRefs(spec: Spec, s: Schema, n: nat)
    decreases n
  {
    n == 0 || (s.ref.Some? && s.ref.value in spec && ChainOfRefs(spec, spec[s.ref.value], n - 1))
  }

  function Chase(spec: Spec, s: Schema, n: nat): Schema
    requires ChainOfRefs(spec, s, n)
    decreases n
  {
    if n == 0 then s else Chase(spec, spec[s.ref.value], n - 1)
  }

  /** A long or cyclic chain of references is cut after nine of them, and what is
      reached then is returned as it stands, reference and all. */
  lemma {:induction false} LongChainIsCut(spec: Spec, s: Schema, depth: nat)
    requires depth <= 9 && ChainOfRefs(spec, s, 9 - depth)
    ensures Resolve(spec, s, depth) == Some(Chase(spec, s, 9 - depth))
    decreases 9 - depth
  {
    if depth <= 8 { LongChainIsCut(spec, spec[s.ref.value], depth + 1); }
  }

  /** Leading null branches of an `anyOf` are skipped and the first other one is what is
      resolved; if all are null the schema stays as it is. */
  lemma FirstOtherBranchIsResolved(spec: Spec, s: Schema, depth: nat, k: nat)
    requires depth <= 8 && s.ref.None? && s.allOf.None? && s.anyOf.Some? && k <= |s.anyOf.value|
    requires forall i | 0 <= i < k :: s.anyOf.value[i].kind == Some(One(NullType))
    requires k < |s.anyOf.value| ==> s.anyOf.value[k].kind != Some(One(NullType))
    ensures Resolve(spec, s, depth) ==
            if k < |s.anyOf.value| then Resolve(spec, s.anyOf.value[k], depth + 1) else Some(s)
  {
    var j := FirstNonNull(s.anyOf.value);
    assert k < |s.anyOf.value| ==> !IsNullSchema(s.anyOf.value[k]);
    assert j >= 0 ==> s.anyOf.value[j].kind != Some(One(NullType));
  }

  /** What stands beside a reference, an `allOf` or a picked `anyOf` branch is dropped, in
      this order of precedence. */
  lemma SiblingsAreDropped(spec: Spec, s: Schema, depth: nat)
    requires depth <= 8
    ensures s.ref.Some? ==> Resolve(spec, s, depth) == Resolve(spec, EMPTY.(ref := s.ref), depth)
    ensures s.ref.None? && s.allOf.Some? ==> Resolve(spec, s, depth) == Resolve(spec, EMPTY.(allOf := s.allOf), depth)
    ensures s.ref.None? && s.allOf.None? && s.anyOf.Some?
            && (exists b :: b in s.anyOf.value && b.kind != Some(One(NullType)))
            ==> Resolve(spec, s, depth) == Resolve(spec, EMPTY.(anyOf := s.anyOf), depth)
    ensures s.ref.None? && s.allOf.None? && s.anyOf.None? ==> Resolve(spec, s, depth) == Some(s)
  {
    if s.anyOf.Some? && exists b :: b in s.anyOf.value && b.kind != Some(One(NullType)) {
      var b :| b in s.anyOf.value && b.kind != Some(One(NullType));
      var i :| 0 <= i < |s.anyOf.value| && s.anyOf.value[i] == b;
      assert !IsNullSchema(s.anyOf.value[i]);
    }
  }

  predicate Has(spec: Spec, sub: Schema, depth: nat, k: string) {
    Resolve(spec, sub, depth).Some? && k in PropertiesOf(Resolve(spec, sub, depth).value)
  }

  predicate Requires(spec: Spec, sub: Schema, depth: nat, k: string) {
    Resolve(spec, sub, depth).Some? && k in RequiredOf(Resolve(spec, sub, depth).value)
  }

  predicate SomeHas(spec: Spec, subs: seq<Schema>, depth: nat, k: string) {
    exists i :: 0 <= i < |subs| && Has(spec, subs[i], depth, k)
  }

  predicate SomeRequires(spec: Spec, subs: seq<Schema>, depth: nat, k: string) {
    exists i :: 0 <= i < |subs| && Requires(spec, subs[i], depth, k)
  }

  lemma OneMoreBranch(spec: Spec, front: seq<Schema>, last: Schema, depth: nat, k: string)
    ensures SomeHas(spec, front + [last], depth, k) <==> SomeHas(spec, front, depth, k) || Has(spec, last, depth, k)
    ensures SomeRequires(spec, front + [last], depth, k)
            <==> SomeRequires(spec, front, depth, k) || Requires(spec, last, depth, k)
  {
    var subs := front + [last];
    assert subs[|front|] == last;
    if i :| 0 <= i < |front| && Has(spec, front[i], depth, k) { assert Has(spec, subs[i], depth, k); }
    if i :| 0 <= i < |front| && Requires(spec, front[i], depth, k) { assert Requires(spec, subs[i], depth, k); }
  }

  /** A merged `allOf` is an object schema with the properties of all branches, and
      requires what any of them requires; other keywords are lost. */
  lemma {:induction false} MergedHasAll(spec: Spec, subs: seq<Schema>, depth: nat, k: string)
    requires MergeAll(spec, subs, depth).Some?
    ensures var m := MergeAll(spec, subs, depth).value;
            && m == EMPTY.(kind := Some(One(ObjectType)), properties := m.properties, required := m.required)
            && (k in PropertiesOf(m) <==> SomeHas(spec, subs, depth, k))
            && (k in RequiredOf(m) <==> SomeRequires(spec, subs, depth, k))
    decreases |subs|
  {
    if subs != [] {
      var front, last := subs[..|subs| - 1], subs[|subs| - 1];
      MergedHasAll(spec, front, depth, k);
      OneMoreBranch(spec, front, last, depth, k);
      assert front + [last] == subs;
    }
  }

  /** Where branches disagree on a property, the last one that has it wins. */
  lemma {:induction false} LastBranchWins(spec: Spec, subs: seq<Schema>, depth: nat, i: nat, k: string)
    requires MergeAll(spec, subs, depth).Some? && i < |subs| && Has(spec, subs[i], depth, k)
    requires forall j | i < j < |subs| :: !Has(spec, subs[j], depth, k)
    ensures var m := PropertiesOf(MergeAll(spec, subs, depth).value);
            k in m && m[k] == PropertiesOf(Resolve(spec, subs[i], depth).value)[k]
    decreases |subs|
  {
    var n := |subs| - 1;
    if i < n {
      assert !Has(spec, subs[n], depth, k);
      LastBranchWins(spec, subs[..n], depth, i, k);
    }
  }

  // ---------------------------------------------------------------------------
  // What resolving may lose, and when it loses nothing.

  /** Only the given combinator, besides annotations. */
  predicate Bare(s: Schema) {
    && s.kind.None? && s.enum.None? && s.properties.None? && s.required.None? && s.items.None?
    && s.limits == NO_LIMITS
  }

  /** A branch of `allOf` whose whole meaning is an object's properties. */
  predicate ObjectOnly(r: Schema) {
    && r.ref.None? && r.allOf.None? && r.anyOf.None? && r.enum.None?
    && (r.kind.None? || r.kind == Some(One(ObjectType)))
    && r.items.None? && r.limits == NO_LIMITS
  }

  /** Every property of branch `r` survives the merge with the same schema. */
  predicate Survives(r: Schema, merged: Schema) {
    && (forall k | k in PropertiesOf(r) :: k in PropertiesOf(merged) && PropertiesOf(merged)[k] == PropertiesOf(r)[k])
    && RequiredOf(r) <= RequiredOf(merged)
  }

  /** Resolution drops no assertion: combinators stand alone, and the branches of an
      `allOf` are plain objects that agree where they overlap. */
  predicate Lossless(spec: Spec, s: Schema, depth: nat)
    decreases Left(depth), 0
  {
    if depth > 8 then true
    else if s.ref.Some? then
      Bare(s) && s.allOf.None? && s.anyOf.None? && s.ref.value in spec && Lossless(spec, spec[s.ref.value], depth + 1)
    else if s.allOf.Some? then
      Bare(s) && s.anyOf.None? && Resolve(spec, s, depth).Some? &&
      forall i | 0 <= i < |s.allOf.value| ::
        LosslessBranch(spec, s.allOf.value[i], depth + 1, Resolve(spec, s, depth).value)
    else if s.anyOf.Some? && FirstNonNull(s.anyOf.value) >= 0 then
      Bare(s) && Lossless(spec, s.anyOf.value[FirstNonNull(s.anyOf.value)], depth + 1)
    else true
  }

  predicate LosslessBranch(spec: Spec, sub: Schema, depth: nat, merged: Schema)
    decreases Left(depth), 1
  {
    var r := Resolve(spec, sub, depth);
    Lossless(spec, sub, depth) && r.Some? && ObjectOnly(r.value) && Survives(r.value, merged)
  }

  lemma MergedIsMerged(spec: Spec, subs: seq<Schema>, depth: nat)
    requires MergeAll(spec, subs, depth).Some?
    ensures var m := MergeAll(spec, subs, depth).value; m == Merged(PropertiesOf(m), RequiredOf(m))
  {
  }

  lemma MergedImpliesBranch(spec: Spec, n: nat, v: Json, m: Schema, r: Schema)
    requires m == Merged(PropertiesOf(m), RequiredOf(m)) && Valid(spec, n, v, m)
    requires ObjectOnly(r) && Survives(r, m)
    ensures Valid(spec, n, v, r)
  {
    assert v.Obj?;
  }

  lemma ValidThroughRef(spec: Spec, m: nat, v: Json, s: Schema)
    requires Bare(s) && s.ref.Some? && s.allOf.None? && s.anyOf.None? && s.ref.value in spec
    requires Valid(spec, m, v, spec[s.ref.value])
    ensures Valid(spec, m + 1, v, s)
  {
  }

  lemma ValidThroughAllOf(spec: Spec, m: nat, v: Json, s: Schema)
    requires Bare(s) && s.ref.None? && s.allOf.Some? && s.anyOf.None?
    requires forall i | 0 <= i < |s.allOf.value| :: Valid(spec, m, v, s.allOf.value[i])
    ensures Valid(spec, m + 1, v, s)
  {
  }

  lemma ValidThroughAnyOf(spec: Spec, m: nat, v: Json, s: Schema, i: nat)
    requires Bare(s) && s.ref.None? && s.allOf.None? && s.anyOf.Some?
    requires i < |s.anyOf.value| && Valid(spec, m, v, s.anyOf.value[i])
    ensures Valid(spec, m + 1, v, s)
  {
  }

  /** A value valid for the resolved schema is valid for the schema itself, through
      references, merged `allOf` branches and `anyOf`, whenever resolution is
      lossless. */
  lemma {:induction false} ResolvedValidIsValid(spec: Spec, s: Schema, depth: nat, n: nat, v: Json)
    requires Lossless(spec, s, depth) && Resolve(spec, s, depth).Some?
    requires Valid(spec, n, v, Resolve(spec, s, depth).value)
    ensures Valid(spec, n + Left(depth), v, s)
    decreases Left(depth), 1
  {
    if depth <= 8 && s.ref.Some? {
      var target := spec[s.ref.value];
      ResolvedValidIsValid(spec, target, depth + 1, n, v);
      ValidThroughRef(spec, n + Left(depth + 1), v, s);
    } else if depth <= 8 && s.allOf.Some? {
      ResolvedValidThroughAllOf(spec, s, depth, n, v);
    } else if depth <= 8 && s.anyOf.Some? && FirstNonNull(s.anyOf.value) >= 0 {
      var i := FirstNonNull(s.anyOf.value);
      ResolvedValidIsValid(spec, s.anyOf.value[i], depth + 1, n, v);
      ValidThroughAnyOf(spec, n + Left(depth + 1), v, s, i);
    } else {
      ValidWithMore(spec, n, n + Left(depth), v, s);
    }
  }

  lemma {:induction false} ResolvedValidThroughAllOf(spec: Spec, s: Schema, depth: nat, n: nat, v: Json)
    requires depth <= 8 && s.ref.None? && s.allOf.Some?
    requires Lossless(spec, s, depth) && Resolve(spec, s, depth).Some?
    requires Valid(spec, n, v, Resolve(spec, s, depth).value)
    ensures Valid(spec, n + Left(depth), v, s)
    decreases Left(depth), 0, 1
  {
    forall i | 0 <= i < |s.allOf.value| ensures Valid(spec, n + Left(depth + 1), v, s.allOf.value[i]) {
      ResolvedValidForBranch(spec, s, depth, n, v, i);
    }
    assert n + Left(depth + 1) + 1 == n + Left(depth);
    ValidThroughAllOf(spec, n + Left(depth + 1), v, s);
  }

  lemma {:induction false} ResolvedValidForBranch(spec: Spec, s: Schema, depth: nat, n: nat, v: Json, i: nat)
    requires depth <= 8 && s.ref.None? && s.allOf.Some? && i < |s.allOf.value|
    requires Lossless(spec, s, depth) && Resolve(spec, s, depth).Some?
    requires Valid(spec, n, v, Resolve(spec, s, depth).value)
    ensures Valid(spec, n + Left(depth + 1), v, s.allOf.value[i])
    decreases Left(depth), 0, 0
  {
    var m := Resolve(spec, s, depth).value;
    assert LosslessBranch(spec, s.allOf.value[i], depth + 1, m);
    MergedIsMerged(spec, s.allOf.value, depth + 1);
    MergedImpliesBranch(spec, n, v, m, Resolve(spec, s.allOf.value[i], depth + 1).value);
    ResolvedValidIsValid(spec, s.allOf.value[i], depth + 1, n, v);
  }

  // ---------------------------------------------------------------------------
  // The converse, where no branch of an `anyOf` was picked.

  /** Resolution picks no branch. */
  predicate PicksNone(spec: Spec, s: Schema, depth: nat)
    decreases Left(depth)
  {
    if depth > 8 then true
    else if s.ref.Some? then s.ref.value in spec && PicksNone(spec, spec[s.ref.value], depth + 1)
    else if s.allOf.Some? then forall i | 0 <= i < |s.allOf.value| :: PicksNone(spec, s.allOf.value[i], depth + 1)
    else s.anyOf.None?
  }

  /** Resolution comes to an `allOf`, whose merged form is for objects only. */
  predicate Merges(spec: Spec, s: Schema, depth: nat)
    decreases Left(depth)
  {
    if depth > 8 then false
    else if s.ref.Some? then s.ref.value in spec && Merges(spec, spec[s.ref.value], depth + 1)
    else s.allOf.Some?
  }

  lemma {:induction false} MergesIntoObject(spec: Spec, s: Schema, depth: nat)
    requires PicksNone(spec, s, depth) && Merges(spec, s, depth) && Resolve(spec, s, depth).Some?
    ensures var m := Resolve(spec, s, depth).value; m == Merged(PropertiesOf(m), RequiredOf(m))
    decreases Left(depth)
  {
    if s.ref.Some? {
      MergesIntoObject(spec, spec[s.ref.value], depth + 1);
    } else {
      MergedIsMerged(spec, s.allOf.value, depth + 1);
    }
  }

  /** An object valid for all resolved branches is valid for their merger. */
  lemma {:induction false} BranchesImplyMerged(spec: Spec, subs: seq<Schema>, depth: nat, n: nat, v: Json)
    requires MergeAll(spec, subs, depth).Some? && v.Obj? && n > 0
    requires forall i | 0 <= i < |subs| ::
               Resolve(spec, subs[i], depth).Some? && Valid(spec, n, v, Resolve(spec, subs[i], depth).value)
    ensures Valid(spec, n, v, MergeAll(spec, subs, depth).value)
    decreases |subs|
  {
    if subs == [] {
      assert Valid(spec, n, v, Merged(map[], {}));
    } else {
      var front, last := subs[..|subs| - 1], subs[|subs| - 1];
      BranchesImplyMerged(spec, front, depth, n, v);
      MergedIsMerged(spec, front, depth);
      TwoImplyMerged(spec, n, v, MergeAll(spec, front, depth).value, Resolve(spec, last, depth).value);
    }
  }

  lemma TwoImplyMerged(spec: Spec, n: nat, v: Json, m: Schema, r: Schema)
    requires v.Obj? && Valid(spec, n, v, m) && Valid(spec, n, v, r)
    ensures Valid(spec, n, v, Merged(PropertiesOf(m) + PropertiesOf(r), RequiredOf(m) + RequiredOf(r)))
  {
    var x := Merged(PropertiesOf(m) + PropertiesOf(r), RequiredOf(m) + RequiredOf(r));
    forall k | k in PropertiesOf(x) && k in v.fields ensures Valid(spec, n - 1, v.fields[k], PropertiesOf(x)[k]) {
      if k !in PropertiesOf(r) { assert k in PropertiesOf(m); }
    }
    assert RequiredOf(m) <= v.fields.Keys && RequiredOf(r) <= v.fields.Keys;
  }

  /** Where nothing was picked, a value valid for the schema is valid for the resolved
      one, objects only if branches were merged. */
  lemma {:induction false} ValidIsResolvedValid(spec: Spec, s: Schema, depth: nat, n: nat, v: Json)
    requires PicksNone(spec, s, depth) && Resolve(spec, s, depth).Some? && Valid(spec, n, v, s)
    requires v.Obj? || !Merges(spec, s, depth)
    ensures Valid(spec, n, v, Resolve(spec, s, depth).value)
    decreases Left(depth), 0
  {
    if depth <= 8 && s.ref.Some? {
      ValidIsResolvedValid(spec, spec[s.ref.value], depth + 1, n - 1, v);
      ValidWithMore(spec, n - 1, n, v, Resolve(spec, s, depth).value);
    } else if depth <= 8 && s.allOf.Some? {
      ValidIsMergedValid(spec, s.allOf.value, depth + 1, n, v);
    }
  }

  lemma {:induction false} ValidIsMergedValid(spec: Spec, subs: seq<Schema>, depth: nat, n: nat, v: Json)
    requires depth <= 9 && MergeAll(spec, subs, depth).Some? && v.Obj? && n > 0
    requires forall i | 0 <= i < |subs| :: PicksNone(spec, subs[i], depth) && Valid(spec, n - 1, v, subs[i])
    ensures Valid(spec, n, v, MergeAll(spec, subs, depth).value)
    decreases Left(depth), 1
  {
    forall i | 0 <= i < |subs|
      ensures Resolve(spec, subs[i], depth).Some? && Valid(spec, n, v, Resolve(spec, subs[i], depth).value)
    {
      MergedBranchesResolve(spec, subs, depth, i);
      ValidIsResolvedValid(spec, subs[i], depth, n - 1, v);
      ValidWithMore(spec, n - 1, n, v, Resolve(spec, subs[i], depth).value);
    }
    BranchesImplyMerged(spec, subs, depth, n, v);
  }

  lemma {:induction false} MergedBranchesResolve(spec: Spec, subs: seq<Schema>, depth: nat, i: nat)
    requires i < |subs| && MergeAll(spec, subs, depth).Some?
    ensures Resolve(spec, subs[i], depth).Some?
    decreases |subs|
  {
    if i < |subs| - 1 { MergedBranchesResolve(spec, subs[..|subs| - 1], depth, i); }
  }
}
