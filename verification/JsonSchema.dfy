/** JSON values, the schemas found in an OpenAPI document, and validity as in JSON
    Schema 2020-12 (Core sections 8.2.3.1, 10.2.1.1, 10.2.1.2 and 10.3; Validation
    sections 6.1 to 6.5) for the keywords modelled here. */
module JsonSchema {

  import opened Options

  datatype Json =
    | Null
    | Bool(b: bool)
    | Num(x: real)
    | Str(s: string)
    | Arr(items: seq<Json>)
    | Obj(fields: map<string, Json>)

  datatype Primitive = NullType | BooleanType | IntegerType | NumberType | StringType | ArrayType | ObjectType

  /** `type` is one name, or a list of names. */
  datatype TypeWord = One(p: Primitive) | Several(ps: set<Primitive>)

  datatype Limits = Limits(
    minimum: Option<real>, maximum: Option<real>,
    exclusiveMinimum: Option<real>, exclusiveMaximum: Option<real>,
    minLength: Option<nat>, maxLength: Option<nat>,
    minItems: Option<nat>, maxItems: Option<nat>,
    minProperties: Option<nat>, maxProperties: Option<nat>)

  const NO_LIMITS := Limits(None, None, None, None, None, None, None, None, None, None)

  datatype Schema = Schema(
    ref: Option<string>, allOf: Option<seq<Schema>>, anyOf: Option<seq<Schema>>,
    kind: Option<TypeWord>, enum: Option<seq<Json>>, default: Option<Json>, format: Option<string>,
    properties: Option<map<string, Schema>>, required: Option<set<string>>, items: Option<Schema>,
    limits: Limits)

  /** `components.schemas`, by the last part of a reference. */
  type Spec = map<string, Schema>

  const EMPTY := Schema(None, None, None, None, None, None, None, None, None, None, NO_LIMITS)

  predicate Integral(x: real) { x == x.Floor as real }

  predicate IsOf(v: Json, p: Primitive) {
    match p
    case NullType => v.Null?
    case BooleanType => v.Bool?
    case IntegerType => v.Num? && Integral(v.x)
    case NumberType => v.Num?
    case StringType => v.Str?
    case ArrayType => v.Arr?
    case ObjectType => v.Obj?
  }

  predicate TypeHolds(v: Json, kind: Option<TypeWord>) {
    match kind
    case None => true
    case Some(One(p)) => IsOf(v, p)
    case Some(Several(ps)) => exists p :: p in ps && IsOf(v, p)
  }

  predicate Within(n: nat, low: Option<nat>, high: Option<nat>) {
    (low.Some? ==> low.value <= n) && (high.Some? ==> n <= high.value)
  }

  predicate NumberHolds(x: real, l: Limits) {
    && (l.minimum.Some? ==> l.minimum.value <= x)
    && (l.maximum.Some? ==> x <= l.maximum.value)
    && (l.exclusiveMinimum.Some? ==> l.exclusiveMinimum.value < x)
    && (l.exclusiveMaximum.Some? ==> x < l.exclusiveMaximum.value)
  }

  predicate LimitsHold(v: Json, l: Limits) {
    match v
    case Num(x) => NumberHolds(x, l)
    case Str(s) => Within(|s|, l.minLength, l.maxLength)
    case Arr(items) => Within(|items|, l.minItems, l.maxItems)
    case Obj(fields) => Within(|fields|, l.minProperties, l.maxProperties)
    case _ => true
  }

  /** The keywords that look at the value alone. */
  predicate AssertionsHold(v: Json, s: Schema) {
    && TypeHolds(v, s.kind)
    && (s.enum.Some? ==> v in s.enum.value)
    && LimitsHold(v, s.limits)
    && (v.Obj? && s.required.Some? ==> s.required.value <= v.fields.Keys)
  }

  function PropertiesOf(s: Schema): map<string, Schema> {
    match s.properties case None => map[] case Some(p) => p
  }

  function RequiredOf(s: Schema): set<string> {
    match s.required case None => {} case Some(r) => r
  }

  /** Validity, following at most `n` schema-to-schema steps on any path; a value is
      valid if it is so for some n, as IsValid says. `default` and `format` are annotations. */
  predicate Valid(spec: Spec, n: nat, v: Json, s: Schema) {
    n > 0
    && AssertionsHold(v, s)
    && (s.ref.Some? ==> s.ref.value in spec && Valid(spec, n - 1, v, spec[s.ref.value]))
    && (s.allOf.Some? ==> forall i | 0 <= i < |s.allOf.value| :: Valid(spec, n - 1, v, s.allOf.value[i]))
    && (s.anyOf.Some? ==> exists i :: 0 <= i < |s.anyOf.value| && Valid(spec, n - 1, v, s.anyOf.value[i]))
    && (v.Obj? ==> forall k | k in PropertiesOf(s) && k in v.fields ::
       Valid(spec, n - 1, v.fields[k], PropertiesOf(s)[k]))
    && (v.Arr? && s.items.Some? ==> forall i | 0 <= i < |v.items| :: Valid(spec, n - 1, v.items[i], s.items.value))
  }

  ghost predicate IsValid(spec: Spec, v: Json, s: Schema) {
    exists n :: Valid(spec, n, v, s)
  }

  /** More steps never hurt. */
  lemma {:induction false} ValidWithMore(spec: Spec, n: nat, m: nat, v: Json, s: Schema)
    requires Valid(spec, n, v, s) && n <= m
    ensures Valid(spec, m, v, s)
    decreases n
  {
    if s.ref.Some? { ValidWithMore(spec, n - 1, m - 1, v, spec[s.ref.value]); }
    if s.allOf.Some? {
      forall i | 0 <= i < |s.allOf.value| ensures Valid(spec, m - 1, v, s.allOf.value[i]) {
        ValidWithMore(spec, n - 1, m - 1, v, s.allOf.value[i]);
      }
    }
    if s.anyOf.Some? {
      var i :| 0 <= i < |s.anyOf.value| && Valid(spec, n - 1, v, s.anyOf.value[i]);
      ValidWithMore(spec, n - 1, m - 1, v, s.anyOf.value[i]);
    }
    if v.Obj? {
      forall k | k in PropertiesOf(s) && k in v.fields ensures Valid(spec, m - 1, v.fields[k], PropertiesOf(s)[k]) {
        ValidWithMore(spec, n - 1, m - 1, v.fields[k], PropertiesOf(s)[k]);
      }
    }
    if v.Arr? && s.items.Some? {
      forall i | 0 <= i < |v.items| ensures Valid(spec, m - 1, v.items[i], s.items.value) {
        ValidWithMore(spec, n - 1, m - 1, v.items[i], s.items.value);
      }
    }
  }

  /** Finitely many values that are valid are so within a common number of steps. */
  lemma {:induction false} CommonSteps(spec: Spec, values: seq<Json>, schemas: seq<Schema>) returns (n: nat)
    requires |values| == |schemas| && forall i | 0 <= i < |values| :: IsValid(spec, values[i], schemas[i])
    ensures forall i | 0 <= i < |values| :: Valid(spec, n, values[i], schemas[i])
    decreases |values|
  {
    n := 0;
    if values != [] {
      var k := |values| - 1;
      var m := CommonSteps(spec, values[..k], schemas[..k]);
      var l: nat :| Valid(spec, l, values[k], schemas[k]);
      n := if m > l then m else l;
      forall i | 0 <= i < |values| ensures Valid(spec, n, values[i], schemas[i]) {
        if i < k { ValidWithMore(spec, m, n, values[..k][i], schemas[..k][i]); }
        else { ValidWithMore(spec, l, n, values[k], schemas[k]); }
      }
    }
  }

  /** Finitely many members that are valid are so within a common number of steps. */
  lemma {:induction false} CommonFieldSteps(spec: Spec, fields: map<string, Json>, properties: map<string, Schema>)
      returns (n: nat)
    requires fields.Keys <= properties.Keys && forall k | k in fields :: IsValid(spec, fields[k], properties[k])
    ensures forall k | k in fields :: Valid(spec, n, fields[k], properties[k])
    decreases |fields|
  {
    n := 0;
    if k :| k in fields {
      var less := fields - {k};
      assert |less.Keys| == |fields.Keys - {k}| < |fields.Keys|;
      assert forall j | j in less :: less[j] == fields[j];
      var m := CommonFieldSteps(spec, less, properties);
      var l: nat :| Valid(spec, l, fields[k], properties[k]);
      n := if m > l then m else l;
      forall j | j in fields ensures Valid(spec, n, fields[j], properties[j]) {
        if j == k { ValidWithMore(spec, l, n, fields[k], properties[k]); }
        else { ValidWithMore(spec, m, n, less[j], properties[j]); }
      }
    }
  }

  /** The subschemas that apply to the value itself hold. */
  ghost predicate InPlaceHold(spec: Spec, v: Json, s: Schema) {
    && (s.ref.Some? ==> s.ref.value in spec && IsValid(spec, v, spec[s.ref.value]))
    && (s.allOf.Some? ==> forall i | 0 <= i < |s.allOf.value| :: IsValid(spec, v, s.allOf.value[i]))
    && (s.anyOf.Some? ==> exists i :: 0 <= i < |s.anyOf.value| && IsValid(spec, v, s.anyOf.value[i]))
  }

  /** The subschemas for members of the value hold. */
  ghost predicate MembersHold(spec: Spec, v: Json, s: Schema) {
    && (v.Obj? && s.properties.Some? ==>
          forall k | k in s.properties.value && k in v.fields :: IsValid(spec, v.fields[k], s.properties.value[k]))
    && (v.Arr? && s.items.Some? ==> forall i | 0 <= i < |v.items| :: IsValid(spec, v.items[i], s.items.value))
  }

  lemma InPlaceSteps(spec: Spec, v: Json, s: Schema) returns (n: nat)
    requires InPlaceHold(spec, v, s)
    ensures s.ref.Some? ==> s.ref.value in spec && Valid(spec, n, v, spec[s.ref.value])
    ensures s.allOf.Some? ==> forall i | 0 <= i < |s.allOf.value| :: Valid(spec, n, v, s.allOf.value[i])
    ensures s.anyOf.Some? ==> exists i :: 0 <= i < |s.anyOf.value| && Valid(spec, n, v, s.anyOf.value[i])
  {
    var a: nat, b: nat, c: nat, pick: nat := 0, 0, 0, 0;
    if s.ref.Some? { a :| Valid(spec, a, v, spec[s.ref.value]); }
    if s.allOf.Some? { b := CommonSteps(spec, seq(|s.allOf.value|, _ => v), s.allOf.value); }
    if s.anyOf.Some? {
      pick :| pick < |s.anyOf.value| && IsValid(spec, v, s.anyOf.value[pick]);
      c :| Valid(spec, c, v, s.anyOf.value[pick]);
    }
    n := a + b + c;
    if s.ref.Some? { ValidWithMore(spec, a, n, v, spec[s.ref.value]); }
    if s.allOf.Some? {
      forall i | 0 <= i < |s.allOf.value| ensures Valid(spec, n, v, s.allOf.value[i]) {
        ValidWithMore(spec, b, n, v, s.allOf.value[i]);
      }
    }
    if s.anyOf.Some? { ValidWithMore(spec, c, n, v, s.anyOf.value[pick]); }
  }

  lemma MemberSteps(spec: Spec, v: Json, s: Schema) returns (n: nat)
    requires MembersHold(spec, v, s)
    ensures v.Obj? ==> forall k | k in PropertiesOf(s) && k in v.fields ::
              Valid(spec, n, v.fields[k], PropertiesOf(s)[k])
    ensures v.Arr? && s.items.Some? ==> forall i | 0 <= i < |v.items| :: Valid(spec, n, v.items[i], s.items.value)
  {
    n := 0;
    assert s.properties.Some? ==> PropertiesOf(s) == s.properties.value;
    if v.Obj? {
      var known := map k | k in v.fields && k in PropertiesOf(s) :: v.fields[k];
      n := CommonFieldSteps(spec, known, PropertiesOf(s));
      assert forall k | k in PropertiesOf(s) && k in v.fields :: k in known && known[k] == v.fields[k];
    } else if v.Arr? && s.items.Some? {
      n := CommonSteps(spec, v.items, seq(|v.items|, _ => s.items.value));
    }
  }

  lemma StepsSuffice(spec: Spec, v: Json, s: Schema, a: nat, b: nat)
    requires AssertionsHold(v, s)
    requires s.ref.Some? ==> s.ref.value in spec && Valid(spec, a, v, spec[s.ref.value])
    requires s.allOf.Some? ==> forall i | 0 <= i < |s.allOf.value| :: Valid(spec, a, v, s.allOf.value[i])
    requires s.anyOf.Some? ==> exists i :: 0 <= i < |s.anyOf.value| && Valid(spec, a, v, s.anyOf.value[i])
    requires v.Obj? ==> forall k | k in PropertiesOf(s) && k in v.fields ::
              Valid(spec, b, v.fields[k], PropertiesOf(s)[k])
    requires v.Arr? && s.items.Some? ==> forall i | 0 <= i < |v.items| :: Valid(spec, b, v.items[i], s.items.value)
    ensures Valid(spec, a + b + 1, v, s)
  {
    var n := a + b;
    if s.ref.Some? { ValidWithMore(spec, a, n, v, spec[s.ref.value]); }
    if s.allOf.Some? {
      forall i | 0 <= i < |s.allOf.value| ensures Valid(spec, n, v, s.allOf.value[i]) {
        ValidWithMore(spec, a, n, v, s.allOf.value[i]);
      }
    }
    if s.anyOf.Some? {
      var i :| 0 <= i < |s.anyOf.value| && Valid(spec, a, v, s.anyOf.value[i]);
      ValidWithMore(spec, a, n, v, s.anyOf.value[i]);
    }
    if v.Obj? {
      forall k | k in PropertiesOf(s) && k in v.fields ensures Valid(spec, n, v.fields[k], PropertiesOf(s)[k]) {
        ValidWithMore(spec, b, n, v.fields[k], PropertiesOf(s)[k]);
      }
    }
    if v.Arr? && s.items.Some? {
      forall i | 0 <= i < |v.items| ensures Valid(spec, n, v.items[i], s.items.value) {
        ValidWithMore(spec, b, n, v.items[i], s.items.value);
      }
    }
  }

  /** Validity as the standard states it, without a bound on steps: every keyword of the
      schema holds, subschemas by validity itself. */
  lemma ValidIffKeywordsHold(spec: Spec, v: Json, s: Schema)
    ensures IsValid(spec, v, s) <==>
            && TypeHolds(v, s.kind)
            && (s.enum.Some? ==> v in s.enum.value)
            && LimitsHold(v, s.limits)
            && (v.Obj? && s.required.Some? ==> forall k | k in s.required.value :: k in v.fields)
            && InPlaceHold(spec, v, s)
            && MembersHold(spec, v, s)
  {
    if IsValid(spec, v, s) {
      var n: nat :| Valid(spec, n, v, s);
      ValidMeansHold(spec, n, v, s);
    }
    if AssertionsHold(v, s) && InPlaceHold(spec, v, s) && MembersHold(spec, v, s) {
      var a := InPlaceSteps(spec, v, s);
      var b := MemberSteps(spec, v, s);
      StepsSuffice(spec, v, s, a, b);
    }
  }

  lemma ValidMeansHold(spec: Spec, n: nat, v: Json, s: Schema)
    requires Valid(spec, n, v, s)
    ensures AssertionsHold(v, s) && InPlaceHold(spec, v, s) && MembersHold(spec, v, s)
  {
    if v.Obj? && s.properties.Some? {
      assert PropertiesOf(s) == s.properties.value;
      forall k | k in s.properties.value && k in v.fields ensures IsValid(spec, v.fields[k], s.properties.value[k]) {
        assert Valid(spec, n - 1, v.fields[k], PropertiesOf(s)[k]);
      }
    }
    if s.anyOf.Some? {
      var i :| 0 <= i < |s.anyOf.value| && Valid(spec, n - 1, v, s.anyOf.value[i]);
      assert IsValid(spec, v, s.anyOf.value[i]);
    }
  }
}
