/** `sample` of `backend/loadtest/qa_api_audit.py`: a value meant to be valid for a
    schema. Every string sample draws six random letters of its own. */
module SchemaSampler {
  import opened Options
  import opened JsonSchema
  import opened SchemaResolver

  type Letters = s: string | |s| == 6 witness "aaaaaa"

  datatype Crumb = Field(key: string) | Item(index: nat)

  /** The letters drawn at each place of a sample. */
  type Draws = seq<Crumb> -> Letters

  function Below(draws: Draws, c: Crumb): Draws {
    path => draws([c] + path)
  }

  /** Levels of nesting left before objects come out empty. */
  function Rest(depth: nat): nat {
    if depth > 4 then 0 else 5 - depth
  }

  predicate Contains(s: string, part: string) {
    exists i :: 0 <= i <= |s| && part <= s[i..]
  }

  predicate PhoneLike(field: string) {
    Contains(field, "phone") || Contains(field, "contact") || Contains(field, "mobile")
  }

  function GetOr<T>(o: Option<T>, default: T): T {
    match o case None => default case Some(v) => v
  }

  function NumberSample(l: Limits): real {
    var low := GetOr(l.minimum, 1.0);
    if low > 1.0 then low else 1.0
  }

  /** The text a string gets for its format or its field name alone. */
  function FixedText(s: Schema, field: string): Option<string> {
    if s.format == Some("date") then Some("2026-11-05")
    else if s.format == Some("date-time") then Some("2026-11-05T10:00:00")
    else if s.format == Some("email") then Some("qa.fuzz@example.com")
    else if PhoneLike(field) then Some("+94771234567")
    else None
  }

  function Xs(n: nat): (s: string)
    ensures |s| == n
  {
    seq(n, _ => 'x')
  }

  /** Padded to minLength, then cut to maxLength, unless that is 0, which Python
      takes for absent. */
  function PlainText(l: Limits, letters: Letters): string {
    var base := "QA-fz" + letters;
    var n := GetOr(l.minLength, 1);
    var v := if n <= |base| then base else base + Xs(n - |base|);
    var cut := GetOr(l.maxLength, 0);
    if cut != 0 && cut <= |v| then v[..cut] else v
  }

  function LeafSample(s: Schema, field: string, letters: Letters): Json {
    match s.kind
    case Some(One(IntegerType)) => Num(NumberSample(s.limits))
    case Some(One(NumberType)) => Num(NumberSample(s.limits))
    case Some(One(BooleanType)) => Bool(false)
    case Some(One(StringType)) => Str(GetOr(FixedText(s, field), PlainText(s.limits, letters)))
    case _ => Str("QA-fz")
  }

  predicate IsObjectSchema(s: Schema) { s.kind == Some(One(ObjectType)) || s.properties.Some? }

  predicate IsArraySchema(s: Schema) { s.kind == Some(One(ArrayType)) }

  function SampledKeys(s: Schema): set<string> { PropertiesOf(s).Keys * RequiredOf(s) }

  /** None stands for the exceptions: an unknown reference, an empty enum. */
  function Sample(spec: Spec, s: Schema, depth: nat, field: string, draws: Draws): Option<Json>
    decreases Rest(depth), 1
  {
    match Resolve(spec, s, 0)
    case None => None
    case Some(r) => SampleResolved(spec, r, depth, field, draws)
  }

  function ItemCount(l: Limits): nat {
    var n := GetOr(l.minItems, 0);
    if n > 1 then n else 1
  }

  predicate HasDefault(r: Schema) { r.default.Some? && r.default.value != Null }

  function SampleResolved(spec: Spec, r: Schema, depth: nat, field: string, draws: Draws): Option<Json>
    decreases Rest(depth), 0
  {
    if HasDefault(r) then r.default
    else if r.enum.Some? then (if r.enum.value == [] then None else Some(r.enum.value[0]))
    else if IsObjectSchema(r) then
      if depth > 3 then Some(Obj(map[]))
      else if forall k | k in SampledKeys(r) ::
           Sample(spec, PropertiesOf(r)[k], depth + 1, k, Below(draws, Field(k))).Some? then
        Some(Obj(map k | k in SampledKeys(r) ::
          Sample(spec, PropertiesOf(r)[k], depth + 1, k, Below(draws, Field(k))).value))
      else None
    else if IsArraySchema(r) then
      if depth >= 3 then Some(Arr([]))
      else
        var n := ItemCount(r.limits);
        if forall i | 0 <= i < n :: Sample(spec, ItemsOf(r), depth + 1, field, Below(draws, Item(i))).Some? then
          Some(Arr(seq(n, i requires 0 <= i < n =>
            Sample(spec, ItemsOf(r), depth + 1, field, Below(draws, Item(i))).value)))
        else None
    else Some(LeafSample(r, field, draws([])))
  }

  // ---------------------------------------------------------------------------
  // When a scalar sample is valid.

  predicate Resolved(r: Schema) { r.ref.None? && r.allOf.None? && r.anyOf.None? }

  predicate Admits(kind: Option<TypeWord>, p: Primitive) {
    match kind case None => true case Some(One(q)) => p == q case Some(Several(ps)) => p in ps
  }

  /** No upper bound is below 1 or the minimum, and no exclusive minimum reaches the
      value taken. */
  predicate NumberFits(l: Limits) {
    && (l.maximum.Some? ==> 1.0 <= l.maximum.value && (l.minimum.Some? ==> l.minimum.value <= l.maximum.value))
    && (l.exclusiveMaximum.Some? ==> 1.0 < l.exclusiveMaximum.value
                                     && (l.minimum.Some? ==> l.minimum.value < l.exclusiveMaximum.value))
    && (l.exclusiveMinimum.Some? ==> l.exclusiveMinimum.value < 1.0
                                     || (l.minimum.Some? && l.exclusiveMinimum.value < l.minimum.value))
  }

  /** Only bounds that contradict each other, or a maxLength of 0, defeat a plain
      string. */
  predicate PlainTextFits(l: Limits) {
    l.maxLength.Some? ==> l.maxLength.value != 0 && GetOr(l.minLength, 0) <= l.maxLength.value
  }

  predicate LeafFits(r: Schema, field: string) {
    match r.kind
    case Some(One(NumberType)) => NumberFits(r.limits)
    case Some(One(IntegerType)) =>
      NumberFits(r.limits)
      && (r.limits.minimum.Some? && r.limits.minimum.value > 1.0 ==> Integral(r.limits.minimum.value))
    case Some(One(BooleanType)) => true
    case Some(One(StringType)) =>
      (match FixedText(r, field)
       case Some(text) => Within(|text|, r.limits.minLength, r.limits.maxLength)
       case None => PlainTextFits(r.limits))
    case _ => Admits(r.kind, StringType) && Within(5, r.limits.minLength, r.limits.maxLength)
  }

  /** A plain string is the prefix, the letters drawn and then padding, as long as the
      larger of eleven and minLength, cut to maxLength unless that is 0; so it is in
      bounds exactly if these are consistent. */
  lemma PlainTextLength(l: Limits, letters: Letters)
    ensures var v := PlainText(l, letters);
            var low := match l.minLength case Some(n) => n case None => 1;
            var full := if low > 11 then low else 11;
            && |v| == (match l.maxLength case Some(m) => if 0 < m < full then m else full case None => full)
            && (forall i | 0 <= i < |v| :: v[i] == if i < 5 then "QA-fz"[i] else if i < 11 then letters[i - 5] else 'x')
            && (Within(|v|, l.minLength, l.maxLength) <==> PlainTextFits(l))
  {
  }

  /** The least number from 1 on that reaches the minimum. */
  lemma NumberSampleIsLeast(l: Limits, y: real)
    ensures var x := NumberSample(l);
            && x >= 1.0 && (l.minimum.Some? ==> x >= l.minimum.value)
            && (y >= 1.0 && (l.minimum.Some? ==> y >= l.minimum.value) ==> y >= x)
  {
  }

  /** A boolean is false; without a type, or with one of several types, the sample is a
      bare prefix. */
  lemma OtherScalars(s: Schema, field: string, letters: Letters)
    ensures s.kind == Some(One(BooleanType)) ==> LeafSample(s, field, letters) == Bool(false)
    ensures (s.kind == None || s.kind.value.Several?) ==> LeafSample(s, field, letters) == Str("QA-fz")
  {
  }

  predicate Digits(s: string) { s != [] && forall i | 0 <= i < |s| :: '0' <= s[i] <= '9' }

  /** yyyy-mm-dd */
  predicate DateShaped(s: string) {
    && |s| == 10 && s[4] == '-' && s[7] == '-'
    && Digits(s[..4]) && Digits(s[5..7]) && Digits(s[8..])
  }

  /** hh:mm:ss */
  predicate ClockShaped(s: string) {
    |s| == 8 && s[2] == ':' && s[5] == ':' && Digits(s[..2]) && Digits(s[3..5]) && Digits(s[6..])
  }

  /** One @ between two parts. */
  predicate EmailShaped(s: string) {
    exists i :: 0 < i < |s| - 1 && s[i] == '@' && '@' !in s[..i] && '@' !in s[i + 1..]
  }

  /** A number with its country code. */
  predicate PhoneShaped(s: string) { |s| == 12 && s[0] == '+' && Digits(s[1..]) }

  ghost predicate Mentions(field: string, word: string) {
    exists a, b :: field == a + word + b
  }

  lemma MentionedIsContained(a: string, word: string, b: string)
    ensures Contains(a + word + b, word)
  {
    assert (a + word + b)[|a|..] == word + b;
  }

  lemma ContainedIsMentioned(field: string, word: string)
    requires Contains(field, word)
    ensures Mentions(field, word)
  {
    var i :| 0 <= i <= |field| && word <= field[i..];
    assert field == field[..i] + word + field[i..][|word|..];
  }

  lemma MentionsIsContains(field: string, word: string)
    ensures Mentions(field, word) <==> Contains(field, word)
  {
    if a, b :| field == a + word + b { MentionedIsContained(a, word, b); }
    if Contains(field, word) { ContainedIsMentioned(field, word); }
  }

  /** yyyy-mm-ddThh:mm:ss */
  predicate StampShaped(s: string) {
    |s| == 19 && DateShaped(s[..10]) && s[10] == 'T' && ClockShaped(s[11..])
  }

  lemma DateTextsAreShaped()
    ensures DateShaped("2026-11-05") && StampShaped("2026-11-05T10:00:00")
  {
    var date, stamp := "2026-11-05", "2026-11-05T10:00:00";
    assert stamp[..10] == date && stamp[11..] == "10:00:00";
    assert Digits(date[..4]) && Digits(date[5..7]) && Digits(date[8..]);
  }

  lemma MailTextIsShaped()
    ensures EmailShaped("qa.fuzz@example.com")
  {
    var mail := "qa.fuzz@example.com";
    assert mail[..7] == "qa.fuzz" && mail[8..] == "example.com";
    assert mail[7] == '@';
  }

  lemma PhoneTextIsShaped()
    ensures PhoneShaped("+94771234567")
  {
    assert "+94771234567"[1..] == "94771234567";
  }

  /** The text of a string follows its format, else its field name: a phone number for
      phone, contact and mobile fields, a plain text for all others. */
  lemma TextFollowsFormat(s: Schema, field: string, letters: Letters)
    requires s.kind == Some(One(StringType))
    ensures var v := LeafSample(s, field, letters);
            var phone := Mentions(field, "phone") || Mentions(field, "contact") || Mentions(field, "mobile");
            && v.Str?
            && match s.format {
                 case Some("date") => DateShaped(v.s)
                 case Some("date-time") => StampShaped(v.s)
                 case Some("email") => EmailShaped(v.s)
                 case _ => if phone then PhoneShaped(v.s) else v.s == PlainText(s.limits, letters)
               }
  {
    MentionsIsContains(field, "phone");
    MentionsIsContains(field, "contact");
    MentionsIsContains(field, "mobile");
    DateTextsAreShaped();
    MailTextIsShaped();
    PhoneTextIsShaped();
  }

  /** A scalar sample is valid exactly when its schema is one of these; the bounds of
      the schema decide it, whatever letters are drawn. */
  lemma LeafSampleValidIff(spec: Spec, r: Schema, field: string, letters: Letters)
    requires Resolved(r) && r.enum.None? && !IsObjectSchema(r) && !IsArraySchema(r)
    ensures IsValid(spec, LeafSample(r, field, letters), r) <==> LeafFits(r, field)
  {
    var v := LeafSample(r, field, letters);
    PlainTextLength(r.limits, letters);
    assert Integral(1.0);
    assert forall n :: Valid(spec, n, v, r) <==> n > 0 && TypeHolds(v, r.kind) && LimitsHold(v, r.limits);
    assert TypeHolds(v, r.kind) && LimitsHold(v, r.limits) ==> Valid(spec, 1, v, r);
  }

  // ---------------------------------------------------------------------------
  // When a sample is valid.

  /** Resolving loses nothing and ends, and the resolved schema is as below. */
  ghost predicate Samplable(spec: Spec, s: Schema, depth: nat, field: string)
    decreases Rest(depth), 1
  {
    Lossless(spec, s, 0) && Resolve(spec, s, 0).Some? && Fits(spec, Resolve(spec, s, 0).value, depth, field)
  }

  /** A default or first enum value is itself valid; required properties are declared,
      fit the nesting limit and the property counts, and are samplable in turn; arrays
      fit theirs; scalars fit. */
  ghost predicate Fits(spec: Spec, r: Schema, depth: nat, field: string)
    decreases Rest(depth), 0
  {
    Resolved(r) &&
    if HasDefault(r) then IsValid(spec, r.default.value, r)
    else if r.enum.Some? then r.enum.value != [] && IsValid(spec, r.enum.value[0], r)
    else if IsObjectSchema(r) then
      && Admits(r.kind, ObjectType)
      && RequiredOf(r) <= PropertiesOf(r).Keys
      && Within(|RequiredOf(r)|, r.limits.minProperties, r.limits.maxProperties)
      && if depth > 3 then RequiredOf(r) == {}
         else forall k | k in RequiredOf(r) :: Samplable(spec, PropertiesOf(r)[k], depth + 1, k)
    else if IsArraySchema(r) then
      if depth >= 3 then r.limits.minItems.Some? ==> r.limits.minItems.value == 0
      else
        && Samplable(spec, ItemsOf(r), depth + 1, field)
        && (r.limits.maxItems.Some? ==>
              1 <= r.limits.maxItems.value
              && (r.limits.minItems.Some? ==> r.limits.minItems.value <= r.limits.maxItems.value))
    else LeafFits(r, field)
  }

  function ItemsOf(r: Schema): Schema { GetOr(r.items, EMPTY) }

  /** Objects below the nesting limit come out empty: valid exactly when the schema
      admits objects without properties. */
  lemma CutOffValidIff(spec: Spec, r: Schema, depth: nat, field: string, draws: Draws)
    requires depth > 3 && Resolved(r) && !HasDefault(r) && r.enum.None? && IsObjectSchema(r)
    ensures var v := SampleResolved(spec, r, depth, field, draws);
            v.Some? && (IsValid(spec, v.value, r) <==>
              Admits(r.kind, ObjectType) && RequiredOf(r) == {}
              && Within(0, r.limits.minProperties, r.limits.maxProperties))
  {
    var v := Obj(map[]);
    assert TypeHolds(v, r.kind) <==> Admits(r.kind, ObjectType);
    assert RequiredOf(r) <= v.fields.Keys <==> RequiredOf(r) == {};
    assert AssertionsHold(v, r) ==> Valid(spec, 1, v, r);
    assert forall n | Valid(spec, n, v, r) :: AssertionsHold(v, r);
  }

  /** A sampled object is valid exactly when its properties are, all required ones are
      among them, and their number is in bounds. */
  lemma ObjectIsValidIff(spec: Spec, fields: map<string, Json>, r: Schema)
    requires Resolved(r) && r.enum.None? && fields.Keys == SampledKeys(r)
    ensures IsValid(spec, Obj(fields), r) <==>
            && Admits(r.kind, ObjectType) && RequiredOf(r) <= PropertiesOf(r).Keys
            && Within(|RequiredOf(r)|, r.limits.minProperties, r.limits.maxProperties)
            && forall k | k in fields :: IsValid(spec, fields[k], PropertiesOf(r)[k])
  {
    var v := Obj(fields);
    assert TypeHolds(v, r.kind) <==> Admits(r.kind, ObjectType);
    assert RequiredOf(r) <= PropertiesOf(r).Keys ==> fields.Keys == RequiredOf(r);
    assert |fields| == |fields.Keys|;
    if IsValid(spec, v, r) {
      var n: nat :| Valid(spec, n, v, r);
      assert forall k | k in fields :: Valid(spec, n - 1, fields[k], PropertiesOf(r)[k]);
    }
    if RequiredOf(r) <= PropertiesOf(r).Keys && forall k | k in fields :: IsValid(spec, fields[k], PropertiesOf(r)[k]) {
      var n := CommonFieldSteps(spec, fields, PropertiesOf(r));
      assert AssertionsHold(v, r) ==> Valid(spec, n + 1, v, r);
    }
  }

  lemma ArrayIsValidIff(spec: Spec, items: seq<Json>, r: Schema)
    requires Resolved(r) && r.enum.None? && IsArraySchema(r)
    ensures IsValid(spec, Arr(items), r) <==>
            && Within(|items|, r.limits.minItems, r.limits.maxItems)
            && forall i | 0 <= i < |items| :: IsValid(spec, items[i], ItemsOf(r))
  {
    var v := Arr(items);
    assert r.items.None? ==> forall i | 0 <= i < |items| :: Valid(spec, 1, items[i], EMPTY);
    if IsValid(spec, v, r) {
      var n: nat :| Valid(spec, n, v, r);
      assert r.items.Some? ==> forall i | 0 <= i < |items| :: Valid(spec, n - 1, items[i], r.items.value);
    }
    if forall i | 0 <= i < |items| :: IsValid(spec, items[i], ItemsOf(r)) {
      var n := CommonSteps(spec, items, seq(|items|, _ => ItemsOf(r)));
      assert AssertionsHold(v, r) ==> Valid(spec, n + 1, v, r);
    }
  }

  /** The sample of a samplable schema is valid for that schema as it was given, not
      only for its resolved form. */
  lemma {:induction false} SampleIsValid(spec: Spec, s: Schema, depth: nat, field: string, draws: Draws)
    requires Samplable(spec, s, depth, field)
    ensures var v := Sample(spec, s, depth, field, draws); v.Some? && IsValid(spec, v.value, s)
    decreases Rest(depth), 1
  {
    var r := Resolve(spec, s, 0).value;
    ResolvedSampleIsValid(spec, r, depth, field, draws);
    var v := SampleResolved(spec, r, depth, field, draws).value;
    var n: nat :| Valid(spec, n, v, r);
    ResolvedValidIsValid(spec, s, 0, n, v);
  }

  lemma {:induction false} ResolvedSampleIsValid(spec: Spec, r: Schema, depth: nat, field: string, draws: Draws)
    requires Fits(spec, r, depth, field)
    ensures var v := SampleResolved(spec, r, depth, field, draws); v.Some? && IsValid(spec, v.value, r)
    decreases Rest(depth), 0, 1
  {
    if HasDefault(r) || r.enum.Some? {
    } else if IsObjectSchema(r) {
      if depth > 3 { CutOffValidIff(spec, r, depth, field, draws); }
      else { SampledObjectIsValid(spec, r, depth, field, draws); }
    } else if IsArraySchema(r) {
      SampledArrayIsValid(spec, r, depth, field, draws);
    } else {
      LeafSampleValidIff(spec, r, field, draws([]));
    }
  }

  lemma {:induction false} SampledObjectIsValid(spec: Spec, r: Schema, depth: nat, field: string, draws: Draws)
    requires Fits(spec, r, depth, field) && depth <= 3 && !HasDefault(r) && r.enum.None? && IsObjectSchema(r)
    ensures var v := SampleResolved(spec, r, depth, field, draws); v.Some? && IsValid(spec, v.value, r)
    decreases Rest(depth), 0, 0
  {
    forall k | k in SampledKeys(r)
      ensures var v := Sample(spec, PropertiesOf(r)[k], depth + 1, k, Below(draws, Field(k)));
              v.Some? && IsValid(spec, v.value, PropertiesOf(r)[k])
    {
      SampleIsValid(spec, PropertiesOf(r)[k], depth + 1, k, Below(draws, Field(k)));
    }
    ObjectIsValidIff(spec, SampleResolved(spec, r, depth, field, draws).value.fields, r);
  }

  lemma {:induction false} SampledArrayIsValid(spec: Spec, r: Schema, depth: nat, field: string, draws: Draws)
    requires Fits(spec, r, depth, field) && !HasDefault(r) && r.enum.None? && !IsObjectSchema(r) && IsArraySchema(r)
    ensures var v := SampleResolved(spec, r, depth, field, draws); v.Some? && IsValid(spec, v.value, r)
    decreases Rest(depth), 0, 0
  {
    if depth < 3 {
      forall i | 0 <= i < ItemCount(r.limits)
        ensures var v := Sample(spec, ItemsOf(r), depth + 1, field, Below(draws, Item(i)));
                v.Some? && IsValid(spec, v.value, ItemsOf(r))
      {
        SampleIsValid(spec, ItemsOf(r), depth + 1, field, Below(draws, Item(i)));
      }
    }
    ArrayIsValidIff(spec, SampleResolved(spec, r, depth, field, draws).value.items, r);
  }

  // The converse.

  /** Wherever the sampler goes from `s`, resolving loses nothing, ends, and picks no
      branch of an `anyOf`. */
  predicate Plain(spec: Spec, s: Schema, depth: nat)
    decreases Rest(depth), 1
  {
    Lossless(spec, s, 0) && PicksNone(spec, s, 0) && Resolve(spec, s, 0).Some?
      && PlainWithin(spec, Resolve(spec, s, 0).value, depth)
  }

  predicate PlainWithin(spec: Spec, r: Schema, depth: nat)
    decreases Rest(depth), 0
  {
    Resolved(r) &&
    if HasDefault(r) || r.enum.Some? then true
    else if IsObjectSchema(r) then
      depth <= 3 ==> forall k | k in SampledKeys(r) :: Plain(spec, PropertiesOf(r)[k], depth + 1)
    else if IsArraySchema(r) then depth < 3 ==> Plain(spec, ItemsOf(r), depth + 1)
    else true
  }

  lemma MergedSampleIsObject(spec: Spec, r: Schema, depth: nat, field: string, draws: Draws)
    requires r == Merged(PropertiesOf(r), RequiredOf(r))
    ensures var v := SampleResolved(spec, r, depth, field, draws); v.Some? ==> v.value.Obj?
  {
    assert !HasDefault(r) && r.enum.None? && IsObjectSchema(r);
  }

  /** On such schemas nothing else is sampled well: the sample exists and is valid
      exactly if the schema is samplable. */
  lemma {:induction false} SampleIsValidIff(spec: Spec, s: Schema, depth: nat, field: string, draws: Draws)
    requires Plain(spec, s, depth)
    ensures var v := Sample(spec, s, depth, field, draws);
            v.Some? && IsValid(spec, v.value, s) <==> Samplable(spec, s, depth, field)
    decreases Rest(depth), 1
  {
    var v := Sample(spec, s, depth, field, draws);
    if Samplable(spec, s, depth, field) { SampleIsValid(spec, s, depth, field, draws); }
    if v.Some? && IsValid(spec, v.value, s) {
      var n: nat :| Valid(spec, n, v.value, s);
      if Merges(spec, s, 0) {
        MergesIntoObject(spec, s, 0);
        MergedSampleIsObject(spec, Resolve(spec, s, 0).value, depth, field, draws);
      }
      ValidIsResolvedValid(spec, s, 0, n, v.value);
      ValidSampleFits(spec, Resolve(spec, s, 0).value, depth, field, draws);
    }
  }

  lemma {:induction false} ValidSampleFits(spec: Spec, r: Schema, depth: nat, field: string, draws: Draws)
    requires PlainWithin(spec, r, depth)
    requires var v := SampleResolved(spec, r, depth, field, draws); v.Some? && IsValid(spec, v.value, r)
    ensures Fits(spec, r, depth, field)
    decreases Rest(depth), 0, 1
  {
    if HasDefault(r) || r.enum.Some? {
    } else if IsObjectSchema(r) {
      if depth > 3 { CutOffValidIff(spec, r, depth, field, draws); }
      else { ValidObjectFits(spec, r, depth, field, draws); }
    } else if IsArraySchema(r) {
      ValidArrayFits(spec, r, depth, field, draws);
    } else {
      LeafSampleValidIff(spec, r, field, draws([]));
    }
  }

  lemma {:induction false} ValidObjectFits(spec: Spec, r: Schema, depth: nat, field: string, draws: Draws)
    requires PlainWithin(spec, r, depth) && depth <= 3 && !HasDefault(r) && r.enum.None? && IsObjectSchema(r)
    requires var v := SampleResolved(spec, r, depth, field, draws); v.Some? && IsValid(spec, v.value, r)
    ensures Fits(spec, r, depth, field)
    decreases Rest(depth), 0, 0
  {
    var fields := SampleResolved(spec, r, depth, field, draws).value.fields;
    ObjectIsValidIff(spec, fields, r);
    forall k | k in RequiredOf(r) ensures Samplable(spec, PropertiesOf(r)[k], depth + 1, k) {
      assert k in fields;
      SampleIsValidIff(spec, PropertiesOf(r)[k], depth + 1, k, Below(draws, Field(k)));
    }
  }

  lemma {:induction false} ValidArrayFits(spec: Spec, r: Schema, depth: nat, field: string, draws: Draws)
    requires PlainWithin(spec, r, depth) && !HasDefault(r) && r.enum.None? && !IsObjectSchema(r) && IsArraySchema(r)
    requires var v := SampleResolved(spec, r, depth, field, draws); v.Some? && IsValid(spec, v.value, r)
    ensures Fits(spec, r, depth, field)
    decreases Rest(depth), 0, 0
  {
    var items := SampleResolved(spec, r, depth, field, draws).value.items;
    ArrayIsValidIff(spec, items, r);
    if depth < 3 {
      assert IsValid(spec, items[0], ItemsOf(r));
      SampleIsValidIff(spec, ItemsOf(r), depth + 1, field, Below(draws, Item(0)));
    }
  }

  /** A default is taken before anything else unless it is null, which counts as none;
      then the first enum value; an empty enum raises. */
  lemma DefaultThenEnum(spec: Spec, r: Schema, depth: nat, field: string, draws: Draws)
    ensures var v := SampleResolved(spec, r, depth, field, draws);
            && (forall d | r.default == Some(d) && d != Null :: v == Some(d))
            && ((r.default == None || r.default == Some(Null)) && r.enum.Some? ==>
                  if r.enum.value == [] then v == None else v == Some(r.enum.value[0]))
  {
  }
}
