/** The range and pattern validators the derive emits for a field
    (crates/serde_valid_derive/src/attribute/field_validate/numeric/range.rs and
    .../string/pattern.rs): the compile-time extraction that chooses the error
    key and checks the literal, and the emitted runtime step that appends one
    error to that key's list when the lifted check fails. */
module FieldRules {
  import opened Wrappers
  import opened Decimal
  import opened Number
  import opened ValidationErrors
  import opened LeafRules
  import opened Composited
  import opened DeriveTypes
  import opened LitRules

  /** A struct field as the derive sees it: its name, its identifier, and its default error key. */
  datatype Field<K> = Field(name: string, ident: string, key: K)

  /** `rename_map.get(field_name).unwrap_or(&field_key)`. */
  function ErrorKey<K>(field: Field<K>, renameMap: map<string, K>): (k: K)
    ensures field.name in renameMap ==> k == renameMap[field.name]
    ensures field.name !in renameMap ==> k == field.key
  {
    if field.name in renameMap then renameMap[field.name] else field.key
  }

  // ----- The error map the emitted code appends to -----

  /** `entry(key).or_default()`: the list at `key`, empty when absent. */
  function ListAt<K>(m: map<K, seq<Error>>, key: K): seq<Error>
  {
    if key in m then m[key] else []
  }

  /** The map after `entry(key).or_default().push(e)`. */
  function Appended<K>(m: map<K, seq<Error>>, key: K, e: Error): (r: map<K, seq<Error>>)
    ensures r.Keys == m.Keys + {key}
    ensures r[key] == ListAt(m, key) + [e]
    ensures forall k :: k in m && k != key ==> r[k] == m[k]
  {
    m[key := ListAt(m, key) + [e]]
  }

  /** The errors map of the generated `validate` body (`__property_vec_errors_map` or
      `__item_vec_errors_map`), updated in place. */
  class ErrorsMap<K(==)> {
    var entries: map<K, seq<Error>>

    constructor ()
      ensures entries == map[]
    {
      entries := map[];
    }

    /** `errors.entry(key).or_default().push(e)`. */
    method Push(key: K, e: Error)
      modifies this
      ensures entries == Appended(old(entries), key, e)
    {
      var list := if key in entries then entries[key] else [];
      entries := entries[key := list + [e]];
    }
  }

  // ----- Range validators -----

  datatype RangeKind = MaximumRule | MinimumRule | ExclusiveMaximumRule | ExclusiveMinimumRule

  /** The code one range attribute expands to: which check, the key, the literal limit, the format. */
  datatype RangeValidator<K> = RangeValidator(kind: RangeKind, key: K, limit: LitNumeric, format: MessageFormat)

  /** `inner_extract_numeric_*_validator`, shared by the four range kinds: the literal must be numeric. */
  function ExtractNumericRangeValidator<K>(
    kind: RangeKind, field: Field<K>, lit: Lit, format: MessageFormat, renameMap: map<string, K>
  ): (r: Result<RangeValidator<K>, seq<DeriveError>>)
    ensures r.Ok? <==> lit.Int? || lit.Float?
    ensures r.Err? ==> r.error == [NumericLiteralOnly]
    ensures r.Ok? ==> && r.value.kind == kind
                      && r.value.key == ErrorKey(field, renameMap)
                      && NumericToLit(r.value.limit) == lit
  {
    match GetNumeric(lit)
    case Err(errors) => Err(errors)
    case Ok(limit) => Ok(RangeValidator(kind, ErrorKey(field, renameMap), limit, format))
  }

  /** The leaf check of one range kind. */
  function RangeCheck(kind: RangeKind, limit: Number): int -> Result<(), Failure>
  {
    match kind
    case MaximumRule => x => ValidateMaximum(x, limit)
    case MinimumRule => x => ValidateMinimum(x, limit)
    case ExclusiveMaximumRule => x => ValidateExclusiveMaximum(x, limit)
    case ExclusiveMinimumRule => x => ValidateExclusiveMinimum(x, limit)
  }

  /** The integer limit typed as the field's element type `t` (a float literal does not
      type-check against an integer field). */
  predicate LimitFits<K>(v: RangeValidator<K>, t: RustType)
  {
    v.limit.NumericInt? && Fits(t, v.limit.intValue)
  }

  /** `validate_composited_*`: the leaf check lifted over the field's Option/Vec shape. */
  function RangeOutcome<K>(v: RangeValidator<K>, t: RustType, value: Composited<int>): Result<(), CompositedFailure<Failure>>
    requires LimitFits(v, t)
  {
    Validate(value, RangeCheck(v.kind, From(t, v.limit.intValue)))
  }

  /** The map after the emitted block of one range validator. */
  function AfterRange<K>(m: map<K, seq<Error>>, v: RangeValidator<K>, t: RustType, value: Composited<int>): (r: map<K, seq<Error>>)
    requires LimitFits(v, t)
    ensures RangeOutcome(v, t, value).Ok? ==> r == m
    ensures RangeOutcome(v, t, value).Err? ==>
              r == Appended(m, v.key, IntoCompositedError(RangeOutcome(v, t, value).error, v.format))
  {
    match RangeOutcome(v, t, value)
    case Ok(_) => m
    case Err(params) => Appended(m, v.key, IntoCompositedError(params, v.format))
  }

  /** The emitted block: on failure, push one error at the end of the key's list. */
  method RunRangeValidator<K>(errors: ErrorsMap<K>, v: RangeValidator<K>, t: RustType, value: Composited<int>)
    requires LimitFits(v, t)
    modifies errors
    ensures errors.entries == AfterRange(old(errors.entries), v, t, value)
  {
    var outcome := Validate(value, RangeCheck(v.kind, From(t, v.limit.intValue)));
    if outcome.Err? {
      errors.Push(v.key, IntoCompositedError(outcome.error, v.format));
    }
  }

  /** The map after several range validators on one field, in declaration order. */
  function AfterRanges<K>(m: map<K, seq<Error>>, vs: seq<RangeValidator<K>>, t: RustType, value: Composited<int>): (r: map<K, seq<Error>>)
    requires forall i :: 0 <= i < |vs| ==> LimitFits(vs[i], t)
    ensures m.Keys <= r.Keys
    ensures forall k :: k in m ==> m[k] <= r[k]
  {
    if vs == [] then m else AfterRange(AfterRanges(m, vs[..|vs| - 1], t, value), vs[|vs| - 1], t, value)
  }

  /** The generated `validate` body running every range attribute of one field; no check is skipped. */
  method RunRangeValidators<K>(errors: ErrorsMap<K>, vs: seq<RangeValidator<K>>, t: RustType, value: Composited<int>)
    requires forall i :: 0 <= i < |vs| ==> LimitFits(vs[i], t)
    modifies errors
    ensures errors.entries == AfterRanges(old(errors.entries), vs, t, value)
  {
    var i := 0;
    while i < |vs|
      invariant 0 <= i <= |vs|
      invariant errors.entries == AfterRanges(old(errors.entries), vs[..i], t, value)
    {
      AfterRangesSnoc(old(errors.entries), vs, i, t, value);
      RunRangeValidator(errors, vs[i], t, value);
      i := i + 1;
    }
    assert vs[..i] == vs;
  }

  /** One more validator runs after those of a prefix. */
  lemma AfterRangesSnoc<K>(m: map<K, seq<Error>>, vs: seq<RangeValidator<K>>, i: nat, t: RustType, value: Composited<int>)
    requires i < |vs|
    requires forall j :: 0 <= j < |vs| ==> LimitFits(vs[j], t)
    ensures AfterRanges(m, vs[..i + 1], t, value) == AfterRange(AfterRanges(m, vs[..i], t, value), vs[i], t, value)
  {
    assert vs[..i + 1][..i] == vs[..i];
  }

  /** The error one validator reports: none on success, one on failure. */
  function StepErrors<K>(v: RangeValidator<K>, t: RustType, value: Composited<int>): (r: seq<Error>)
    requires LimitFits(v, t)
    ensures |r| <= 1
    ensures r == [] <==> RangeOutcome(v, t, value).Ok?
  {
    match RangeOutcome(v, t, value)
    case Ok(_) => []
    case Err(params) => [IntoCompositedError(params, v.format)]
  }

  /** The errors one field's validators report, in declaration order. */
  function RangeErrors<K>(vs: seq<RangeValidator<K>>, t: RustType, value: Composited<int>): (r: seq<Error>)
    requires forall i :: 0 <= i < |vs| ==> LimitFits(vs[i], t)
    ensures |r| <= |vs|
  {
    if vs == [] then []
    else RangeErrors(vs[..|vs| - 1], t, value) + StepErrors(vs[|vs| - 1], t, value)
  }

  /** One validator appends its own errors under its key and touches no other key. */
  lemma AfterRangeStep<K>(m: map<K, seq<Error>>, v: RangeValidator<K>, t: RustType, value: Composited<int>)
    requires LimitFits(v, t)
    ensures var r := AfterRange(m, v, t, value);
      && ListAt(r, v.key) == ListAt(m, v.key) + StepErrors(v, t, value)
      && (forall k :: k != v.key ==> (k in r <==> k in m))
      && (forall k :: k != v.key && k in m ==> r[k] == m[k])
  {
  }

  /** Validators sharing one key append exactly the errors of the failing checks, in declaration
      order, and touch no other key. */
  lemma RangesAppendInOrder<K>(m: map<K, seq<Error>>, vs: seq<RangeValidator<K>>, t: RustType, value: Composited<int>, key: K)
    requires forall i :: 0 <= i < |vs| ==> LimitFits(vs[i], t) && vs[i].key == key
    ensures var r := AfterRanges(m, vs, t, value);
      && ListAt(r, key) == ListAt(m, key) + RangeErrors(vs, t, value)
      && (forall k :: k != key ==> (k in r <==> k in m))
      && (forall k :: k != key && k in m ==> r[k] == m[k])
  {
    RangesAppendAtKey(m, vs, t, value, key);
    RangesKeepOtherKeys(m, vs, t, value, key);
  }

  lemma {:induction false} RangesAppendAtKey<K>(m: map<K, seq<Error>>, vs: seq<RangeValidator<K>>, t: RustType, value: Composited<int>, key: K)
    requires forall i :: 0 <= i < |vs| ==> LimitFits(vs[i], t) && vs[i].key == key
    ensures ListAt(AfterRanges(m, vs, t, value), key) == ListAt(m, key) + RangeErrors(vs, t, value)
  {
    if vs != [] {
      var init, v := vs[..|vs| - 1], vs[|vs| - 1];
      var p := AfterRanges(m, init, t, value);
      var a, b, c := ListAt(m, key), RangeErrors(init, t, value), StepErrors(v, t, value);
      assert ListAt(p, key) == a + b by {
        RangesAppendAtKey(m, init, t, value, key);
      }
      assert ListAt(AfterRange(p, v, t, value), key) == (a + b) + c by {
        AfterRangeStep(p, v, t, value);
      }
      assert AfterRanges(m, vs, t, value) == AfterRange(p, v, t, value);
      assert RangeErrors(vs, t, value) == b + c;
      ConcatAssociative(a, b, c);
    }
  }

  lemma ConcatAssociative<T>(a: seq<T>, b: seq<T>, c: seq<T>)
    ensures (a + b) + c == a + (b + c)
  {
  }

  lemma {:induction false} RangesKeepOtherKeys<K>(m: map<K, seq<Error>>, vs: seq<RangeValidator<K>>, t: RustType, value: Composited<int>, key: K)
    requires forall i :: 0 <= i < |vs| ==> LimitFits(vs[i], t) && vs[i].key == key
    ensures var r := AfterRanges(m, vs, t, value);
      && (forall k :: k != key ==> (k in r <==> k in m))
      && (forall k :: k != key && k in m ==> r[k] == m[k])
  {
    if vs != [] {
      var init, v := vs[..|vs| - 1], vs[|vs| - 1];
      RangesKeepOtherKeys(m, init, t, value, key);
      var p := AfterRanges(m, init, t, value);
      AfterRangeStep(p, v, t, value);
      assert AfterRanges(m, vs, t, value) == AfterRange(p, v, t, value);
    }
  }

  /** Two validators on one field run one after the other. */
  lemma TwoRanges<K>(m: map<K, seq<Error>>, v0: RangeValidator<K>, v1: RangeValidator<K>, t: RustType, value: Composited<int>)
    requires LimitFits(v0, t) && LimitFits(v1, t)
    ensures AfterRanges(m, [v0, v1], t, value) == AfterRange(AfterRange(m, v0, t, value), v1, t, value)
  {
    var vs := [v0, v1];
    assert AfterRanges(m, [v0], t, value) == AfterRange(m, v0, t, value) by {
      AfterRangesSnoc(m, vs, 0, t, value);
      assert vs[..0] == [] && vs[..1] == [v0];
    }
    AfterRangesSnoc(m, vs, 1, t, value);
    assert vs[..1] == [v0] && vs[..2] == vs;
  }

  /** Two reports that differ at most in their texts: the same leaf failure, or array reports
      over the same indices. */
  predicate SameReport(a: Error, b: Error)
  {
    && (a.Leaf? <==> b.Leaf?)
    && (a.Leaf? ==> a.failure == b.failure)
    && (a.Items? <==> b.Items?)
    && (a.Items? ==> a.arrayErrors.items.Keys == b.arrayErrors.items.Keys)
  }

  /** Two validators that differ only in their message format fail together, with reports that
      differ only in their texts. */
  lemma FormatOnlyChangesText<K>(v: RangeValidator<K>, w: RangeValidator<K>, t: RustType, value: Composited<int>)
    requires LimitFits(v, t) && w == v.(format := w.format)
    ensures |StepErrors(v, t, value)| == |StepErrors(w, t, value)|
    ensures StepErrors(v, t, value) != [] ==> SameReport(StepErrors(v, t, value)[0], StepErrors(w, t, value)[0])
  {
    assert RangeOutcome(v, t, value) == RangeOutcome(w, t, value);
  }

  /** A custom `message` or `message_fn` changes the text only: every validator fails under one
      format exactly when it fails under the other, and the reports in the key's list match
      position by position except for their texts. */
  lemma FormatDoesNotChangeOutcome<K>(vs: seq<RangeValidator<K>>, ws: seq<RangeValidator<K>>, t: RustType, value: Composited<int>)
    requires |vs| == |ws|
    requires forall i :: 0 <= i < |vs| ==> LimitFits(vs[i], t) && ws[i] == vs[i].(format := ws[i].format)
    ensures forall i :: 0 <= i < |vs| ==> (StepErrors(vs[i], t, value) == [] <==> StepErrors(ws[i], t, value) == [])
    ensures |RangeErrors(vs, t, value)| == |RangeErrors(ws, t, value)|
    ensures forall j :: 0 <= j < |RangeErrors(vs, t, value)| ==> SameReport(RangeErrors(vs, t, value)[j], RangeErrors(ws, t, value)[j])
  {
    forall i | 0 <= i < |vs|
      ensures StepErrors(vs[i], t, value) == [] <==> StepErrors(ws[i], t, value) == []
    {
      FormatOnlyChangesText(vs[i], ws[i], t, value);
    }
    SameReportsInOrder(vs, ws, t, value);
  }

  /** The reports of validators differing only in format match position by position. */
  lemma {:induction false} SameReportsInOrder<K>(vs: seq<RangeValidator<K>>, ws: seq<RangeValidator<K>>, t: RustType, value: Composited<int>)
    requires |vs| == |ws|
    requires forall i :: 0 <= i < |vs| ==> LimitFits(vs[i], t) && ws[i] == vs[i].(format := ws[i].format)
    ensures |RangeErrors(vs, t, value)| == |RangeErrors(ws, t, value)|
    ensures forall j :: 0 <= j < |RangeErrors(vs, t, value)| ==> SameReport(RangeErrors(vs, t, value)[j], RangeErrors(ws, t, value)[j])
  {
    if vs != [] {
      var n := |vs| - 1;
      SameReportsInOrder(vs[..n], ws[..n], t, value);
      FormatOnlyChangesText(vs[n], ws[n], t, value);
      SameReportsAppend(RangeErrors(vs[..n], t, value), RangeErrors(ws[..n], t, value),
                        StepErrors(vs[n], t, value), StepErrors(ws[n], t, value));
    }
  }

  lemma SameReportsAppend(a: seq<Error>, b: seq<Error>, x: seq<Error>, y: seq<Error>)
    requires |a| == |b| && (forall j :: 0 <= j < |a| ==> SameReport(a[j], b[j]))
    requires |x| == |y| <= 1 && (x != [] ==> SameReport(x[0], y[0]))
    ensures forall j :: 0 <= j < |a + x| ==> SameReport((a + x)[j], (b + y)[j])
  {
    forall j | 0 <= j < |a + x|
      ensures SameReport((a + x)[j], (b + y)[j])
    {
      if j >= |a| {
        assert (a + x)[j] == x[0] && (b + y)[j] == y[0];
      }
    }
  }

  // ----- Pattern validator -----

  function ToUpperChar(c: char): char
  {
    if 'a' <= c <= 'z' then (c as int - 32) as char else c
  }

  function ToUpper(s: string): (r: string)
    ensures |r| == |s|
    ensures forall i :: 0 <= i < |s| ==> r[i] == ToUpperChar(s[i])
    ensures forall i :: 0 <= i < |r| ==> !('a' <= r[i] <= 'z')
    ensures forall i :: 0 <= i < |s| && !('a' <= s[i] <= 'z') ==> r[i] == s[i]
    ensures forall i :: 0 <= i < |s| && 'a' <= s[i] <= 'z' ==> r[i] as int == s[i] as int - 32
  {
    seq(|s|, i requires 0 <= i < |s| => ToUpperChar(s[i]))
  }

  /** The name of the static that caches the compiled pattern: `{ident}_PATTERN`, upper-cased. */
  function PatternStaticName(ident: string): (r: string)
    ensures |r| == |ident| + 8
    ensures r[..|ident|] == ToUpper(ident)
    ensures r[|ident|..] == "_PATTERN"
    ensures ToUpper(r) == r
  {
    var r := ToUpper(ident + "_PATTERN");
    assert r[..|ident|] == ToUpper(ident);
    assert r[|ident|..] == "_PATTERN";
    r
  }

  /** A compiled regular expression; compilation and matching are not modelled. */
  datatype Regex = Regex(source: string)

  function Compile(pattern: string): Regex
  {
    Regex(pattern)
  }

  /** The code one `pattern` attribute expands to. */
  datatype PatternValidator<K> = PatternValidator(key: K, pattern: string, staticName: string, format: MessageFormat)

  /** `inner_extract_string_pattern_validator`: the literal must be a string. */
  function ExtractStringPatternValidator<K>(field: Field<K>, lit: Lit, format: MessageFormat, renameMap: map<string, K>)
    : (r: Result<PatternValidator<K>, seq<DeriveError>>)
    ensures r.Ok? <==> lit.Str?
    ensures r.Err? ==> r.error == [StrLiteralOnly]
    ensures r.Ok? ==> && r.value.key == ErrorKey(field, renameMap)
                      && r.value.pattern == lit.text
                      && r.value.staticName == PatternStaticName(field.ident)
  {
    match GetStr(lit)
    case Err(errors) => Err(errors)
    case Ok(pattern) => Ok(PatternValidator(ErrorKey(field, renameMap), pattern, PatternStaticName(field.ident), format))
  }

  /** The `OnceCell` static holding the compiled pattern. */
  class PatternCell {
    var cell: Option<Regex>

    constructor ()
      ensures cell == None
    {
      cell := None;
    }

    /** `get_or_init`: compiles on the first call only; later calls return the stored pattern. */
    method GetOrInit(pattern: string) returns (r: Regex)
      modifies this
      ensures old(cell).Some? ==> r == old(cell).value && cell == old(cell)
      ensures old(cell).None? ==> r == Compile(pattern) && cell == Some(r)
    {
      if cell.None? {
        cell := Some(Compile(pattern));
      }
      r := cell.value;
    }
  }

  /** The pattern leaf check, with matching given as a parameter. */
  function PatternCheck(regex: Regex, isMatch: (Regex, string) -> bool): string -> Result<(), Failure>
  {
    s => if isMatch(regex, s) then Ok(()) else Err(Pattern(regex.source))
  }

  /** The emitted block of one pattern validator. */
  method RunPatternValidator<K>(
    errors: ErrorsMap<K>, v: PatternValidator<K>, cache: PatternCell, value: Composited<string>,
    isMatch: (Regex, string) -> bool)
    modifies errors, cache
    ensures old(cache.cell).None? ==> cache.cell == Some(Compile(v.pattern))
    ensures old(cache.cell).Some? ==> cache.cell == old(cache.cell)
    ensures var regex := cache.cell.value;
      var outcome := Validate(value, PatternCheck(regex, isMatch));
      errors.entries == if outcome.Ok? then old(errors.entries)
                        else Appended(old(errors.entries), v.key, IntoCompositedError(outcome.error, v.format))
  {
    var regex := cache.GetOrInit(v.pattern);
    var outcome := Validate(value, PatternCheck(regex, isMatch));
    if outcome.Err? {
      errors.Push(v.key, IntoCompositedError(outcome.error, v.format));
    }
  }

  // ----- The range test cases -----

  function I32Field(): Field<string>
  {
    Field("val", "val", "val")
  }

  /** Two validators on one key of an empty map where only the first fails: the key holds
      the first report alone. */
  lemma OnlyFirstFails<K>(v0: RangeValidator<K>, v1: RangeValidator<K>, t: RustType, value: Composited<int>, e: Error)
    requires LimitFits(v0, t) && LimitFits(v1, t)
    requires RangeOutcome(v0, t, value).Err? && IntoCompositedError(RangeOutcome(v0, t, value).error, v0.format) == e
    requires RangeOutcome(v1, t, value).Ok?
    ensures AfterRanges(map[], [v0, v1], t, value) == map[v0.key := [e]]
  {
    TwoRanges(map[], v0, v1, t, value);
    var none: map<K, seq<Error>> := map[];
    assert ListAt(none, v0.key) + [e] == [e];
  }

  /** `minimum = 1, maximum = 10` on the value 0: only the minimum is reported, with its default text. */
  lemma InclusiveErrMessage()
    ensures var vs := [RangeValidator(MinimumRule, "val", NumericInt(1), DefaultFormat),
                       RangeValidator(MaximumRule, "val", NumericInt(10), DefaultFormat)];
      AfterRanges(map[], vs, I32Ty, Single(0)) == map["val" := [Leaf(Minimum(I32(1)), "The number must be `>= 1`.")]]
  {
    assert Prefix(Minimum(I32(1))) + IntText(1) + "`." == "The number must be `>= 1`." by {
      assert IntText(1) == "1";
    }
    DefaultNumberLeaf(Minimum(I32(1)), "The number must be `>= 1`.");
    var v0 := RangeValidator(MinimumRule, "val", NumericInt(1), DefaultFormat);
    var v1 := RangeValidator(MaximumRule, "val", NumericInt(10), DefaultFormat);
    assert From(I32Ty, 1) == I32(1) && From(I32Ty, 10) == I32(10);
    assert RangeOutcome(v0, I32Ty, Single(0)) == Err(SingleFailure(Minimum(I32(1))));
    assert RangeOutcome(v1, I32Ty, Single(0)).Ok?;
    OnlyFirstFails(v0, v1, I32Ty, Single(0), Leaf(Minimum(I32(1)), "The number must be `>= 1`."));
  }

  /** `exclusive_minimum = 1, exclusive_maximum = 10` on 0: only `> 1` is reported. */
  lemma ExclusiveErrMessage()
    ensures var vs := [RangeValidator(ExclusiveMinimumRule, "val", NumericInt(1), DefaultFormat),
                       RangeValidator(ExclusiveMaximumRule, "val", NumericInt(10), DefaultFormat)];
      AfterRanges(map[], vs, I32Ty, Single(0)) == map["val" := [Leaf(ExclusiveMinimum(I32(1)), "The number must be `> 1`.")]]
  {
    assert Prefix(ExclusiveMinimum(I32(1))) + IntText(1) + "`." == "The number must be `> 1`." by {
      assert IntText(1) == "1";
    }
    DefaultNumberLeaf(ExclusiveMinimum(I32(1)), "The number must be `> 1`.");
    var v0 := RangeValidator(ExclusiveMinimumRule, "val", NumericInt(1), DefaultFormat);
    var v1 := RangeValidator(ExclusiveMaximumRule, "val", NumericInt(10), DefaultFormat);
    assert From(I32Ty, 1) == I32(1) && From(I32Ty, 10) == I32(10);
    assert RangeOutcome(v0, I32Ty, Single(0)) == Err(SingleFailure(ExclusiveMinimum(I32(1))));
    assert RangeOutcome(v1, I32Ty, Single(0)).Ok?;
    OnlyFirstFails(v0, v1, I32Ty, Single(0), Leaf(ExclusiveMinimum(I32(1)), "The number must be `> 1`."));
  }

  /** `minimum = 5` and `maximum = 3` with custom messages on 4: both fail, in declaration order. */
  lemma CustomErrMessages()
    ensures var vs := [RangeValidator(MinimumRule, "val", NumericInt(5), Message("this is min custom message.")),
                       RangeValidator(MaximumRule, "val", NumericInt(3), Message("this is max custom message."))];
      AfterRanges(map[], vs, I32Ty, Single(4))
        == map["val" := [Leaf(Minimum(I32(5)), "this is min custom message."),
                         Leaf(Maximum(I32(3)), "this is max custom message.")]]
  {
    var v0 := RangeValidator(MinimumRule, "val", NumericInt(5), Message("this is min custom message."));
    var v1 := RangeValidator(MaximumRule, "val", NumericInt(3), Message("this is max custom message."));
    TwoRanges(map[], v0, v1, I32Ty, Single(4));
    assert From(I32Ty, 5) == I32(5) && From(I32Ty, 3) == I32(3);
    assert RangeOutcome(v0, I32Ty, Single(4)) == Err(SingleFailure(Minimum(I32(5))));
    assert RangeOutcome(v1, I32Ty, Single(4)) == Err(SingleFailure(Maximum(I32(3))));
    var e0 := Leaf(Minimum(I32(5)), "this is min custom message.");
    var e1 := Leaf(Maximum(I32(3)), "this is max custom message.");
    assert IntoCompositedError(SingleFailure(Minimum(I32(5))), v0.format) == e0;
    assert IntoCompositedError(SingleFailure(Maximum(I32(3))), v1.format) == e1;
    var m1 := AfterRange(map[], v0, I32Ty, Single(4));
    assert m1 == Appended(map[], "val", e0);
    assert ListAt(map[], "val") + [e0] == [e0];
    assert m1 == map["val" := [e0]];
    assert AfterRange(m1, v1, I32Ty, Single(4)) == Appended(m1, "val", e1);
    assert ListAt(m1, "val") + [e1] == [e0, e1];
  }

  /** `#[validate(minimum = lo)]` then `#[validate(maximum = hi)]` on an `i32` field. */
  function MinMax(lo: Int32, hi: Int32): (vs: seq<RangeValidator<string>>)
    ensures forall i :: 0 <= i < |vs| ==> LimitFits(vs[i], I32Ty)
  {
    [RangeValidator(MinimumRule, "val", NumericInt(lo), DefaultFormat),
     RangeValidator(MaximumRule, "val", NumericInt(hi), DefaultFormat)]
  }

  /** When every present element passes both checks, the pair of validators reports nothing. */
  lemma MinMaxReportsNothing(lo: Int32, hi: Int32, value: Composited<int>)
    requires AllPass(value, RangeCheck(MinimumRule, I32(lo))) && AllPass(value, RangeCheck(MaximumRule, I32(hi)))
    ensures AfterRanges(map[], MinMax(lo, hi), I32Ty, value) == map[]
  {
    var vs := MinMax(lo, hi);
    TwoRanges(map[], vs[0], vs[1], I32Ty, value);
    assert From(I32Ty, lo) == I32(lo) && From(I32Ty, hi) == I32(hi);
  }

  /** The converse: when some present element fails either check, the field's key is reported,
      and it is the only key. */
  lemma MinMaxReportsFailure(lo: Int32, hi: Int32, value: Composited<int>)
    requires !AllPass(value, RangeCheck(MinimumRule, I32(lo))) || !AllPass(value, RangeCheck(MaximumRule, I32(hi)))
    ensures AfterRanges(map[], MinMax(lo, hi), I32Ty, value).Keys == {"val"}
  {
    var vs := MinMax(lo, hi);
    assert From(I32Ty, lo) == I32(lo) && From(I32Ty, hi) == I32(hi);
    assert RangeOutcome(vs[0], I32Ty, value).Err? || RangeOutcome(vs[1], I32Ty, value).Err?;
    OneKeyReported(vs[0], vs[1], I32Ty, value);
    assert vs == [vs[0], vs[1]];
  }

  /** Two validators on one field, at least one failing: that field is the only key reported. */
  lemma OneKeyReported<K>(v0: RangeValidator<K>, v1: RangeValidator<K>, t: RustType, value: Composited<int>)
    requires LimitFits(v0, t) && LimitFits(v1, t) && v0.key == v1.key
    requires RangeOutcome(v0, t, value).Err? || RangeOutcome(v1, t, value).Err?
    ensures AfterRanges(map[], [v0, v1], t, value).Keys == {v0.key}
  {
    TwoRanges(map[], v0, v1, t, value);
    var m1 := AfterRange(map[], v0, t, value);
    assert m1.Keys <= {v0.key};
  }

  /** `minimum = 0, maximum = 20` on a `Vec<Vec<i32>>` of in-range values: nothing is reported. */
  lemma NestedVecRangePass()
    ensures AfterRanges(map[], MinMax(0, 20), I32Ty, Many([Many([Single(4), Single(8)]), Many([Single(12), Single(16)])])) == map[]
  {
    var lower, upper := RangeCheck(MinimumRule, I32(0)), RangeCheck(MaximumRule, I32(20));
    assert lower(4).Ok? && lower(8).Ok? && lower(12).Ok? && lower(16).Ok?;
    assert upper(4).Ok? && upper(8).Ok? && upper(12).Ok? && upper(16).Ok?;
    NestedPairsPass(lower);
    NestedPairsPass(upper);
    MinMaxReportsNothing(0, 20, Many([Many([Single(4), Single(8)]), Many([Single(12), Single(16)])]));
  }

  lemma NestedPairsPass<F>(check: int -> Result<(), F>)
    requires check(4).Ok? && check(8).Ok? && check(12).Ok? && check(16).Ok?
    ensures AllPass(Many([Many([Single(4), Single(8)]), Many([Single(12), Single(16)])]), check)
  {
    var a, b := Many([Single(4), Single(8)]), Many([Single(12), Single(16)]);
    assert AllPass(a, check) && AllPass(b, check);
  }

  /** `minimum = 0, maximum = 10` on `Some(5)`, on `Some(Some(5))` and on a `Vec<Option<i32>>`
      holding `None`: nothing is reported. */
  lemma OptionRangePass()
    ensures AfterRanges(map[], MinMax(0, 10), I32Ty, FromOption(Some(Single(5)))) == map[]
    ensures AfterRanges(map[], MinMax(0, 10), I32Ty, FromOption(Some(FromOption(Some(Single(5)))))) == map[]
    ensures AfterRanges(map[], MinMax(0, 10), I32Ty, Many([Single(4), Single(8), FromOption(None)])) == map[]
  {
    var lower, upper := RangeCheck(MinimumRule, I32(0)), RangeCheck(MaximumRule, I32(10));
    assert FromOption(Some(FromOption(Some(Single(5))))) == FromOption(Some(Single(5))) == Single(5);
    assert lower(4).Ok? && lower(5).Ok? && lower(8).Ok?;
    assert upper(4).Ok? && upper(5).Ok? && upper(8).Ok?;
    MinMaxReportsNothing(0, 10, Single(5));
    OptionsPass(lower);
    OptionsPass(upper);
    MinMaxReportsNothing(0, 10, Many([Single(4), Single(8), FromOption(None)]));
  }

  lemma OptionsPass<F>(check: int -> Result<(), F>)
    requires check(4).Ok? && check(8).Ok?
    ensures AllPass(Many([Single(4), Single(8), FromOption(None)]), check)
  {
    var v := Many([Single(4), Single(8), FromOption(None)]);
    assert v.elements[0] == Single(4) && v.elements[1] == Single(8) && v.elements[2] == Absent;
  }

}
