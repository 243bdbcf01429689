# serde_valid validation core, in Dafny

This project models the core of serde_valid, a Rust library that validates deserialized values against
JSON-Schema-like rules (`minimum`, `maximum`, `multiple_of`, `max_length`, `pattern`,
`min_items`, `min_properties`, …) declared with `#[validate(...)]` attributes. It models:

- the leaf validators and the `Number` literal type their limits are stored in;
- the lifting of a leaf validator over `Option`/`Vec` nesting;
- the code the derive macro emits to collect per-field errors into an error map and to fold that
  map into the `Errors` tree (`Object` / `Array` / `NewType`);
- the derive front end's decisions: literal classification, the attribute decision table, and the
  collection of struct-level validators.

Modules (one file each):

| file | module | models |
|---|---|---|
| wrappers.dfy | `Wrappers` | `Option` / `Result` |
| decimal.dfy | `Decimal` | decimal text of integers (used by `Display`) |
| number.dfy | `Number` | `serde_valid_literal::Number`: variants, `From`, derived `==` / `<`, `Display` |
| validation_errors.dfy | `ValidationErrors` | error parameters, default messages, message formats, the `Error` / `Errors` tree |
| max_length.dfy | `MaxLength` | the blanket `validate_max_length` over an abstract `Length` |
| leaf_rules.dfy | `LeafRules` | range, `multiple_of`, properties and items rules |
| composited.dfy | `Composited` | element-wise lifting over `Option` / `Vec` and the nested error it produces |
| error_aggregation.dfy | `ErrorAggregation` | the emitted `object_errors_tokens` / `array_errors_tokens` / `new_type_errors_tokens` code |
| derive_types.dfy | `DeriveTypes` | stand-ins for syn literals, metas, attributes and the derive diagnostics |
| lit.dfy | `LitRules` | `get_lit`, `get_numeric`, `get_str` |
| field_rules.dfy | `FieldRules` | range and pattern validators: extraction, the emitted append step, the pattern cache |
| field_meta.dfy | `FieldMeta` | `extract_field_validator` and its decision table |
| struct_validate.dfy | `StructValidate` | `collect_struct_custom_from_named_struct` |
| items_scenario.dfy | `ItemsScenario` | the nested `items_err_message` scenario |

Imperative parts of the source keep their form:
- the errors map that the emitted code appends to is a class (`FieldRules.ErrorsMap`) whose
  `Push` updates it in place;
- the `OnceCell` pattern static is a class (`FieldRules.PatternCell`);
- the error-splitting `filter_map`, the `for` loop of the attribute decision table and the
  `filter_map` of struct validation are methods with loops, each proved against a pure
  specification function, and the properties are proved about those functions.

Integers are unbounded. Each fixed-width Rust type is a subset type with its exact bounds,
`isize`/`usize` taken as 64-bit. Rust's truncating `%` is modelled explicitly
(`LeafRules.TruncRem`) and proved to vanish exactly when Dafny's Euclidean `%` does.

Some code that the modelled files call is not part of this model. Where the model needs it, it is a parameter:
- `ArrayErrors::merge` is the `merge` parameter;
- the per-shape extractors, the recognised validation-name sets and the custom-message parser
  of meta.rs are fields of `FieldMeta.Extractors`;
- `extract_struct_validator` is the `extract` parameter;
- regex matching is the `isMatch` parameter;
- text length is the `length` parameter.

Three other pieces are defined from the library's design instead: the lifting of a rule over
`Vec`/`Option`, the error a lifted failure becomes, and some message templates. "## Left out"
names each.

## Model

| member | source | states |
|---|---|---|
| Number.From | crates/serde_valid_literal/src/number.rs:79-126 | `From<T>` tags a value with the variant of its type and stores it unchanged: the result's type is `t` and its payload is `x` |
| Number.Payload | crates/serde_valid_literal/src/number.rs:9-37 | every payload lies within its variant's range, and NonZero payloads are never 0 |
| Number.FromTypeOfPayload | crates/serde_valid_literal/src/number.rs:79-126 | rebuilding a number from its type and payload gives the same number |
| Number.FromInjective | crates/serde_valid_literal/src/number.rs:79-126 | two `From` results are equal only for the same type and the same value |
| Number.DiscriminantDeterminesType | crates/serde_valid_literal/src/number.rs:8-40 | the declaration index identifies the variant |
| Number.EqualityIsSameVariantSamePayload | crates/serde_valid_literal/src/number.rs:8 | derived equality holds iff same variant and equal payload |
| Number.LessIsStrictTotalOrder | crates/serde_valid_literal/src/number.rs:8-40 | derived `<` is irreflexive, transitive, asymmetric and total on distinct numbers |
| Number.LessTransitive | crates/serde_valid_literal/src/number.rs:8-40 | derived `<` is transitive across variants and within one |
| Number.LessTotal | crates/serde_valid_literal/src/number.rs:8-40 | any two numbers are ordered one way or the other, or are equal |
| Number.VariantOrderDominates | crates/serde_valid_literal/src/number.rs:8-40 | an earlier-declared variant is smaller whatever the payloads |
| Number.NoCrossTypeWidening | crates/serde_valid_literal/src/number.rs:8-77 | `I32(5) != I64(5)`, `I32(100) < I64(1)`, `I64(-1) < U8(0)`, and both display as `5` |
| Number.Less | crates/serde_valid_literal/src/number.rs:8 | derived `<`: never between equal numbers, never from a later variant to an earlier one, and within one variant exactly the payload order |
| Number.Display | crates/serde_valid_literal/src/number.rs:42-77 | the text is in Rust's integer form (a `-` only before non-zero digits, no leading zero, no type tag) and parses back to the payload |
| Number.DisplayIgnoresVariant | crates/serde_valid_literal/src/number.rs:42-77 | equal payloads display the same whatever the variant |
| Decimal.NatText | crates/serde_valid_literal/src/number.rs:42-77 | decimal digits only, no leading zero |
| Decimal.IntText | crates/serde_valid_literal/src/number.rs:42-77 | Rust's integer form: canonical digits, with a leading `-` exactly for negative values |
| Decimal.NatTextRoundTrip | crates/serde_valid_literal/src/number.rs:42-77 | parsing the decimal text of `n` gives `n` |
| Decimal.IntTextRoundTrip | crates/serde_valid_literal/src/number.rs:42-77 | parsing the signed decimal text of `i` gives `i` |
| Decimal.IntTextInjective | crates/serde_valid_literal/src/number.rs:42-77 | distinct integers have distinct texts |
| ValidationErrors.DefaultMessage | crates/serde_valid/tests/range_test.rs:231-283 | a kind with a limit gives its fixed prefix, the limit in Rust's integer form, then a closing backquote and full stop; a pattern appears between double quotes; a custom error's text is kept |
| ValidationErrors.IntoError | crates/serde_valid_derive/src/attribute/field_validate/numeric/range.rs:48 | a leaf error keeps its parameters; the text is the default message, the `message` text, or the `message_fn` result applied to the parameters |
| ValidationErrors.CustomError | crates/serde_valid/tests/array_test.rs:6-10 | a custom rule error's text is its message |
| ValidationErrors.FormatChangesOnlyText | crates/serde_valid/tests/range_test.rs:285-348 | two message formats give errors with the same parameters |
| MaxLength.ValidateMaxLength | crates/serde_valid/src/validation/string/max_length.rs:53-59 | Ok exactly when `length <= max_length`; the error carries exactly `max_length` |
| MaxLength.BoundaryAccepted | crates/serde_valid/src/validation/string/max_length.rs:69-73 | a length equal to the maximum is accepted, one less as maximum is rejected |
| MaxLength.Monotone | crates/serde_valid/src/validation/string/max_length.rs:54 | accepted for `m` implies accepted for every `m' >= m` |
| MaxLength.ErrorIndependentOfValue | crates/serde_valid/src/validation/string/max_length.rs:57 | every rejected value gets the same error |
| MaxLength.LengthIsNotCodePointCount | crates/serde_valid/src/validation/string/max_length.rs:75-88 | `"a̐éö̲"` (7 code points) fits 3 and the five emoji (14 code points) fit 5 when length counts grapheme clusters |
| MaxLength.DefaultMessageOfFive | crates/serde_valid/src/validation/string/max_length.rs:38 | the default message for 5 is ``The length of the value must be `<= 5`.`` |
| LeafRules.ValidateMinimum | crates/serde_valid/tests/range_test.rs:43-67 | Ok iff `bound <= x`; the error carries the bound |
| LeafRules.ValidateMaximum | crates/serde_valid/tests/range_test.rs:95-119 | Ok iff `x <= bound`; the error carries the bound |
| LeafRules.ValidateExclusiveMinimum | crates/serde_valid/tests/range_test.rs:69-93 | Ok iff `bound < x`; the error carries the bound |
| LeafRules.ValidateExclusiveMaximum | crates/serde_valid/tests/range_test.rs:121-145 | Ok iff `x < bound`; the error carries the bound |
| LeafRules.RangeBoundaries | crates/serde_valid/tests/range_test.rs:43-145 | inclusive bounds accept the boundary and reject one past it; exclusive bounds reject the boundary and accept the next value |
| LeafRules.TruncRem | crates/serde_valid/tests/multiple_of_test.rs:4-14 | Rust's `%`: `a` is the truncated quotient times `b` plus the result, which is smaller than `b` in magnitude and, when non-zero, has the sign of `a` |
| LeafRules.TruncRemZero | crates/serde_valid/tests/multiple_of_test.rs:4-14 | the truncating remainder is 0 iff the Euclidean one is |
| LeafRules.ValidateMultipleOf | crates/serde_valid/tests/multiple_of_test.rs:4-38 | Ok iff the value is divisible by the divisor; the error carries the divisor |
| LeafRules.MultipleOfAcceptsMultiples | crates/serde_valid/tests/multiple_of_test.rs:4-14 | every `k * divisor` is accepted |
| LeafRules.DivisibleHasZeroRem | crates/serde_valid/tests/multiple_of_test.rs:4-14 | `a == k * b` implies `a % b == 0` |
| LeafRules.MultipleOfExamples | crates/serde_valid/tests/multiple_of_test.rs:4-142 | 15/5 is Ok, 16/3 is Err, and 14/5 has the text ``The value must be multiple of `5`.`` |
| LeafRules.ValidateMinProperties | crates/serde_valid/tests/properties_test.rs:8-79 | Ok iff the entry count is at least the minimum |
| LeafRules.ValidateMaxProperties | crates/serde_valid/tests/properties_test.rs:8-62 | Ok iff the entry count is at most the maximum |
| LeafRules.PropertiesCountOnly | crates/serde_valid/tests/properties_test.rs:8-62 | maps of equal size get the same outcome, whatever their key and value types |
| LeafRules.Reported | crates/serde_valid/tests/properties_test.rs:85-87 | a passing rule pushes nothing; a failing one pushes exactly its error in the rule's format |
| LeafRules.PropertiesMessages | crates/serde_valid/tests/properties_test.rs:81-166 | one entry against `min_properties = 3` and `max_properties = 3`: the field's list is exactly ``The size of the properties must be `>= 3`.`` |
| LeafRules.PropertiesCustomMessages | crates/serde_valid/tests/properties_test.rs:168-247 | two entries against `min_properties = 3` and `max_properties = 1`: both fail, in declaration order, each with the text of its own `message` or `message_fn` |
| LeafRules.ValidateMinItems | crates/serde_valid/tests/array_test.rs:14 | Ok iff the element count is at least the minimum |
| LeafRules.ValidateMaxItems | crates/serde_valid/tests/array_test.rs:15 | Ok iff the element count is at most the maximum |
| Composited.Validate | crates/serde_valid/tests/range_test.rs:147-229 | Ok iff every present scalar passes; a scalar failure is reported as is; a sequence failure is keyed by exactly the failing indices |
| Composited.EachElementValidated | crates/serde_valid/tests/multiple_of_test.rs:52-76 | a failing element always has its own entry, holding its own report |
| Composited.AbsentIsSkipped | crates/serde_valid/tests/range_test.rs:175-214 | appending `None` to a `Vec` leaves the whole result unchanged, the failures map included; derived from the two insertion lemmas at the last index |
| Composited.AbsentInsertedAnywhere | crates/serde_valid/tests/range_test.rs:175-214 | a `None` inserted at any index of a `Vec` changes neither the outcome nor which of the other elements are reported: indices before it keep their keys, later ones shift by one, and the `None` itself is never reported |
| Composited.AbsentInsertedKeepsFailures | crates/serde_valid/tests/range_test.rs:175-214 | after such an insertion every failing element still holds the same failure, at its own index before the `None` and one index further on after it |
| Composited.IntoCompositedError | crates/serde_valid_derive/src/attribute/field_validate/numeric/range.rs:38-48 | a scalar failure becomes a leaf error; a sequence failure becomes an `Items` error keyed by the same indices |
| ErrorAggregation.PlainErrors | crates/serde_valid_derive/src/error.rs:20-33 | only leaf errors, each taken from the input |
| ErrorAggregation.ItemsErrors | crates/serde_valid_derive/src/error.rs:23-26 | only nested array reports, each taken from the input |
| ErrorAggregation.LastProperties | crates/serde_valid_derive/src/error.rs:19-30 | None exactly when no nested object report exists |
| ErrorAggregation.SplitFieldErrors | crates/serde_valid_derive/src/error.rs:18-33 | the loop yields the plain errors, the array reports in order, and the last object report |
| ErrorAggregation.Reduce | crates/serde_valid_derive/src/error.rs:48-51 | None exactly on the empty list; a single report is returned unchanged |
| ErrorAggregation.FieldNode | crates/serde_valid_derive/src/error.rs:35-67 | an `Object` node exactly when an object report exists; otherwise an `Array` node exactly when an array report exists; otherwise `NewType` holding exactly the plain errors; the plain errors come first in every case |
| ErrorAggregation.BuildFieldNode | crates/serde_valid_derive/src/error.rs:35-67 | the statement-by-statement node equals the node function |
| ErrorAggregation.AggregateFields | crates/serde_valid_derive/src/error.rs:14-134 | exactly one node per input key |
| ErrorAggregation.ObjectErrorsOf | crates/serde_valid_derive/src/error.rs:11-73 | an `Object` root whose own errors are the rule errors unchanged, with one property per field, each holding that field's aggregated node (`FieldNode` of the field's list) |
| ErrorAggregation.ArrayErrorsOf | crates/serde_valid_derive/src/error.rs:75-137 | an `Array` root whose own errors are the rule errors unchanged, with one item per index, each holding that index's aggregated node (`FieldNode` of the index's list) |
| ErrorAggregation.NewTypeErrorsOf | crates/serde_valid_derive/src/error.rs:139-151 | a `NewType` root: the rule errors followed by those at index 0 |
| ErrorAggregation.NewTypeIgnoresOtherIndices | crates/serde_valid_derive/src/error.rs:144-146 | entries at indices other than 0 never matter |
| ErrorAggregation.ItemsErrorsAppend | crates/serde_valid_derive/src/error.rs:23-26 | collecting array reports distributes over concatenation, so they keep their order for the fold |
| ErrorAggregation.PlainErrorsAppend | crates/serde_valid_derive/src/error.rs:20-33 | filtering distributes over concatenation, so plain errors keep their order |
| ErrorAggregation.PlainErrorsOfLeaves | crates/serde_valid_derive/src/error.rs:31 | a list of leaf errors passes through unchanged |
| ErrorAggregation.SplitIsPartition | crates/serde_valid_derive/src/error.rs:22-32 | every error lands in exactly one of the three groups |
| ErrorAggregation.LastPropertiesWins | crates/serde_valid_derive/src/error.rs:27-30 | the last object report is kept |
| ErrorAggregation.LastPropertiesSuffix | crates/serde_valid_derive/src/error.rs:27-30 | errors after the last object report do not change the choice |
| ErrorAggregation.PropertiesTakePriority | crates/serde_valid_derive/src/error.rs:35-47 | with an object report, the node is `Object` with plain errors then the report's own errors, and array reports are dropped |
| ErrorAggregation.ItemsMakeArrayNode | crates/serde_valid_derive/src/error.rs:47-62 | without object reports but with array reports, the fold is defined and the node is `Array` with plain errors then the merged report's errors |
| ErrorAggregation.NewTypeIffNoNested | crates/serde_valid_derive/src/error.rs:63-67 | the node is `NewType` iff every error is a leaf, and then it holds exactly those errors |
| ErrorAggregation.NoItemsInLeaves | crates/serde_valid_derive/src/error.rs:23-26 | leaf-only lists have no array reports |
| ErrorAggregation.ItemsErrorsComplete | crates/serde_valid_derive/src/error.rs:23-26 | every array report of the input is collected |
| ErrorAggregation.ReduceAppend | crates/serde_valid_derive/src/error.rs:48-51 | the fold is a left fold: appending `b` merges it onto the previous result |
| ErrorAggregation.FoldLeftAppend | crates/serde_valid_derive/src/error.rs:48-51 | a left fold over `rest + [b]` is `merge` of the fold over `rest` with `b` |
| LitRules.GetLit | crates/serde_valid_derive/src/attribute/common/lit.rs:18-23 | Ok iff the expression is a literal, and then that literal; otherwise the one-element `literal_only` error |
| LitRules.GetNumeric | crates/serde_valid_derive/src/attribute/common/lit.rs:25-31 | Ok exactly for integer and float literals, remembering which; otherwise `[NumericLiteralOnly]` |
| LitRules.GetStr | crates/serde_valid_derive/src/attribute/common/lit.rs:33-38 | Ok exactly for string literals, with their text; otherwise `[StrLiteralOnly]` |
| LitRules.NumericRoundTrip | crates/serde_valid_derive/src/attribute/common/lit.rs:25-31 | the numeric view gives back the literal it came from |
| LitRules.NumericAndStrExclusive | crates/serde_valid_derive/src/attribute/common/lit.rs:25-38 | no literal is both numeric and a string |
| FieldRules.ErrorKey | crates/serde_valid_derive/src/attribute/field_validate/numeric/range.rs:30-33 | the renamed key when the field name is renamed, otherwise the field's key |
| FieldRules.Appended | crates/serde_valid_derive/src/attribute/field_validate/numeric/range.rs:45-48 | the key is added if absent, its list gains the error at the end, other keys unchanged |
| FieldRules.ErrorsMap.Push | crates/serde_valid_derive/src/attribute/field_validate/numeric/range.rs:45-48 | the map is updated in place to the appended map |
| FieldRules.ExtractNumericRangeValidator | crates/serde_valid_derive/src/attribute/field_validate/numeric/range.rs:24-59 | Ok iff the literal is numeric; the validator has the kind, the renamed key and the literal; otherwise `[NumericLiteralOnly]` |
| FieldRules.AfterRange | crates/serde_valid_derive/src/attribute/field_validate/numeric/range.rs:37-49 | unchanged on success; on failure exactly one error appended under the key |
| FieldRules.RunRangeValidator | crates/serde_valid_derive/src/attribute/field_validate/numeric/range.rs:37-49 | the in-place run leaves the map as `AfterRange` says |
| FieldRules.AfterRanges | crates/serde_valid_derive/src/attribute/field_validate/numeric/range.rs:37-49 | the emitted blocks of one field run in order and only append: every key already present stays, and its list only grows at the end |
| FieldRules.RunRangeValidators | crates/serde_valid/tests/range_test.rs:285-348 | running the validators of one field in order leaves the map as their sequential composition |
| FieldRules.RangeErrors | crates/serde_valid/tests/range_test.rs:285-348 | at most one error per validator |
| FieldRules.StepErrors | crates/serde_valid/tests/range_test.rs:285-348 | one validator yields no error exactly when its check passes, and at most one otherwise |
| FieldRules.AfterRangeStep | crates/serde_valid/tests/range_test.rs:285-348 | one validator appends its own error list at its key and leaves every other key as it was |
| FieldRules.AfterRangesSnoc | crates/serde_valid/tests/range_test.rs:285-348 | running one more validator composes with the validators already run |
| FieldRules.RangesAppendInOrder | crates/serde_valid/tests/range_test.rs:285-348 | validators sharing a key append exactly the failing checks' errors in declaration order and touch no other key |
| FieldRules.RangesAppendAtKey | crates/serde_valid/tests/range_test.rs:285-348 | the shared key's list gains exactly the failing checks' errors, in declaration order |
| FieldRules.RangesKeepOtherKeys | crates/serde_valid/tests/range_test.rs:285-348 | every other key keeps its presence and its list |
| FieldRules.TwoRanges | crates/serde_valid/tests/range_test.rs:285-348 | two validators run one after the other |
| FieldRules.FormatOnlyChangesText | crates/serde_valid/tests/range_test.rs:285-348 | a validator and its copy with another format report the same number of errors, and the same failure when they fail |
| FieldRules.SameReportsInOrder | crates/serde_valid/tests/range_test.rs:285-348 | under two formats the errors of a field match position by position except for their texts |
| FieldRules.FormatDoesNotChangeOutcome | crates/serde_valid/tests/range_test.rs:285-348 | changing only message formats changes no outcome: each validator fails under one format iff it fails under the other, and the field's errors match position by position (same failure, same nested indices) |
| FieldRules.ToUpper | crates/serde_valid_derive/src/attribute/field_validate/string/pattern.rs:30-33 | same length; no ASCII lower-case letter is left, each one becomes its upper-case form (32 code points lower), and every other character is unchanged |
| FieldRules.PatternStaticName | crates/serde_valid_derive/src/attribute/field_validate/string/pattern.rs:30-33 | the upper-cased `ident` followed by `_PATTERN`: 8 longer, already upper case |
| FieldRules.ExtractStringPatternValidator | crates/serde_valid_derive/src/attribute/field_validate/string/pattern.rs:17-51 | Ok iff the literal is a string; the validator has the renamed key, the pattern text and the static name; otherwise `[StrLiteralOnly]` |
| FieldRules.PatternCell.GetOrInit | crates/serde_valid_derive/src/attribute/field_validate/string/pattern.rs:36-37 | compiles on the first use only; later uses return the stored pattern and leave the cell as it was |
| FieldRules.RunPatternValidator | crates/serde_valid_derive/src/attribute/field_validate/string/pattern.rs:36-49 | the cell is initialised at most once, and the map is unchanged on success or gains one error on failure |
| FieldRules.InclusiveErrMessage | crates/serde_valid/tests/range_test.rs:231-257 | `minimum = 1, maximum = 10` on 0 reports only ``The number must be `>= 1`.`` |
| FieldRules.ExclusiveErrMessage | crates/serde_valid/tests/range_test.rs:259-283 | the exclusive pair on 0 reports only ``The number must be `> 1`.`` |
| FieldRules.OnlyFirstFails | crates/serde_valid/tests/range_test.rs:231-283 | of two validators on one field, when only the first fails the field holds just its report |
| FieldRules.CustomErrMessages | crates/serde_valid/tests/range_test.rs:285-348 | `minimum = 5` and `maximum = 3` with custom messages on 4 report both messages in declaration order |
| FieldRules.MinMaxReportsNothing | crates/serde_valid/tests/range_test.rs:147-214 | `minimum` then `maximum` on one field report nothing when every present scalar passes both |
| FieldRules.MinMaxReportsFailure | crates/serde_valid/tests/range_test.rs:147-214 | the converse: when some present scalar fails either rule, the field's name is reported, and it is the only key |
| FieldRules.OneKeyReported | crates/serde_valid_derive/src/attribute/field_validate/numeric/range.rs:37-49 | two validators on one field, at least one of them failing: the field's key is the only key of the errors map |
| FieldRules.NestedVecRangePass | crates/serde_valid/tests/range_test.rs:147-173 | `minimum = 0` and `maximum = 20` on `[[4, 8], [12, 16]]` leave the errors map empty |
| FieldRules.OptionRangePass | crates/serde_valid/tests/range_test.rs:175-214 | `minimum = 0` and `maximum = 10` on `Some(5)`, `Some(Some(5))` and `[Some(4), Some(8), None]` leave the errors map empty |
| FieldMeta.ChooseFormat | crates/serde_valid_derive/src/attribute/field_validate/meta.rs:53-84 | one item keeps the default format; two items take the custom message unless the head is `custom` (refused, one error) or parsing fails (its errors, default format); more items give one `too_many_list_items` error per item after the second |
| FieldMeta.Dispatch | crates/serde_valid_derive/src/attribute/field_validate/meta.rs:96-152 | a recognised name of the matching shape goes to that shape's extractor; otherwise one error: needs-value for path, then list, then name-value sets, else unknown |
| FieldMeta.InnerExtract | crates/serde_valid_derive/src/attribute/field_validate/meta.rs:38-174 | parse errors and zero items fail alone; Ok iff the extractor succeeded and no error was recorded; accumulated errors precede the extractor's; warnings are the format's then the validator's |
| FieldMeta.InnerExtractFieldValidator | crates/serde_valid_derive/src/attribute/field_validate/meta.rs:38-174 | the imperative builder returns what `InnerExtract` specifies |
| FieldMeta.ExtractFieldValidator | crates/serde_valid_derive/src/attribute/field_validate/meta.rs:22-36 | a list goes through the decision table, a bare path to the generic validator, a name-value attribute is refused |
| FieldMeta.RecordedErrorsAlwaysFail | crates/serde_valid_derive/src/attribute/field_validate/meta.rs:77-168 | more than two items always fail, first with `too_many_list_items` of the third item |
| FieldMeta.CustomRefusesMessage | crates/serde_valid_derive/src/attribute/field_validate/meta.rs:61-67 | `custom` with a well-formed message item always fails, first with the refusal |
| FieldMeta.UnknownNameReported | crates/serde_valid_derive/src/attribute/field_validate/meta.rs:148-172 | an unrecognised name yields the recorded errors followed by `field_validation_type_unknown` |
| StructValidate.CollectStructCustom | crates/serde_valid_derive/src/attribute/struct_validate.rs:8-35 | Err iff some error was collected, with all errors; otherwise all validators |
| StructValidate.Collected | crates/serde_valid_derive/src/attribute/struct_validate.rs:13-28 | at most one validator per attribute |
| StructValidate.ErrorsAppend | crates/serde_valid_derive/src/attribute/struct_validate.rs:13-28 | no short-circuit: the errors and validators of a concatenation are those of its parts |
| StructValidate.OtherAttributesIgnored | crates/serde_valid_derive/src/attribute/struct_validate.rs:16-26 | an attribute not named `validate` changes nothing |
| StructValidate.ErrIffSomeFailure | crates/serde_valid_derive/src/attribute/struct_validate.rs:19-34 | when failures report errors, the result is Err iff some `validate` attribute failed |
| StructValidate.ValidatorsInOrder | crates/serde_valid_derive/src/attribute/struct_validate.rs:13-31 | with no failure, one validator per attribute, in attribute order |
| ItemsScenario.ChildPropertyErrors | crates/serde_valid/tests/array_test.rs:23-25 | the child's map has the key `val` exactly when `val` is out of `1..=10` |
| ItemsScenario.ValidateChild | crates/serde_valid/tests/array_test.rs:20-66 | every child fails with an object node holding the rule error, whose properties hold only the failing fields |
| ItemsScenario.ValidateElements | crates/serde_valid/tests/array_test.rs:16-67 | Err iff some element fails; the report is an `Array` node keyed by exactly the failing indices, each holding that element's report |
| ItemsScenario.LeafErrors | crates/serde_valid/tests/array_test.rs:14-15 | a failing container rule pushes exactly its default-text error |
| ItemsScenario.OuterFieldErrors | crates/serde_valid/tests/array_test.rs:14-45 | with fewer than 5 items the first error is the `min_items` one |
| ItemsScenario.OuterRoot | crates/serde_valid/tests/array_test.rs:38-41 | Ok iff the field has no errors; otherwise an object root with the field's aggregated node |
| ItemsScenario.ChildAlwaysReported | crates/serde_valid/tests/array_test.rs:21-66 | every element of a non-empty list has an entry |
| ItemsScenario.IndependentItems | crates/serde_valid/tests/array_test.rs:29-63 | a failure at one index never suppresses a failure at another |
| ItemsScenario.ThreeFailingElements | crates/serde_valid/tests/array_test.rs:46-67 | three failing elements are reported at indices 0, 1 and 2 |
| ItemsScenario.Child1 | crates/serde_valid/tests/array_test.rs:55-58 | the in-range child is an object node with an empty property map |
| ItemsScenario.OuterFieldNode | crates/serde_valid/tests/array_test.rs:41-67 | the field node is `Array` with both container messages then the items |
| ItemsScenario.ItemsErrMessage | crates/serde_valid/tests/array_test.rs:28-72 | the whole expected tree for `[0, 5, 15]` |

## Left out

- Floating point: the `F32`/`F64` variants of `Number` and the float cases of the range and `multiple_of` tests.
- `i128`/`u128` variants: they sit behind a compile-time feature and are not modelled; `isize`/`usize` are taken as 64-bit.
- `From<&T>` for `Number`: it only dereferences and delegates to `From<T>`, which is modelled.
- LeafRules.ValidateMultipleOf: requires a non-zero divisor. A zero divisor panics in Rust, and so does `MIN % -1`. Neither panic is modelled.
- The range rules compare unbounded integers: the subject and the limit are assumed to have the field's type, which the Rust compiler enforces.
- FieldRules.ToUpper: upper-cases ASCII letters only and leaves every other character as it is. Rust's `to_uppercase` also maps non-ASCII letters, and can turn one into several.
- FieldRules.PatternStaticName: upper-cases ASCII letters only. Rust's `to_uppercase` also maps non-ASCII letters.
- Regex compilation and matching are not modelled: `Compile` keeps the source text, and matching is the `isMatch` parameter. The `unwrap` panic on an invalid pattern is not modelled either.
- The thread safety of the `OnceCell` static is not modelled; `PatternCell` is single-threaded.
- Grapheme segmentation behind `Length` is not modelled: text is given already split into clusters.
- Composited.IntoCompositedError: the conversion code is not part of this model; the `Items` shape with one `NewType` node per failing index is taken from the library's design and the tests' expected trees.
- Composited.Validate: the element-wise lifting over `Vec` and `Option` follows the library's design and the tests' expected trees; its implementation is not part of this model.
- ValidationErrors.DefaultMessage: the error types that hold the templates are not part of this model. The templates of `exclusive_maximum`, `min_length`, `max_properties` and `pattern` follow the pattern of those the tests fix; no modelled line fixes their exact text.
- `ArrayErrors::merge` and `ObjectErrors::new` are not modelled: `merge` is an opaque parameter, and `new` is the record constructor.
- The conversion of a nested `Errors` report into an `Error::Items` / `Error::Properties` entry, and the generated `validate` wrapper deciding Ok or Err, are not part of this model. The scenario builds them directly.
- `WithWarnings::from_iter` is not part of this model: `StructValidate.CollectStructCustom` returns the collected `WithWarnings` values in order.
- The extractors called from meta.rs, `extract_custom_message_format`, `extract_generic_validate_validator`, `extract_struct_validator` and the `from_str` name sets are not part of this model. They are parameters.
- `did_you_mean`, the diagnostic constructors of `impl Error`, `to_compile_errors`, spans, token streams and all syn parsing are left out. Parsed attributes are given as values.
- The JSON text produced by `to_string` and its key order are not modelled: the model checks tree shape and messages only.
- The message order for `min_properties` with `max_properties` uses the same append step as the range rules. Its ordering is proved only for the range rules (`FieldRules.RangesAppendInOrder`).
- The `max_length` test on Japanese text and the `Cow`/`OsStr`/`Path` impls are not modelled: they only instantiate the abstract length.
