/** `collect_struct_custom_from_named_struct`
    (crates/serde_valid_derive/src/attribute/struct_validate.rs): every `#[validate]`
    attribute of a struct is extracted, all failures are collected, and the validators
    are returned only when none failed. `extract_struct_validator` is not part of this
    model and is a parameter. */
module StructValidate {
  import opened Wrappers
  import opened DeriveTypes

  type Extract<V> = Attribute -> Result<WithWarnings<V>, seq<DeriveError>>

  predicate IsValidate(a: Attribute)
  {
    a.path == "validate"
  }

  /** The validators of the successful `validate` attributes, in attribute order. */
  function Collected<V>(attrs: seq<Attribute>, extract: Extract<V>): (vs: seq<WithWarnings<V>>)
    ensures |vs| <= |attrs|
  {
    if attrs == [] then []
    else
      var a := attrs[|attrs| - 1];
      Collected(attrs[..|attrs| - 1], extract)
        + (if IsValidate(a) && extract(a).Ok? then [extract(a).value] else [])
  }

  /** The errors of the failing `validate` attributes, concatenated in attribute order. */
  function CollectedErrors<V>(attrs: seq<Attribute>, extract: Extract<V>): seq<DeriveError>
  {
    if attrs == [] then []
    else
      var a := attrs[|attrs| - 1];
      CollectedErrors(attrs[..|attrs| - 1], extract)
        + (if IsValidate(a) && extract(a).Err? then extract(a).error else [])
  }

  /** The loop of the source: a mutable `errors` vector extended inside the `filter_map`. */
  method CollectStructCustom<V>(attrs: seq<Attribute>, extract: Extract<V>)
    returns (r: Result<seq<WithWarnings<V>>, seq<DeriveError>>)
    ensures r.Err? <==> CollectedErrors(attrs, extract) != []
    ensures r.Ok? ==> r.value == Collected(attrs, extract)
    ensures r.Err? ==> r.error == CollectedErrors(attrs, extract)
  {
    var errors: seq<DeriveError> := [];
    var validations: seq<WithWarnings<V>> := [];
    for i := 0 to |attrs|
      invariant errors == CollectedErrors(attrs[..i], extract)
      invariant validations == Collected(attrs[..i], extract)
    {
      assert attrs[..i + 1][..i] == attrs[..i];
      var a := attrs[i];
      if IsValidate(a) {
        match extract(a) {
          case Ok(validator) =>
            validations := validations + [validator];
          case Err(validatorError) =>
            errors := errors + validatorError;
        }
      }
    }
    assert attrs[..|attrs|] == attrs;
    if errors == [] {
      r := Ok(validations);
    } else {
      r := Err(errors);
    }
  }

  /** Processing never stops early: the errors of a concatenation are the errors of each part. */
  lemma {:induction false} ErrorsAppend<V>(xs: seq<Attribute>, ys: seq<Attribute>, extract: Extract<V>)
    ensures CollectedErrors(xs + ys, extract) == CollectedErrors(xs, extract) + CollectedErrors(ys, extract)
    ensures Collected(xs + ys, extract) == Collected(xs, extract) + Collected(ys, extract)
    decreases |ys|
  {
    if ys != [] {
      var ys' := ys[..|ys| - 1];
      assert (xs + ys)[..|xs + ys| - 1] == xs + ys';
      assert (xs + ys)[|xs + ys| - 1] == ys[|ys| - 1];
      ErrorsAppend(xs, ys', extract);
    } else {
      assert xs + ys == xs;
    }
  }

  /** Attributes whose path is not `validate` are ignored. */
  lemma {:induction false} OtherAttributesIgnored<V>(xs: seq<Attribute>, other: Attribute, ys: seq<Attribute>, extract: Extract<V>)
    requires !IsValidate(other)
    ensures CollectedErrors(xs + [other] + ys, extract) == CollectedErrors(xs + ys, extract)
    ensures Collected(xs + [other] + ys, extract) == Collected(xs + ys, extract)
  {
    ErrorsAppend(xs + [other], ys, extract);
    ErrorsAppend(xs, [other], extract);
    ErrorsAppend(xs, ys, extract);
    assert [other][..0] == [];
  }

  /** When every failure reports at least one error, the result is an error exactly when some
      `validate` attribute failed. */
  lemma {:induction false} ErrIffSomeFailure<V>(attrs: seq<Attribute>, extract: Extract<V>)
    requires forall a :: extract(a).Err? ==> extract(a).error != []
    ensures CollectedErrors(attrs, extract) == [] <==>
              forall i :: 0 <= i < |attrs| && IsValidate(attrs[i]) ==> extract(attrs[i]).Ok?
  {
    if attrs != [] {
      var init := attrs[..|attrs| - 1];
      ErrIffSomeFailure(init, extract);
      assert forall i :: 0 <= i < |init| ==> init[i] == attrs[i];
    }
  }

  /** With no failure, one validator per `validate` attribute, in attribute order. */
  lemma {:induction false} ValidatorsInOrder<V>(attrs: seq<Attribute>, extract: Extract<V>)
    requires forall i :: 0 <= i < |attrs| ==> IsValidate(attrs[i]) && extract(attrs[i]).Ok?
    ensures |Collected(attrs, extract)| == |attrs|
    ensures forall i :: 0 <= i < |attrs| ==> Collected(attrs, extract)[i] == extract(attrs[i]).value
  {
    if attrs != [] {
      var init := attrs[..|attrs| - 1];
      ValidatorsInOrder(init, extract);
    }
  }
}
