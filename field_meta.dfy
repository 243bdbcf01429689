/** The decision table of crates/serde_valid_derive/src/attribute/field_validate/meta.rs:
    how a `#[validate(...)]` attribute on a field is turned into a validator, from the
    number of nested items, the head's name and the head's shape. The per-shape
    extractors, the recognised-name sets and the custom-message parser are not part of
    this model and are given as parameters. */
module FieldMeta {
  import opened Wrappers
  import opened DeriveTypes

  /** What the decision table calls but does not define; `V` is the generated validator,
      `M` the message format. */
  datatype Extractors<V, !M> = Extractors(
    isPathValidation: string -> bool,
    isListValidation: string -> bool,
    isNameValueValidation: string -> bool,
    defaultFormat: M,
    customMessageFormat: Meta -> Result<WithWarnings<M>, seq<DeriveError>>,
    fromPath: (string, M) -> Result<WithWarnings<V>, seq<DeriveError>>,
    fromList: (string, string, M) -> Result<WithWarnings<V>, seq<DeriveError>>,
    fromNameValue: (string, Expr, M) -> Result<V, seq<DeriveError>>,
    generic: Result<WithWarnings<V>, seq<DeriveError>>)

  /** The message format chosen from the nested items, and the errors recorded while choosing it. */
  datatype FormatStep<M> = FormatStep(format: WithWarnings<M>, errors: seq<DeriveError>)

  function DefaultStep<V, M>(ex: Extractors<V, M>): FormatStep<M>
  {
    FormatStep(WithWarnings(ex.defaultFormat, []), [])
  }

  /** The `match nested.len()` of a non-empty list: one item keeps the default format; a
      second item is a custom message, refused after `custom`; more than two items record
      one error per item after the second. */
  function ChooseFormat<V, M>(nested: seq<Meta>, ex: Extractors<V, M>): (s: FormatStep<M>)
    requires |nested| >= 1
    ensures |nested| != 2 ==> s.format == WithWarnings(ex.defaultFormat, [])
    ensures |nested| == 1 ==> s.errors == []
    ensures |nested| == 2 && ex.customMessageFormat(nested[1]).Err? ==>
              s == FormatStep(WithWarnings(ex.defaultFormat, []), ex.customMessageFormat(nested[1]).error)
    ensures |nested| > 2 ==>
              && |s.errors| == |nested| - 2
              && (forall i :: 0 <= i < |s.errors| ==> s.errors[i] == TooManyListItems(nested[i + 2]))
    ensures |nested| == 2 && nested[0].path == "custom" ==> s.format == WithWarnings(ex.defaultFormat, [])
    ensures |nested| == 2 && nested[0].path != "custom" && ex.customMessageFormat(nested[1]).Ok? ==>
              s == FormatStep(ex.customMessageFormat(nested[1]).value, [])
    ensures |nested| == 2 && nested[0].path == "custom" && ex.customMessageFormat(nested[1]).Ok? ==>
              s.errors == [ValidateCustomDoesNotSupportCustomMessage(nested[1])]
  {
    if |nested| == 1 then DefaultStep(ex)
    else if |nested| == 2 then
      match ex.customMessageFormat(nested[1])
      case Ok(custom) =>
        if nested[0].path == "custom" then
          FormatStep(WithWarnings(ex.defaultFormat, []), [ValidateCustomDoesNotSupportCustomMessage(nested[1])])
        else FormatStep(custom, [])
      case Err(messageFnErrors) => FormatStep(WithWarnings(ex.defaultFormat, []), messageFnErrors)
    else
      FormatStep(WithWarnings(ex.defaultFormat, []),
                 seq(|nested| - 2, i requires 0 <= i < |nested| - 2 => TooManyListItems(nested[i + 2])))
  }

  /** The head's name is recognised by the validation set of its own shape. */
  predicate ShapeMatches<V, M>(meta: Meta, ex: Extractors<V, M>)
  {
    match meta
    case MetaPath(name) => ex.isPathValidation(name)
    case MetaList(name, _) => ex.isListValidation(name)
    case MetaNameValue(name, _) => ex.isNameValueValidation(name)
  }

  /** The four-way `match` on the name sets and the head's shape. */
  function Dispatch<V, M>(meta: Meta, format: M, ex: Extractors<V, M>): (r: Result<WithWarnings<V>, seq<DeriveError>>)
    ensures meta.MetaPath? && ShapeMatches(meta, ex) ==> r == ex.fromPath(meta.path, format)
    ensures meta.MetaList? && ShapeMatches(meta, ex) ==> r == ex.fromList(meta.path, meta.tokens, format)
    ensures meta.MetaNameValue? && ShapeMatches(meta, ex) ==>
              (match ex.fromNameValue(meta.path, meta.value, format)
               case Ok(v) => r == Ok(WithWarnings(v, []))
               case Err(es) => r == Err(es))
    ensures !ShapeMatches(meta, ex) ==>
              && r.Err? && |r.error| == 1
              && (r.error[0] == MetaPathValidationNeedValue(meta.path) <==> ex.isPathValidation(meta.path))
              && (r.error[0] == MetaListValidationNeedValue(meta.path) <==>
                    !ex.isPathValidation(meta.path) && ex.isListValidation(meta.path))
              && (r.error[0] == MetaNameValueValidationNeedValue(meta.path) <==>
                    !ex.isPathValidation(meta.path) && !ex.isListValidation(meta.path) && ex.isNameValueValidation(meta.path))
              && (r.error[0] == FieldValidationTypeUnknown(meta.path) <==>
                    !ex.isPathValidation(meta.path) && !ex.isListValidation(meta.path) && !ex.isNameValueValidation(meta.path))
  {
    var name := meta.path;
    if meta.MetaPath? && ex.isPathValidation(name) then ex.fromPath(name, format)
    else if meta.MetaList? && ex.isListValidation(name) then ex.fromList(name, meta.tokens, format)
    else if meta.MetaNameValue? && ex.isNameValueValidation(name) then
      match ex.fromNameValue(name, meta.value, format)
      case Ok(v) => Ok(WithWarnings(v, []))
      case Err(es) => Err(es)
    else if ex.isPathValidation(name) then Err([MetaPathValidationNeedValue(name)])
    else if ex.isListValidation(name) then Err([MetaListValidationNeedValue(name)])
    else if ex.isNameValueValidation(name) then Err([MetaNameValueValidationNeedValue(name)])
    else Err([FieldValidationTypeUnknown(name)])
  }

  /** `inner_extract_field_validator` as a function of the parsed arguments. */
  function InnerExtract<V, M>(parsed: Result<seq<Meta>, string>, ex: Extractors<V, M>): (r: Result<WithWarnings<V>, seq<DeriveError>>)
    ensures parsed.Err? ==> r == Err([ValidateAttributeParseError(parsed.error)])
    ensures parsed == Ok([]) ==> r == Err([FieldValidationTypeRequired])
    ensures parsed.Ok? && |parsed.value| > 0 ==>
              var step := ChooseFormat(parsed.value, ex);
              var d := Dispatch(parsed.value[0], step.format.data, ex);
              && (r.Ok? <==> d.Ok? && step.errors == [])
              && (r.Ok? ==> r.value == WithWarnings(d.value.data, step.format.warnings + d.value.warnings))
              && (d.Err? ==> r == Err(step.errors + d.error))
              && (d.Ok? && step.errors != [] ==> r == Err(step.errors))
  {
    match parsed
    case Err(reason) => Err([ValidateAttributeParseError(reason)])
    case Ok(nested) =>
      if |nested| == 0 then Err([FieldValidationTypeRequired])
      else
        var step := ChooseFormat(nested, ex);
        match Dispatch(nested[0], step.format.data, ex)
        case Ok(v) =>
          if step.errors == [] then Ok(WithWarnings(v.data, step.format.warnings + v.warnings))
          else Err(step.errors)
        case Err(es) => Err(step.errors + es)
  }

  /** The emitted-code builder itself: the `errors` and `warnings` vectors are grown across
      the arms of the length match and by the loop over the items after the second. */
  method InnerExtractFieldValidator<V, M>(parsed: Result<seq<Meta>, string>, ex: Extractors<V, M>)
    returns (r: Result<WithWarnings<V>, seq<DeriveError>>)
    ensures r == InnerExtract(parsed, ex)
  {
    if parsed.Err? {
      return Err([ValidateAttributeParseError(parsed.error)]);
    }
    var nested := parsed.value;
    var errors: seq<DeriveError> := [];
    var format: WithWarnings<M>;
    if |nested| == 0 {
      return Err([FieldValidationTypeRequired]);
    } else if |nested| == 1 {
      format := WithWarnings(ex.defaultFormat, []);
    } else if |nested| == 2 {
      var custom := ex.customMessageFormat(nested[1]);
      if custom.Ok? {
        if nested[0].path == "custom" {
          errors := errors + [ValidateCustomDoesNotSupportCustomMessage(nested[1])];
          format := WithWarnings(ex.defaultFormat, []);
        } else {
          format := custom.value;
        }
      } else {
        errors := errors + custom.error;
        format := WithWarnings(ex.defaultFormat, []);
      }
    } else {
      for i := 2 to |nested|
        invariant |errors| == i - 2
        invariant forall j :: 0 <= j < i - 2 ==> errors[j] == TooManyListItems(nested[j + 2])
      {
        errors := errors + [TooManyListItems(nested[i])];
      }
      format := WithWarnings(ex.defaultFormat, []);
    }
    assert FormatStep(format, errors) == ChooseFormat(nested, ex);
    var warnings := format.warnings;
    var validator := Dispatch(nested[0], format.data, ex);
    if validator.Ok? {
      warnings := warnings + validator.value.warnings;
    }
    match validator {
      case Ok(v) =>
        if errors == [] {
          r := Ok(WithWarnings(v.data, warnings));
        } else {
          r := Err(errors);
        }
      case Err(validatorErrors) =>
        errors := errors + validatorErrors;
        r := Err(errors);
    }
  }

  /** `extract_field_validator`: a list goes through the decision table, a bare path to the
      generic validator, and a name-value attribute is refused. */
  function ExtractFieldValidator<V, M>(attribute: Attribute, ex: Extractors<V, M>): (r: Result<WithWarnings<V>, seq<DeriveError>>)
    ensures attribute.meta.AttrPath? ==> r == ex.generic
    ensures attribute.meta.AttrNameValue? ==> r == Err([ValidateMetaNameValueNotSupported])
    ensures attribute.meta.AttrList? ==> r == InnerExtract(attribute.meta.nested, ex)
  {
    match attribute.meta
    case AttrList(nested) => InnerExtract(nested, ex)
    case AttrPath => ex.generic
    case AttrNameValue(_) => Err([ValidateMetaNameValueNotSupported])
  }

  /** Any error recorded while choosing the format fails the whole attribute, even when the
      validator itself was extracted. */
  lemma {:induction false} RecordedErrorsAlwaysFail<V, M>(nested: seq<Meta>, ex: Extractors<V, M>)
    requires |nested| > 2
    ensures InnerExtract(Ok(nested), ex).Err?
    ensures |InnerExtract(Ok(nested), ex).error| >= |nested| - 2
    ensures InnerExtract(Ok(nested), ex).error[0] == TooManyListItems(nested[2])
  {
    var step := ChooseFormat(nested, ex);
    assert step.errors != [];
    assert step.errors[0] == TooManyListItems(nested[2]);
  }

  /** `custom` with a well-formed second item is refused, whatever the closure extracts. */
  lemma CustomRefusesMessage<V, M>(head: Meta, message: Meta, ex: Extractors<V, M>)
    requires head.path == "custom" && ex.customMessageFormat(message).Ok?
    ensures InnerExtract(Ok([head, message]), ex).Err?
    ensures InnerExtract(Ok([head, message]), ex).error[0] == ValidateCustomDoesNotSupportCustomMessage(message)
  {
    var step := ChooseFormat([head, message], ex);
    assert step.errors == [ValidateCustomDoesNotSupportCustomMessage(message)];
  }

  /** A name recognised by no set is reported as unknown, after the accumulated errors. */
  lemma UnknownNameReported<V, M>(nested: seq<Meta>, ex: Extractors<V, M>)
    requires |nested| > 0
    requires !ex.isPathValidation(nested[0].path) && !ex.isListValidation(nested[0].path) && !ex.isNameValueValidation(nested[0].path)
    ensures InnerExtract(Ok(nested), ex)
              == Err(ChooseFormat(nested, ex).errors + [FieldValidationTypeUnknown(nested[0].path)])
  {
    var step := ChooseFormat(nested, ex);
    assert !ShapeMatches(nested[0], ex);
    var d := Dispatch(nested[0], step.format.data, ex);
    assert d == Err([FieldValidationTypeUnknown(nested[0].path)]);
  }
}
