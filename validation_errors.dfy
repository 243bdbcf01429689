/** The runtime error values of serde_valid: the parameters of one failed
    constraint, the message formats, and the recursive error tree
    (`Error`, `ArrayErrors`, `ObjectErrors`, `Errors`). */
module ValidationErrors {
  import opened Wrappers
  import opened Decimal
  import opened Number

  /** What a failed leaf validator reports: its kind and the configured limit, nothing about the value. */
  datatype Failure =
    | Minimum(minimum: Number)
    | Maximum(maximum: Number)
    | ExclusiveMinimum(exclusiveMinimum: Number)
    | ExclusiveMaximum(exclusiveMaximum: Number)
    | MultipleOf(multipleOf: Number)
    | MaxLength(maxLength: nat)
    | MinLength(minLength: nat)
    | Pattern(pattern: string)
    | MaxItems(maxItems: nat)
    | MinItems(minItems: nat)
    | MaxProperties(maxProperties: nat)
    | MinProperties(minProperties: nat)
    | Custom(text: string)

  function NatDisplay(n: nat): (s: string)
    ensures IsIntText(s) && ParseInt(s) == n
  {
    NatTextRoundTrip(n);
    ParseUnsigned(NatText(n));
    NatText(n)
  }

  /** `r` is `prefix`, then an integer in Rust's decimal form whose value is `value`, then `suffix`. */
  predicate ShowsInt(r: string, prefix: string, value: int, suffix: string)
  {
    && |prefix| + |suffix| <= |r|
    && r[..|prefix|] == prefix
    && r[|r| - |suffix|..] == suffix
    && IsIntText(r[|prefix|..|r| - |suffix|])
    && ParseInt(r[|prefix|..|r| - |suffix|]) == value
  }

  /** `prefix`, the decimal `text`, then `suffix`. */
  function Framed(prefix: string, text: string, value: int, suffix: string): (r: string)
    requires IsIntText(text) && ParseInt(text) == value
    ensures ShowsInt(r, prefix, value, suffix)
  {
    var r := prefix + text + suffix;
    assert r[..|prefix|] == prefix;
    assert r[|r| - |suffix|..] == suffix;
    assert r[|prefix|..|r| - |suffix|] == text;
    r
  }

  /** The pattern message: the pattern source between double quotes. */
  function PatternMessage(p: string): (r: string)
    ensures |r| == 39 + |p| && r[..37] == "The value must match the pattern of \"" && r[37..|r| - 2] == p
  {
    var r := "The value must match the pattern of \"" + p + "\".";
    assert r[..37] == "The value must match the pattern of \"" && r[37..|r| - 2] == p;
    r
  }

  /** The configured limit of the kinds that compare against a `Number`. */
  function NumberLimit(f: Failure): Option<Number>
  {
    match f
    case Minimum(m) => Some(m)
    case Maximum(m) => Some(m)
    case ExclusiveMinimum(m) => Some(m)
    case ExclusiveMaximum(m) => Some(m)
    case MultipleOf(m) => Some(m)
    case _ => None
  }

  /** The configured limit of the kinds that compare a `usize` count. */
  function CountLimit(f: Failure): Option<nat>
  {
    match f
    case MaxLength(n) => Some(n)
    case MinLength(n) => Some(n)
    case MaxItems(n) => Some(n)
    case MinItems(n) => Some(n)
    case MaxProperties(n) => Some(n)
    case MinProperties(n) => Some(n)
    case _ => None
  }

  /** The configured limit of a kind whose template shows a number; `None` for `pattern` and `custom`. */
  function LimitOf(f: Failure): (r: Option<int>)
    ensures r.None? <==> f.Pattern? || f.Custom?
  {
    if NumberLimit(f).Some? then Some(Payload(NumberLimit(f).value))
    else if CountLimit(f).Some? then Some(CountLimit(f).value)
    else None
  }

  /** The decimal text of the limit: `Display` of a `Number`, or of a `usize` count. */
  function LimitText(f: Failure): (s: string)
    requires LimitOf(f).Some?
    ensures IsIntText(s) && ParseInt(s) == LimitOf(f).value
  {
    if NumberLimit(f).Some? then Display(NumberLimit(f).value) else NatDisplay(CountLimit(f).value)
  }

  /** The fixed text in front of the limit in each default template. */
  function Prefix(f: Failure): string
  {
    match f
    case Minimum(_) => "The number must be `>= "
    case Maximum(_) => "The number must be `<= "
    case ExclusiveMinimum(_) => "The number must be `> "
    case ExclusiveMaximum(_) => "The number must be `< "
    case MultipleOf(_) => "The value must be multiple of `"
    case MaxLength(_) => "The length of the value must be `<= "
    case MinLength(_) => "The length of the value must be `>= "
    case MaxItems(_) => "The length of the items must be `<= "
    case MinItems(_) => "The length of the items must be `>= "
    case MaxProperties(_) => "The size of the properties must be `<= "
    case MinProperties(_) => "The size of the properties must be `>= "
    case Pattern(_) => "The value must match the pattern of \""
    case Custom(_) => ""
  }

  /** The default message of each kind: the limit in Rust's decimal form between the kind's
      prefix and a closing "`.", the pattern between quotes, and a custom error's text as it is. */
  function DefaultMessage(f: Failure): (r: string)
    ensures LimitOf(f).Some? ==> ShowsInt(r, Prefix(f), LimitOf(f).value, "`.")
    ensures f.Pattern? ==> |r| == 39 + |f.pattern| && r[..37] == Prefix(f) && r[37..|r| - 2] == f.pattern
    ensures f.Custom? ==> r == f.text
  {
    if f.Pattern? then PatternMessage(f.pattern)
    else if f.Custom? then f.text
    else Framed(Prefix(f), LimitText(f), LimitOf(f).value, "`.")
  }

  /** The default message of a kind with a limit, spelled out. */
  lemma DefaultMessageIs(f: Failure)
    requires LimitOf(f).Some?
    ensures DefaultMessage(f) == Prefix(f) + LimitText(f) + "`."
  {
  }

  /** The default message of a kind that compares a `Number`, with the number's decimal text. */
  lemma NumberMessageIs(f: Failure)
    requires NumberLimit(f).Some?
    ensures DefaultMessage(f) == Prefix(f) + IntText(Payload(NumberLimit(f).value)) + "`."
  {
    DefaultMessageIs(f);
  }

  /** A failure of a `Number` kind under the default format, once its text is spelled out. */
  lemma DefaultNumberLeaf(f: Failure, text: string)
    requires NumberLimit(f).Some?
    requires Prefix(f) + IntText(Payload(NumberLimit(f).value)) + "`." == text
    ensures IntoError(f, DefaultFormat) == Leaf(f, text)
  {
    NumberMessageIs(f);
  }

  /** The default message of a kind that counts, with the count's digits. */
  lemma CountMessageIs(f: Failure)
    requires CountLimit(f).Some?
    ensures DefaultMessage(f) == Prefix(f) + NatText(CountLimit(f).value) + "`."
  {
    DefaultMessageIs(f);
  }

  /** How a failure becomes text: the default template, a fixed `message`, or a `message_fn`. */
  datatype MessageFormat =
    | DefaultFormat
    | Message(text: string)
    | MessageFn(render: Failure -> string)

  function Render(f: Failure, format: MessageFormat): string
  {
    match format
    case DefaultFormat => DefaultMessage(f)
    case Message(text) => text
    case MessageFn(render) => render(f)
  }

  /** One entry of an error list: a leaf failure with its text, or a nested report. */
  datatype Error =
    | Leaf(failure: Failure, message: string)
    | Items(arrayErrors: ArrayErrors)
    | Properties(objectErrors: ObjectErrors)

  /** An array-shaped report: the container's own errors and the failing indices. */
  datatype ArrayErrors = ArrayErrors(errors: seq<Error>, items: map<nat, Errors>)

  /** An object-shaped report: the container's own errors and the failing properties. */
  datatype ObjectErrors = ObjectErrors(errors: seq<Error>, properties: map<string, Errors>)

  /** A node of the error tree. */
  datatype Errors =
    | Array(arrayErrors: ArrayErrors)
    | Object(objectErrors: ObjectErrors)
    | NewType(errors: seq<Error>)

  /** `into_error_by`: a failure becomes one leaf error whose text the format decides. */
  function IntoError(f: Failure, format: MessageFormat): (e: Error)
    ensures e.Leaf? && e.failure == f
    ensures format.DefaultFormat? ==> e.message == DefaultMessage(f)
    ensures format.Message? ==> e.message == format.text
    ensures format.MessageFn? ==> e.message == format.render(f)
  {
    Leaf(f, Render(f, format))
  }

  /** The rule error a `custom` closure returns. */
  function CustomError(text: string): (e: Error)
    ensures e.Leaf? && e.message == text
  {
    Leaf(Custom(text), text)
  }

  /** A message format replaces the text only: the reported failure is the same under every format. */
  lemma FormatChangesOnlyText(f: Failure, a: MessageFormat, b: MessageFormat)
    ensures IntoError(f, a).failure == IntoError(f, b).failure
    ensures a.Message? && b.Message? && a.text == b.text ==> IntoError(f, a) == IntoError(f, b)
  {
  }
}
