/** The blanket `ValidateMaxLength` of
    crates/serde_valid/src/validation/string/max_length.rs, over an abstract
    `Length`: any value with a size function. */
module MaxLength {
  import opened Wrappers
  import opened Decimal
  import opened ValidationErrors

  /** Ok when the value's length is at most `maxLength`; the error carries only `maxLength`. */
  function ValidateMaxLength<T>(value: T, length: T -> nat, maxLength: nat): (r: Result<(), Failure>)
    ensures r.Ok? <==> length(value) <= maxLength
    ensures r.Err? ==> r.error == MaxLength(maxLength)
  {
    if maxLength >= length(value) then Ok(()) else Err(MaxLength(maxLength))
  }

  /** A length equal to the maximum is accepted. */
  lemma BoundaryAccepted<T>(value: T, length: T -> nat)
    ensures ValidateMaxLength(value, length, length(value)).Ok?
    ensures length(value) > 0 ==> ValidateMaxLength(value, length, length(value) - 1).Err?
  {
  }

  /** Raising the maximum never turns an accepted value into a rejected one. */
  lemma Monotone<T>(value: T, length: T -> nat, m: nat, m': nat)
    requires ValidateMaxLength(value, length, m).Ok? && m <= m'
    ensures ValidateMaxLength(value, length, m').Ok?
  {
  }

  /** The error is the same for every rejected value: it says nothing about the value. */
  lemma ErrorIndependentOfValue<T>(a: T, b: T, length: T -> nat, maxLength: nat)
    requires ValidateMaxLength(a, length, maxLength).Err? && ValidateMaxLength(b, length, maxLength).Err?
    ensures ValidateMaxLength(a, length, maxLength) == ValidateMaxLength(b, length, maxLength)
  {
  }

  /** Text as a sequence of user-perceived characters (grapheme clusters); the segmentation
      itself is an input of this model. */
  function GraphemeLength(clusters: seq<string>): nat
  {
    |clusters|
  }

  function Concat(clusters: seq<string>): string
  {
    if clusters == [] then "" else clusters[0] + Concat(clusters[1..])
  }

  /** "a̐éö̲" is three characters of seven code points, and fits a maximum of 3;
      the five emoji, fourteen code points, fit a maximum of 5. */
  lemma LengthIsNotCodePointCount()
    ensures var text := ["a\U{0310}", "e\U{0301}", "o\U{0308}\U{0332}"];
      |Concat(text)| == 7 && ValidateMaxLength(text, GraphemeLength, 3).Ok?
    ensures var emoji := ["\U{1F60D}", "\U{1F47A}", "\U{1F64B}\U{1F3FD}",
                          "\U{1F468}\U{200D}\U{1F3A4}",
                          "\U{1F468}\U{200D}\U{1F469}\U{200D}\U{1F467}\U{200D}\U{1F466}"];
      |Concat(emoji)| == 14 && ValidateMaxLength(emoji, GraphemeLength, 5).Ok?
  {
    var text := ["a\U{0310}", "e\U{0301}", "o\U{0308}\U{0332}"];
    assert Concat(text) == text[0] + Concat(text[1..]);
    var emoji := ["\U{1F60D}", "\U{1F47A}", "\U{1F64B}\U{1F3FD}",
                  "\U{1F468}\U{200D}\U{1F3A4}",
                  "\U{1F468}\U{200D}\U{1F469}\U{200D}\U{1F467}\U{200D}\U{1F466}"];
    assert Concat(emoji) == emoji[0] + Concat(emoji[1..]);
  }

  /** The default message for a maximum of 5. */
  lemma DefaultMessageOfFive()
    ensures DefaultMessage(ValidateMaxLength("abcdef", (s: string) => |s|, 5).error)
      == "The length of the value must be `<= 5`."
  {
    assert Prefix(MaxLength(5)) + NatText(5) + "`." == "The length of the value must be `<= 5`." by {
      assert NatText(5) == "5";
    }
    CountMessageIs(MaxLength(5));
    assert ValidateMaxLength("abcdef", (s: string) => |s|, 5) == Err(MaxLength(5));
  }
}
