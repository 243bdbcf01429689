/** The integer leaf validators whose behaviour the range, multiple_of and
    properties tests pin down, plus the item-count rules used by the array
    scenario. The subject and the limit have the same Rust type, so the limit
    is a `Number` and the subject an integer of that type. */
module LeafRules {
  import opened Wrappers
  import opened Decimal
  import opened Number
  import opened ValidationErrors

  /** `minimum`: inclusive lower bound. */
  function ValidateMinimum(x: int, minimum: Number): (r: Result<(), Failure>)
    ensures r.Ok? <==> Payload(minimum) <= x
    ensures r.Err? ==> r.error == Minimum(minimum)
  {
    if x >= Payload(minimum) then Ok(()) else Err(Minimum(minimum))
  }

  /** `maximum`: inclusive upper bound. */
  function ValidateMaximum(x: int, maximum: Number): (r: Result<(), Failure>)
    ensures r.Ok? <==> x <= Payload(maximum)
    ensures r.Err? ==> r.error == Maximum(maximum)
  {
    if x <= Payload(maximum) then Ok(()) else Err(Maximum(maximum))
  }

  /** `exclusive_minimum`: strict lower bound. */
  function ValidateExclusiveMinimum(x: int, bound: Number): (r: Result<(), Failure>)
    ensures r.Ok? <==> Payload(bound) < x
    ensures r.Err? ==> r.error == ExclusiveMinimum(bound)
  {
    if x > Payload(bound) then Ok(()) else Err(ExclusiveMinimum(bound))
  }

  /** `exclusive_maximum`: strict upper bound. */
  function ValidateExclusiveMaximum(x: int, bound: Number): (r: Result<(), Failure>)
    ensures r.Ok? <==> x < Payload(bound)
    ensures r.Err? ==> r.error == ExclusiveMaximum(bound)
  {
    if x < Payload(bound) then Ok(()) else Err(ExclusiveMaximum(bound))
  }

  function Abs(x: int): nat
  {
    if x < 0 then -x else x
  }

  /** Rust's integer `/`: the quotient truncated toward zero. */
  function TruncDiv(a: int, b: int): int
    requires b != 0
  {
    if (a < 0) == (b < 0) then Abs(a) / Abs(b) else -(Abs(a) / Abs(b))
  }

  /** Rust's integer `%`: what is left after the truncated quotient, so it takes the sign of
      the dividend. */
  function TruncRem(a: int, b: int): (r: int)
    requires b != 0
    ensures a == TruncDiv(a, b) * b + r
    ensures Abs(r) < Abs(b)
    ensures r == 0 || (r < 0 <==> a < 0)
  {
    var q, n := Abs(a) / Abs(b), Abs(a) % Abs(b);
    assert Abs(a) == q * Abs(b) + n;
    assert q * Abs(b) == if b < 0 then -(q * b) else q * b;
    if a < 0 then -n else n
  }

  /** `multiple_of` on integers: Ok exactly when the remainder is zero. */
  function ValidateMultipleOf(x: int, multipleOf: Number): (r: Result<(), Failure>)
    requires Payload(multipleOf) != 0
    ensures r.Ok? <==> x % Payload(multipleOf) == 0
    ensures r.Err? ==> r.error == MultipleOf(multipleOf)
  {
    TruncRemZero(x, Payload(multipleOf));
    if TruncRem(x, Payload(multipleOf)) == 0 then Ok(()) else Err(MultipleOf(multipleOf))
  }

  /** Truncated and Euclidean remainders vanish together. */
  lemma TruncRemZero(a: int, b: int)
    requires b != 0
    ensures TruncRem(a, b) == 0 <==> a % b == 0
  {
    var n := Abs(a) % Abs(b);
    assert Abs(a) == (Abs(a) / Abs(b)) * Abs(b) + n;
    assert a == (a / b) * b + a % b;
    if n == 0 {
      var q := Abs(a) / Abs(b);
      var k := if (a < 0) == (b < 0) then q else -q;
      assert a == k * b;
      DivisibleHasZeroRem(a, b, k);
    } else if a % b == 0 {
      var k := a / b;
      assert a == k * b;
      assert Abs(a) == Abs(k) * Abs(b);
      DivisibleHasZeroRem(Abs(a), Abs(b), Abs(k));
      assert false;
    }
  }

  lemma DivisibleHasZeroRem(a: int, b: int, k: int)
    requires b != 0 && a == k * b
    ensures a % b == 0
  {
    var q, r := a / b, a % b;
    var d := k - q;
    assert r == a - q * b;
    assert r == d * b by {
      assert a - q * b == k * b - q * b;
      assert k * b - q * b == (k - q) * b;
    }
    if d != 0 {
      AtLeastOneMultiple(d, b);
      assert false;
    }
  }

  /** A non-zero multiple of `b` is at least `|b|` away from zero. */
  lemma AtLeastOneMultiple(d: int, b: int)
    requires d != 0 && b != 0
    ensures Abs(d * b) >= Abs(b)
  {
    AbsOfProduct(d, b);
    MulAtLeast(Abs(d), Abs(b));
  }

  lemma AbsOfProduct(d: int, b: int)
    ensures Abs(d * b) == Abs(d) * Abs(b)
  {
    if d < 0 {
      assert d * b == -((-d) * b);
      if b < 0 {
        assert (-d) * b == -((-d) * (-b));
      }
    } else if b < 0 {
      assert d * b == -(d * (-b));
    }
  }

  lemma {:induction false} MulAtLeast(x: nat, y: nat)
    requires x >= 1
    ensures x * y >= y
  {
    if x > 1 {
      MulAtLeast(x - 1, y);
      assert x * y == (x - 1) * y + y;
    }
  }

  /** Every multiple of the divisor is accepted. */
  lemma MultipleOfAcceptsMultiples(x: int, multipleOf: Number, k: int)
    requires Payload(multipleOf) != 0
    ensures x == k * Payload(multipleOf) ==> ValidateMultipleOf(x, multipleOf).Ok?
  {
    if x == k * Payload(multipleOf) {
      DivisibleHasZeroRem(x, Payload(multipleOf), k);
    }
  }

  /** `min_properties`: the map has at least `minimum` entries. */
  function ValidateMinProperties<K, V>(m: map<K, V>, minimum: nat): (r: Result<(), Failure>)
    ensures r.Ok? <==> minimum <= |m|
    ensures r.Err? ==> r.error == MinProperties(minimum)
  {
    if |m| >= minimum then Ok(()) else Err(MinProperties(minimum))
  }

  /** `max_properties`: the map has at most `maximum` entries. */
  function ValidateMaxProperties<K, V>(m: map<K, V>, maximum: nat): (r: Result<(), Failure>)
    ensures r.Ok? <==> |m| <= maximum
    ensures r.Err? ==> r.error == MaxProperties(maximum)
  {
    if |m| <= maximum then Ok(()) else Err(MaxProperties(maximum))
  }

  /** `min_items`: the sequence has at least `minimum` elements. */
  function ValidateMinItems<T>(xs: seq<T>, minimum: nat): (r: Result<(), Failure>)
    ensures r.Ok? <==> minimum <= |xs|
    ensures r.Err? ==> r.error == MinItems(minimum)
  {
    if |xs| >= minimum then Ok(()) else Err(MinItems(minimum))
  }

  /** `max_items`: the sequence has at most `maximum` elements. */
  function ValidateMaxItems<T>(xs: seq<T>, maximum: nat): (r: Result<(), Failure>)
    ensures r.Ok? <==> |xs| <= maximum
    ensures r.Err? ==> r.error == MaxItems(maximum)
  {
    if |xs| <= maximum then Ok(()) else Err(MaxItems(maximum))
  }

  /** Inclusive bounds accept their boundary; exclusive bounds reject it and accept the next value. */
  lemma RangeBoundaries(b: Int32)
    requires b != -0x8000_0000 && b != 0x7FFF_FFFF
    ensures ValidateMinimum(b, I32(b)).Ok? && ValidateMinimum(b - 1, I32(b)).Err?
    ensures ValidateMaximum(b, I32(b)).Ok? && ValidateMaximum(b + 1, I32(b)).Err?
    ensures ValidateExclusiveMinimum(b, I32(b)).Err? && ValidateExclusiveMinimum(b + 1, I32(b)).Ok?
    ensures ValidateExclusiveMaximum(b, I32(b)).Err? && ValidateExclusiveMaximum(b - 1, I32(b)).Ok?
  {
  }

  /** 15 is a multiple of 5; 16 is not a multiple of 3; 14 with divisor 5 gives the default message. */
  lemma MultipleOfExamples()
    ensures ValidateMultipleOf(15, I32(5)).Ok?
    ensures ValidateMultipleOf(16, I32(3)).Err?
    ensures DefaultMessage(ValidateMultipleOf(14, I32(5)).error) == "The value must be multiple of `5`."
  {
    assert Display(I32(5)) == "5";
  }

  /** Only the entry count matters: maps of equal size get the same outcome. */
  lemma PropertiesCountOnly<K, V, K', V'>(m: map<K, V>, m': map<K', V'>, minimum: nat, maximum: nat)
    requires |m| == |m'|
    ensures ValidateMinProperties(m, minimum) == ValidateMinProperties(m', minimum)
    ensures ValidateMaxProperties(m, maximum) == ValidateMaxProperties(m', maximum)
  {
  }

  /** What one rule pushes onto its field's error list: nothing when it passes, else its error
      rendered in the attribute's message format. */
  function Reported(r: Result<(), Failure>, format: MessageFormat): (es: seq<Error>)
    ensures r.Ok? <==> es == []
    ensures r.Err? ==> es == [IntoError(r.error, format)]
  {
    match r
    case Ok(_) => []
    case Err(f) => [IntoError(f, format)]
  }

  /** One entry against `min_properties = 3` and `max_properties = 3`: the field's list holds only
      the minimum's default text. */
  lemma PropertiesMessages<K, V>(m: map<K, V>)
    requires |m| == 1
    ensures Reported(ValidateMinProperties(m, 3), DefaultFormat) + Reported(ValidateMaxProperties(m, 3), DefaultFormat)
              == [Leaf(MinProperties(3), "The size of the properties must be `>= 3`.")]
  {
    assert Prefix(MinProperties(3)) + NatText(3) + "`." == "The size of the properties must be `>= 3`." by {
      assert NatText(3) == "3";
    }
    CountMessageIs(MinProperties(3));
    assert ValidateMinProperties(m, 3) == Err(MinProperties(3));
    assert ValidateMaxProperties(m, 3) == Ok(());
  }

  /** Two entries against `min_properties = 3` and `max_properties = 1`, each with its own
      `message` or `message_fn`: both rules fail and their texts appear in declaration order. */
  lemma PropertiesCustomMessages<K, V>(m: map<K, V>, minFormat: MessageFormat, maxFormat: MessageFormat)
    requires |m| == 2
    ensures Reported(ValidateMinProperties(m, 3), minFormat) + Reported(ValidateMaxProperties(m, 1), maxFormat)
              == [Leaf(MinProperties(3), Render(MinProperties(3), minFormat)),
                  Leaf(MaxProperties(1), Render(MaxProperties(1), maxFormat))]
  {
    assert ValidateMinProperties(m, 3) == Err(MinProperties(3));
    assert ValidateMaxProperties(m, 1) == Err(MaxProperties(1));
  }
}
