/** The nested scenario of crates/serde_valid/tests/array_test.rs (`items_err_message`): a
    struct whose `val` field is a `Vec` of child structs, with `min_items = 5`,
    `max_items = 2` and element validation on the field, and on each child a struct-level
    custom rule that always fails plus `minimum = 1` and `maximum = 10` on its own `val`.
    The error tree is built from the validators and the emitted aggregation. */
module ItemsScenario {
  import opened Wrappers
  import opened Decimal
  import opened Number
  import opened ValidationErrors
  import opened LeafRules
  import opened Composited
  import opened ErrorAggregation
  import opened LitRules
  import opened FieldRules

  /** The error `rule_sample` returns. */
  function RuleError(): Error
  {
    CustomError("Rule error.")
  }

  /** `#[validate(minimum = 1)]` and `#[validate(maximum = 10)]` on the child's `val: i32`. */
  function ChildRanges(): (vs: seq<RangeValidator<string>>)
    ensures forall i :: 0 <= i < |vs| ==> LimitFits(vs[i], I32Ty)
  {
    [RangeValidator(MinimumRule, "val", NumericInt(1), DefaultFormat),
     RangeValidator(MaximumRule, "val", NumericInt(10), DefaultFormat)]
  }

  /** The child's property errors map after its field validators ran. */
  function ChildPropertyErrors(val: int): (m: map<string, seq<Error>>)
    ensures m.Keys <= {"val"}
    ensures "val" in m <==> val < 1 || 10 < val
  {
    var vs := ChildRanges();
    TwoRanges(map[], vs[0], vs[1], I32Ty, Single(val));
    assert From(I32Ty, 1) == I32(1) && From(I32Ty, 10) == I32(10);
    AfterRanges(map[], vs, I32Ty, Single(val))
  }

  /** The child's generated `validate`: the struct rule's error is the root's own error, and the
      property map holds only the fields that failed. */
  function ValidateChild(val: int, merge: Merge): (r: Result<(), Errors>)
    ensures r.Err? && r.error.Object?
    ensures r.error.objectErrors.errors == [RuleError()]
    ensures "val" in r.error.objectErrors.properties <==> val < 1 || 10 < val
    ensures r.error.objectErrors.properties.Keys <= {"val"}
  {
    var ruleErrors := [RuleError()];
    var properties := ChildPropertyErrors(val);
    if ruleErrors == [] && properties == map[] then Ok(())
    else Err(ObjectErrorsOf(ruleErrors, properties, merge))
  }

  /** Element-wise validation of a `Vec`: one entry per failing index, holding that
      element's own report. */
  function ValidateElements<T>(vals: seq<T>, validate: T -> Result<(), Errors>): (r: Result<(), Errors>)
    ensures r.Err? <==> exists i :: 0 <= i < |vals| && validate(vals[i]).Err?
    ensures r.Err? ==> && r.error.Array? && r.error.arrayErrors.errors == []
                       && (forall i :: i in r.error.arrayErrors.items <==> 0 <= i < |vals| && validate(vals[i]).Err?)
                       && (forall i :: i in r.error.arrayErrors.items ==> r.error.arrayErrors.items[i] == validate(vals[i]).error)
  {
    var items := map i: nat | i < |vals| && validate(vals[i]).Err? :: validate(vals[i]).error;
    if items == map[] then
      assert forall i :: 0 <= i < |vals| ==> (i in items <==> validate(vals[i]).Err?);
      Ok(())
    else Err(Array(ArrayErrors([], items)))
  }

  function ValidateChildren(vals: seq<int>, merge: Merge): Result<(), Errors>
  {
    ValidateElements(vals, val => ValidateChild(val, merge))
  }

  /** The outer field's error list, in attribute order: `min_items`, `max_items`, then the
      nested report of the elements. */
  function OuterFieldErrors(vals: seq<int>, merge: Merge): (es: seq<Error>)
    ensures |vals| < 5 ==> |es| >= 1 && es[0] == IntoError(MinItems(5), DefaultFormat)
  {
    LeafErrors(ValidateMinItems(vals, 5)) + LeafErrors(ValidateMaxItems(vals, 2)) + NestedErrors(ValidateChildren(vals, merge))
  }

  /** What a leaf validator pushes onto the field's list: nothing, or its default-format error. */
  function LeafErrors(r: Result<(), Failure>): (es: seq<Error>)
    ensures r.Ok? <==> es == []
    ensures r.Err? ==> es == [Leaf(r.error, DefaultMessage(r.error))]
  {
    Reported(r, DefaultFormat)
  }

  /** What element validation pushes onto the field's list: nothing, or its array report. */
  function NestedErrors(r: Result<(), Errors>): seq<Error>
  {
    match r
    case Err(Array(a)) => [Items(a)]
    case _ => []
  }

  /** The outer struct's generated `validate`: no struct rule, one field. */
  function ValidateOuter(vals: seq<int>, merge: Merge): Result<(), Errors>
  {
    OuterRoot(OuterFieldErrors(vals, merge), merge)
  }

  /** The outer root from its one field's error list: `Ok` when the list is empty, otherwise an
      object node whose only property is that field. */
  function OuterRoot(fieldErrors: seq<Error>, merge: Merge): (r: Result<(), Errors>)
    ensures r.Ok? <==> fieldErrors == []
    ensures r.Err? ==> r.error == Object(ObjectErrors([], map["val" := FieldNode(fieldErrors, merge)]))
  {
    if fieldErrors == [] then Ok(())
    else
      var properties := map["val" := fieldErrors];
      var fields := AggregateFields(properties, merge);
      assert fields.Keys == {"val"};
      Err(ObjectErrorsOf([], properties, merge))
  }

  /** The nested report of one element is always an object node carrying the rule error. */
  lemma {:induction false} ChildAlwaysReported(vals: seq<int>, merge: Merge)
    requires |vals| > 0
    ensures ValidateChildren(vals, merge).Err?
    ensures forall i :: 0 <= i < |vals| ==> i in ValidateChildren(vals, merge).error.arrayErrors.items
  {
    assert ValidateChild(vals[0], merge).Err?;
  }

  /** A failure at one index never suppresses a different failure at another. */
  lemma IndependentItems(vals: seq<int>, merge: Merge, i: nat, j: nat)
    requires i < |vals| && j < |vals| && vals[i] < 1 && 10 < vals[j]
    ensures var items := ValidateChildren(vals, merge).error.arrayErrors.items;
      && i in items && j in items
      && "val" in items[i].objectErrors.properties
      && "val" in items[j].objectErrors.properties
  {
    assert ValidateChild(vals[i], merge).Err?;
  }

  const ExpectedChild0: Errors :=
    Object(ObjectErrors([Leaf(Custom("Rule error."), "Rule error.")],
                        map["val" := NewType([Leaf(Minimum(I32(1)), "The number must be `>= 1`.")])]))
  const ExpectedChild1: Errors :=
    Object(ObjectErrors([Leaf(Custom("Rule error."), "Rule error.")], map[]))
  const ExpectedChild2: Errors :=
    Object(ObjectErrors([Leaf(Custom("Rule error."), "Rule error.")],
                        map["val" := NewType([Leaf(Maximum(I32(10)), "The number must be `<= 10`.")])]))

  /** A child whose only failing field is `val`, with one leaf error. */
  lemma ChildWithOneError(val: int, e: Error, merge: Merge)
    requires e.Leaf? && ChildPropertyErrors(val) == map["val" := [e]]
    ensures ValidateChild(val, merge) == Err(Object(ObjectErrors([RuleError()], map["val" := NewType([e])])))
  {
    OneLeafField(e, merge);
    assert ValidateChild(val, merge) == Err(ObjectErrorsOf([RuleError()], map["val" := [e]], merge));
  }

  /** A field with one leaf error becomes a `NewType` node holding that error. */
  lemma OneLeafField(e: Error, merge: Merge)
    requires e.Leaf?
    ensures AggregateFields(map["val" := [e]], merge) == map["val" := NewType([e])]
  {
    PlainErrorsOfLeaves([e]);
    NewTypeIffNoNested([e], merge);
  }

  /** The default text of `minimum = 1` on an `i32`. */
  lemma MinimumOneError()
    ensures IntoCompositedError(SingleFailure(Minimum(I32(1))), DefaultFormat)
              == Leaf(Minimum(I32(1)), "The number must be `>= 1`.")
  {
    assert Prefix(Minimum(I32(1))) + IntText(1) + "`." == "The number must be `>= 1`." by {
      assert IntText(1) == "1";
    }
    DefaultNumberLeaf(Minimum(I32(1)), "The number must be `>= 1`.");
  }

  /** The default text of `maximum = 10` on an `i32`. */
  lemma MaximumTenError()
    ensures IntoCompositedError(SingleFailure(Maximum(I32(10))), DefaultFormat)
              == Leaf(Maximum(I32(10)), "The number must be `<= 10`.")
  {
    assert Prefix(Maximum(I32(10))) + IntText(10) + "`." == "The number must be `<= 10`." by {
      TenText();
    }
    DefaultNumberLeaf(Maximum(I32(10)), "The number must be `<= 10`.");
  }

  lemma ChildPropertiesOfZero()
    ensures ChildPropertyErrors(0) == map["val" := [Leaf(Minimum(I32(1)), "The number must be `>= 1`.")]]
  {
    var vs := ChildRanges();
    TwoRanges(map[], vs[0], vs[1], I32Ty, Single(0));
    assert From(I32Ty, 1) == I32(1) && From(I32Ty, 10) == I32(10);
    var e := Leaf(Minimum(I32(1)), "The number must be `>= 1`.");
    var m1 := AfterRange(map[], vs[0], I32Ty, Single(0));
    assert m1 == map["val" := [e]] by {
      MinimumOneError();
      assert RangeOutcome(vs[0], I32Ty, Single(0)) == Err(SingleFailure(Minimum(I32(1))));
      assert m1 == Appended(map[], "val", e);
      assert ListAt(map[], "val") + [e] == [e];
    }
    assert AfterRange(m1, vs[1], I32Ty, Single(0)) == m1;
  }

  lemma ChildPropertiesOfFifteen()
    ensures ChildPropertyErrors(15) == map["val" := [Leaf(Maximum(I32(10)), "The number must be `<= 10`.")]]
  {
    var vs := ChildRanges();
    TwoRanges(map[], vs[0], vs[1], I32Ty, Single(15));
    assert From(I32Ty, 1) == I32(1) && From(I32Ty, 10) == I32(10);
    var e := Leaf(Maximum(I32(10)), "The number must be `<= 10`.");
    var m1 := AfterRange(map[], vs[0], I32Ty, Single(15));
    assert m1 == map[];
    assert AfterRange(m1, vs[1], I32Ty, Single(15)) == map["val" := [e]] by {
      MaximumTenError();
      assert RangeOutcome(vs[1], I32Ty, Single(15)) == Err(SingleFailure(Maximum(I32(10))));
      assert AfterRange(m1, vs[1], I32Ty, Single(15)) == Appended(map[], "val", e);
      assert ListAt(map[], "val") + [e] == [e];
    }
  }

  lemma Child0(merge: Merge)
    ensures ValidateChild(0, merge) == Err(ExpectedChild0)
  {
    ChildPropertiesOfZero();
    ChildWithOneError(0, Leaf(Minimum(I32(1)), "The number must be `>= 1`."), merge);
  }

  lemma Child1(merge: Merge)
    ensures ValidateChild(5, merge) == Err(ExpectedChild1)
  {
    assert ChildPropertyErrors(5) == map[];
    var none: map<string, seq<Error>> := map[];
    assert AggregateFields(none, merge) == map[];
  }

  lemma Child2(merge: Merge)
    ensures ValidateChild(15, merge) == Err(ExpectedChild2)
  {
    ChildPropertiesOfFifteen();
    ChildWithOneError(15, Leaf(Maximum(I32(10)), "The number must be `<= 10`."), merge);
  }

  function ExpectedItems(): map<nat, Errors>
  {
    map[0 := ExpectedChild0, 1 := ExpectedChild1, 2 := ExpectedChild2]
  }

  /** Three elements that all fail are reported at indices 0, 1 and 2. */
  lemma ThreeFailingElements<T>(vals: seq<T>, validate: T -> Result<(), Errors>, a: Errors, b: Errors, c: Errors)
    requires |vals| == 3
    requires validate(vals[0]) == Err(a) && validate(vals[1]) == Err(b) && validate(vals[2]) == Err(c)
    ensures ValidateElements(vals, validate) == Err(Array(ArrayErrors([], map[0 := a, 1 := b, 2 := c])))
  {
    var r := ValidateElements(vals, validate);
    assert r.Err?;
    var items := r.error.arrayErrors.items;
    assert forall i :: i in items <==> i in {0, 1, 2};
    assert items == map[0 := a, 1 := b, 2 := c];
  }

  lemma ElementsReport(merge: Merge)
    ensures ValidateChildren([0, 5, 15], merge) == Err(Array(ArrayErrors([], ExpectedItems())))
  {
    var vals := [0, 5, 15];
    var validate := val => ValidateChild(val, merge);
    assert validate(vals[0]) == Err(ExpectedChild0) by { Child0(merge); }
    assert validate(vals[1]) == Err(ExpectedChild1) by { Child1(merge); }
    assert validate(vals[2]) == Err(ExpectedChild2) by { Child2(merge); }
    ThreeFailingElements(vals, validate, ExpectedChild0, ExpectedChild1, ExpectedChild2);
    assert ValidateChildren(vals, merge) == ValidateElements(vals, validate);
  }

  function MinItemsError(): Error
  {
    Leaf(MinItems(5), "The length of the items must be `>= 5`.")
  }

  function MaxItemsError(): Error
  {
    Leaf(MaxItems(2), "The length of the items must be `<= 2`.")
  }

  /** Three values break both container rules, each with its default text. */
  lemma ContainerMessages<T>(vals: seq<T>)
    requires |vals| == 3
    ensures LeafErrors(ValidateMinItems(vals, 5)) == [MinItemsError()]
    ensures LeafErrors(ValidateMaxItems(vals, 2)) == [MaxItemsError()]
  {
    MinItemsMessage(vals);
    MaxItemsMessage(vals);
  }

  lemma MinItemsMessage<T>(vals: seq<T>)
    requires |vals| < 5
    ensures LeafErrors(ValidateMinItems(vals, 5)) == [MinItemsError()]
  {
    assert Prefix(MinItems(5)) + NatText(5) + "`." == MinItemsError().message by {
      assert NatText(5) == "5";
    }
    CountMessageIs(MinItems(5));
  }

  lemma MaxItemsMessage<T>(vals: seq<T>)
    requires |vals| > 2
    ensures LeafErrors(ValidateMaxItems(vals, 2)) == [MaxItemsError()]
  {
    assert Prefix(MaxItems(2)) + NatText(2) + "`." == MaxItemsError().message by {
      assert NatText(2) == "2";
    }
    CountMessageIs(MaxItems(2));
  }

  lemma OuterFieldErrorsParts(vals: seq<int>, merge: Merge)
    ensures OuterFieldErrors(vals, merge)
      == LeafErrors(ValidateMinItems(vals, 5)) + LeafErrors(ValidateMaxItems(vals, 2)) + NestedErrors(ValidateChildren(vals, merge))
  {
  }

  /** With three values the field's list is both container errors, then the elements' report. */
  lemma OuterFieldOfThree(vals: seq<int>, merge: Merge, a: ArrayErrors)
    requires |vals| == 3 && ValidateChildren(vals, merge) == Err(Array(a))
    ensures OuterFieldErrors(vals, merge) == [MinItemsError(), MaxItemsError(), Items(a)]
  {
    OuterFieldErrorsParts(vals, merge);
    ContainerMessages(vals);
    assert NestedErrors(ValidateChildren(vals, merge)) == [Items(a)];
    Singletons(MinItemsError(), MaxItemsError(), Items(a));
  }

  lemma Singletons<T>(x: T, y: T, z: T)
    ensures [x] + [y] + [z] == [x, y, z]
  {
  }

  lemma OuterField(merge: Merge)
    ensures OuterFieldErrors([0, 5, 15], merge) == [MinItemsError(), MaxItemsError(), Items(ArrayErrors([], ExpectedItems()))]
  {
    ElementsReport(merge);
    OuterFieldOfThree([0, 5, 15], merge, ArrayErrors([], ExpectedItems()));
  }

  lemma OuterFieldNode(merge: Merge)
    ensures FieldNode([MinItemsError(), MaxItemsError(), Items(ArrayErrors([], ExpectedItems()))], merge)
              == Array(ArrayErrors([MinItemsError(), MaxItemsError()], ExpectedItems()))
  {
    var es := [MinItemsError(), MaxItemsError(), Items(ArrayErrors([], ExpectedItems()))];
    assert es[..2][..1][..0] == [];
    assert es[..2][..1] == [MinItemsError()];
    assert es[..2] == [MinItemsError(), MaxItemsError()];
    assert PlainErrors(es) == [MinItemsError(), MaxItemsError()];
    assert ItemsErrors(es) == [ArrayErrors([], ExpectedItems())];
    assert LastProperties(es) == None;
  }

  /** The whole tree `items_err_message` expects: both container messages in declaration order
      on the field node, and one object node per element, index 1 with an empty property map. */
  lemma ItemsErrMessage(merge: Merge)
    ensures ValidateOuter([0, 5, 15], merge)
      == Err(Object(ObjectErrors([], map["val" := Array(ArrayErrors([MinItemsError(), MaxItemsError()], ExpectedItems()))])))
  {
    OuterField(merge);
    OuterFieldNode(merge);
  }
}
