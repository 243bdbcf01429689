/** The code that `object_errors_tokens`, `array_errors_tokens` and
    `new_type_errors_tokens` in crates/serde_valid_derive/src/error.rs emit: it
    folds the error list collected for each field (or index) into one error-tree
    node. `ArrayErrors::merge` is not part of this model and is a parameter. */
module ErrorAggregation {
  import opened Wrappers
  import opened ValidationErrors

  type Merge = (ArrayErrors, ArrayErrors) -> ArrayErrors

  /** The errors the `filter_map` keeps: every entry that is not a nested report, in order. */
  function PlainErrors(es: seq<Error>): (r: seq<Error>)
    ensures |r| <= |es|
    ensures forall e :: e in r ==> e in es && e.Leaf?
  {
    if es == [] then []
    else PlainErrors(es[..|es| - 1]) + (if es[|es| - 1].Leaf? then [es[|es| - 1]] else [])
  }

  /** The nested array reports the `filter_map` pushes into `__field_items_errors`, in order. */
  function ItemsErrors(es: seq<Error>): (r: seq<ArrayErrors>)
    ensures |r| <= |es|
    ensures forall a :: a in r ==> Items(a) in es
  {
    if es == [] then []
    else ItemsErrors(es[..|es| - 1]) + (if es[|es| - 1].Items? then [es[|es| - 1].arrayErrors] else [])
  }

  /** The value `__field_properties_errors` ends with: each nested object report overwrites the previous one. */
  function LastProperties(es: seq<Error>): (r: Option<ObjectErrors>)
    ensures r.None? <==> forall e :: e in es ==> !e.Properties?
    ensures r.Some? ==> Properties(r.value) in es
  {
    if es == [] then None
    else if es[|es| - 1].Properties? then Some(es[|es| - 1].objectErrors)
    else
      var r := LastProperties(es[..|es| - 1]);
      assert forall e :: e in es ==> e in es[..|es| - 1] || e == es[|es| - 1];
      r
  }

  /** The `filter_map` over one field's errors, run as the emitted code runs it: a single pass
      that pushes array reports, overwrites the object report, and keeps the rest. */
  method SplitFieldErrors(errors: seq<Error>)
    returns (fieldErrors: seq<Error>, itemsErrors: seq<ArrayErrors>, propertiesErrors: Option<ObjectErrors>)
    ensures fieldErrors == PlainErrors(errors)
    ensures itemsErrors == ItemsErrors(errors)
    ensures propertiesErrors == LastProperties(errors)
  {
    fieldErrors, itemsErrors, propertiesErrors := [], [], None;
    var i := 0;
    while i < |errors|
      invariant 0 <= i <= |errors|
      invariant fieldErrors == PlainErrors(errors[..i])
      invariant itemsErrors == ItemsErrors(errors[..i])
      invariant propertiesErrors == LastProperties(errors[..i])
    {
      assert errors[..i + 1][..i] == errors[..i];
      match errors[i] {
        case Items(arrayErrors) =>
          itemsErrors := itemsErrors + [arrayErrors];
        case Properties(objectErrors) =>
          propertiesErrors := Some(objectErrors);
        case Leaf(_, _) =>
          fieldErrors := fieldErrors + [errors[i]];
      }
      i := i + 1;
    }
    assert errors[..i] == errors;
  }

  /** `reduce(|a, b| a.merge(b))`: a left fold, `None` only on an empty list. */
  function Reduce(xs: seq<ArrayErrors>, merge: Merge): (r: Option<ArrayErrors>)
    ensures r.None? <==> xs == []
    ensures |xs| == 1 ==> r == Some(xs[0])
  {
    if xs == [] then None else Some(FoldLeft(xs[0], xs[1..], merge))
  }

  function FoldLeft(acc: ArrayErrors, rest: seq<ArrayErrors>, merge: Merge): ArrayErrors
    decreases |rest|
  {
    if rest == [] then acc else FoldLeft(merge(acc, rest[0]), rest[1..], merge)
  }

  /** The node one field's error list becomes: `Object` when a nested object report exists,
      else `Array` when nested array reports exist, else `NewType`. */
  function FieldNode(errors: seq<Error>, merge: Merge): (r: Errors)
    ensures r.Object? <==> LastProperties(errors).Some?
    ensures r.Array? <==> LastProperties(errors).None? && ItemsErrors(errors) != []
    ensures r.Object? ==> PlainErrors(errors) <= r.objectErrors.errors
    ensures r.Array? ==> PlainErrors(errors) <= r.arrayErrors.errors
    ensures r.NewType? ==> r.errors == PlainErrors(errors)
  {
    var fieldErrors := PlainErrors(errors);
    var itemsErrors := ItemsErrors(errors);
    match LastProperties(errors)
    case Some(objectErrors) =>
      Object(ObjectErrors(fieldErrors + objectErrors.errors, objectErrors.properties))
    case None =>
      if itemsErrors != [] then
        var arrayErrors := Reduce(itemsErrors, merge).value;
        Array(ArrayErrors(fieldErrors + arrayErrors.errors, arrayErrors.items))
      else
        NewType(fieldErrors)
  }

  /** The body of the emitted `.map(|(field, errors)| ...)`, statement by statement. */
  method BuildFieldNode(errors: seq<Error>, merge: Merge) returns (node: Errors)
    ensures node == FieldNode(errors, merge)
  {
    var fieldErrors, itemsErrors, propertiesErrors := SplitFieldErrors(errors);
    if propertiesErrors.Some? {
      var objectErrors := propertiesErrors.value;
      fieldErrors := fieldErrors + objectErrors.errors;
      node := Object(ObjectErrors(fieldErrors, objectErrors.properties));
    } else if itemsErrors != [] {
      var reduced := Reduce(itemsErrors, merge);
      var arrayErrors := reduced.value;
      fieldErrors := fieldErrors + arrayErrors.errors;
      node := Array(ArrayErrors(fieldErrors, arrayErrors.items));
    } else {
      node := NewType(fieldErrors);
    }
  }

  /** The emitted `.map(...).collect()`: one node per key of the collected map. */
  function AggregateFields<K>(errorsMap: map<K, seq<Error>>, merge: Merge): (r: map<K, Errors>)
    ensures r.Keys == errorsMap.Keys
    ensures forall k :: k in r ==> r[k] == FieldNode(errorsMap[k], merge)
  {
    map k | k in errorsMap :: FieldNode(errorsMap[k], merge)
  }

  /** `object_errors_tokens`: the rule errors stay the root's own errors unchanged. */
  function ObjectErrorsOf(ruleErrors: seq<Error>, propertyErrorsMap: map<string, seq<Error>>, merge: Merge): (r: Errors)
    ensures r.Object? && r.objectErrors.errors == ruleErrors
    ensures r.objectErrors.properties.Keys == propertyErrorsMap.Keys
    ensures forall k :: k in r.objectErrors.properties ==>
              r.objectErrors.properties[k] == FieldNode(propertyErrorsMap[k], merge)
  {
    Object(ObjectErrors(ruleErrors, AggregateFields(propertyErrorsMap, merge)))
  }

  /** `array_errors_tokens`: the same fold keyed by index. */
  function ArrayErrorsOf(ruleErrors: seq<Error>, itemErrorsMap: map<nat, seq<Error>>, merge: Merge): (r: Errors)
    ensures r.Array? && r.arrayErrors.errors == ruleErrors
    ensures r.arrayErrors.items.Keys == itemErrorsMap.Keys
    ensures forall k :: k in r.arrayErrors.items ==> r.arrayErrors.items[k] == FieldNode(itemErrorsMap[k], merge)
  {
    Array(ArrayErrors(ruleErrors, AggregateFields(itemErrorsMap, merge)))
  }

  /** `new_type_errors_tokens`: the rule errors followed by the errors recorded at index 0. */
  function NewTypeErrorsOf(ruleErrors: seq<Error>, itemErrorsMap: map<nat, seq<Error>>): (r: Errors)
    ensures r.NewType?
    ensures 0 in itemErrorsMap ==> r.errors == ruleErrors + itemErrorsMap[0]
    ensures 0 !in itemErrorsMap ==> r.errors == ruleErrors
  {
    NewType(ruleErrors + if 0 in itemErrorsMap then itemErrorsMap[0] else [])
  }

  // ----- Properties of the fold -----

  /** Filtering distributes over concatenation, so plain errors keep their relative order. */
  lemma {:induction false} PlainErrorsAppend(a: seq<Error>, b: seq<Error>)
    ensures PlainErrors(a + b) == PlainErrors(a) + PlainErrors(b)
  {
    if b != [] {
      var b' := b[..|b| - 1];
      assert (a + b)[..|a + b| - 1] == a + b';
      PlainErrorsAppend(a, b');
    } else {
      assert a + b == a;
    }
  }

  /** Collecting array reports distributes over concatenation, so `reduce(merge)` folds them in
      arrival order. */
  lemma {:induction false} ItemsErrorsAppend(a: seq<Error>, b: seq<Error>)
    ensures ItemsErrors(a + b) == ItemsErrors(a) + ItemsErrors(b)
  {
    if b != [] {
      var b' := b[..|b| - 1];
      assert (a + b)[..|a + b| - 1] == a + b';
      ItemsErrorsAppend(a, b');
    } else {
      assert a + b == a;
    }
  }

  /** A list of plain errors is kept whole. */
  lemma {:induction false} PlainErrorsOfLeaves(es: seq<Error>)
    requires forall e :: e in es ==> e.Leaf?
    ensures PlainErrors(es) == es
  {
    if es != [] {
      var init, last := es[..|es| - 1], es[|es| - 1];
      assert es == init + [last];
      assert last.Leaf? by {
        assert last in es;
      }
      forall e | e in init
        ensures e.Leaf?
      {
        assert e in es;
      }
      PlainErrorsOfLeaves(init);
    }
  }

  /** Each entry lands in exactly one group: plain, array report, or object report. */
  lemma {:induction false} SplitIsPartition(es: seq<Error>)
    ensures |PlainErrors(es)| + |ItemsErrors(es)| + CountProperties(es) == |es|
  {
    if es != [] {
      SplitIsPartition(es[..|es| - 1]);
    }
  }

  function CountProperties(es: seq<Error>): nat
  {
    if es == [] then 0
    else CountProperties(es[..|es| - 1]) + (if es[|es| - 1].Properties? then 1 else 0)
  }

  /** With several object reports only the last one survives. */
  lemma LastPropertiesWins(before: seq<Error>, o: ObjectErrors, after: seq<Error>)
    requires forall e :: e in after ==> !e.Properties?
    ensures LastProperties(before + [Properties(o)] + after) == Some(o)
  {
    var es := before + [Properties(o)] + after;
    LastPropertiesSuffix(before + [Properties(o)], after);
  }

  lemma {:induction false} LastPropertiesSuffix(a: seq<Error>, b: seq<Error>)
    requires forall e :: e in b ==> !e.Properties?
    ensures LastProperties(a + b) == LastProperties(a)
  {
    if b == [] {
      assert a + b == a;
    } else {
      var b' := b[..|b| - 1];
      assert (a + b)[..|a + b| - 1] == a + b';
      assert (a + b)[|a + b| - 1] == b[|b| - 1];
      assert forall e :: e in b' ==> e in b;
      LastPropertiesSuffix(a, b');
    }
  }

  /** An object report takes priority: the node is `Object`-shaped, its own errors are the plain
      errors followed by the report's own errors, and array reports are dropped. */
  lemma PropertiesTakePriority(errors: seq<Error>, merge: Merge, extra: ArrayErrors)
    requires LastProperties(errors).Some?
    ensures var o := LastProperties(errors).value;
      FieldNode(errors, merge) == Object(ObjectErrors(PlainErrors(errors) + o.errors, o.properties))
    ensures FieldNode(errors + [Items(extra)], merge) == FieldNode(errors, merge)
  {
    var es := errors + [Items(extra)];
    assert es[..|es| - 1] == errors;
    assert PlainErrors(es) == PlainErrors(errors);
    assert LastProperties(es) == LastProperties(errors);
  }

  /** Without an object report, array reports make the node `Array`-shaped: own errors are the
      plain errors followed by those of the folded report, whose items it takes. */
  lemma ItemsMakeArrayNode(errors: seq<Error>, merge: Merge)
    requires LastProperties(errors).None? && ItemsErrors(errors) != []
    ensures Reduce(ItemsErrors(errors), merge).Some?
    ensures var a := Reduce(ItemsErrors(errors), merge).value;
      FieldNode(errors, merge) == Array(ArrayErrors(PlainErrors(errors) + a.errors, a.items))
  {
  }

  /** A node is `NewType` exactly when no nested report arrived, and then it holds the errors unchanged. */
  lemma {:induction false} NewTypeIffNoNested(errors: seq<Error>, merge: Merge)
    ensures FieldNode(errors, merge).NewType? <==> forall e :: e in errors ==> e.Leaf?
    ensures (forall e :: e in errors ==> e.Leaf?) ==> FieldNode(errors, merge) == NewType(errors)
  {
    if forall e :: e in errors ==> e.Leaf? {
      NoItemsInLeaves(errors);
      PlainErrorsOfLeaves(errors);
    } else {
      var e :| e in errors && !e.Leaf?;
      if e.Items? {
        ItemsErrorsComplete(errors, e.arrayErrors);
      }
    }
  }

  lemma {:induction false} NoItemsInLeaves(es: seq<Error>)
    requires forall e :: e in es ==> e.Leaf?
    ensures ItemsErrors(es) == []
  {
    if es != [] {
      assert forall e :: e in es[..|es| - 1] ==> e in es;
      NoItemsInLeaves(es[..|es| - 1]);
    }
  }

  lemma {:induction false} ItemsErrorsComplete(es: seq<Error>, a: ArrayErrors)
    requires Items(a) in es
    ensures a in ItemsErrors(es)
  {
    if es[|es| - 1] != Items(a) {
      assert Items(a) in es[..|es| - 1] by {
        var i :| 0 <= i < |es| && es[i] == Items(a);
        assert i < |es| - 1;
        assert es[..|es| - 1][i] == Items(a);
      }
      ItemsErrorsComplete(es[..|es| - 1], a);
    }
  }

  /** The fold is a left fold: a further report is merged into the result so far. */
  lemma {:induction false} ReduceAppend(xs: seq<ArrayErrors>, b: ArrayErrors, merge: Merge)
    requires xs != []
    ensures Reduce(xs + [b], merge) == Some(merge(Reduce(xs, merge).value, b))
  {
    FoldLeftAppend(xs[0], xs[1..], b, merge);
    assert (xs + [b])[1..] == xs[1..] + [b];
  }

  lemma {:induction false} FoldLeftAppend(acc: ArrayErrors, rest: seq<ArrayErrors>, b: ArrayErrors, merge: Merge)
    decreases |rest|
    ensures FoldLeft(acc, rest + [b], merge) == merge(FoldLeft(acc, rest, merge), b)
  {
    if rest != [] {
      assert (rest + [b])[1..] == rest[1..] + [b];
      FoldLeftAppend(merge(acc, rest[0]), rest[1..], b, merge);
    }
  }

  /** Entries at indices other than 0 never reach a `NewType` root. */
  lemma NewTypeIgnoresOtherIndices(ruleErrors: seq<Error>, itemErrorsMap: map<nat, seq<Error>>, i: nat, v: seq<Error>)
    requires i != 0
    ensures NewTypeErrorsOf(ruleErrors, itemErrorsMap[i := v]) == NewTypeErrorsOf(ruleErrors, itemErrorsMap)
  {
  }
}
