/** Lifting a leaf validator over `Option`, `Vec` and fixed arrays, nested in
    any order: an absent value is skipped, a present value is checked, and a
    sequence is checked element by element, the failures keyed by index. */
module Composited {
  import opened Wrappers
  import opened ValidationErrors

  /** The shape of a field value: `None` at any `Option` layer is `Absent`, `Some(x)` is its
      inner value, and a `Vec` or `[T; N]` is `Many`. */
  datatype Composited<T> = Absent | Single(value: T) | Many(elements: seq<Composited<T>>)

  /** Per-index failures of a lifted validator. */
  datatype CompositedFailure<F> = SingleFailure(failure: F) | ArrayFailure(failures: map<nat, CompositedFailure<F>>)

  /** Every present scalar inside `v` passes `check`. */
  predicate AllPass<T, F>(v: Composited<T>, check: T -> Result<(), F>)
  {
    match v
    case Absent => true
    case Single(x) => check(x).Ok?
    case Many(es) => forall i :: 0 <= i < |es| ==> AllPass(es[i], check)
  }

  /** The lifted validator: Ok exactly when every present scalar passes; on failure of a
      sequence, the keys are exactly the failing indices. */
  function Validate<T, F>(v: Composited<T>, check: T -> Result<(), F>): (r: Result<(), CompositedFailure<F>>)
    ensures r.Ok? <==> AllPass(v, check)
    ensures v.Single? && r.Err? ==> r.error == SingleFailure(check(v.value).error)
    ensures v.Many? && r.Err? ==>
              && r.error.ArrayFailure?
              && (forall i :: i in r.error.failures <==> 0 <= i < |v.elements| && !AllPass(v.elements[i], check))
  {
    match v
    case Absent => Ok(())
    case Single(x) => if check(x).Ok? then Ok(()) else Err(SingleFailure(check(x).error))
    case Many(es) =>
      var failures := map i: nat | i < |es| && Validate(es[i], check).Err? :: Validate(es[i], check).error;
      assert forall i: nat :: i < |es| && !AllPass(es[i], check) ==> i in failures;
      if failures == map[] then Ok(())
      else Err(ArrayFailure(failures))
  }

  /** `Option` wrapping: `None` is absent, `Some` is transparent. */
  function FromOption<T>(o: Option<Composited<T>>): Composited<T>
  {
    match o
    case None => Absent
    case Some(inner) => inner
  }

  /** A failure at one index never hides a failure at another: each failing element keeps
      its own entry, holding exactly what validating that element alone reports. */
  lemma EachElementValidated<T, F>(es: seq<Composited<T>>, check: T -> Result<(), F>, i: nat)
    requires i < |es| && Validate(es[i], check).Err?
    ensures Validate(Many(es), check).Err?
    ensures i in Validate(Many(es), check).error.failures
    ensures Validate(Many(es), check).error.failures[i] == Validate(es[i], check).error
  {
  }

  /** An absent element adds nothing: appending `None` to a sequence leaves the whole result
      unchanged, failures map included (the insertion at the end, `j == |es|`). */
  lemma AbsentIsSkipped<T, F>(es: seq<Composited<T>>, check: T -> Result<(), F>)
    ensures Validate(Many(es + [Absent]), check) == Validate(Many(es), check)
  {
    var es' := es + [Absent];
    assert es[..|es|] + [Absent] + es[|es|..] == es';
    var r, r' := Validate(Many(es), check), Validate(Many(es'), check);
    assert r.Ok? <==> r'.Ok? by {
      AbsentInsertedAnywhere(es, check, |es|);
    }
    if r.Err? {
      var f, f' := r.error.failures, r'.error.failures;
      assert forall i :: i in f ==> i in f' && f'[i] == f[i] by {
        AbsentInsertedKeepsFailures(es, check, |es|);
        assert forall i :: i in f ==> InsertedAt(i, |es|) == i;
      }
      assert |es| !in f';
      assert f' == f;
    }
  }

  /** A `None` inserted at any index of a sequence is skipped: the outcome is the same, no failure
      is reported at the new index, and the other elements keep their failing keys, those after it
      one index further on. */
  lemma AbsentInsertedAnywhere<T, F>(es: seq<Composited<T>>, check: T -> Result<(), F>, j: nat)
    requires j <= |es|
    ensures var es' := es[..j] + [Absent] + es[j..];
      && (Validate(Many(es'), check).Ok? <==> Validate(Many(es), check).Ok?)
      && (Validate(Many(es), check).Err? ==>
            var f, f' := Validate(Many(es), check).error.failures, Validate(Many(es'), check).error.failures;
            && j !in f'
            && (forall i :: 0 <= i < j ==> (i in f' <==> i in f))
            && (forall i :: j <= i < |es| ==> (i + 1 in f' <==> i in f)))
  {
    var es' := es[..j] + [Absent] + es[j..];
    assert forall i :: 0 <= i < j ==> es'[i] == es[i];
    assert es'[j] == Absent;
    assert forall i :: j <= i < |es| ==> es'[i + 1] == es[i];
    assert AllPass(Many(es'), check) <==> AllPass(Many(es), check) by {
      if AllPass(Many(es), check) {
        forall k | 0 <= k < |es'|
          ensures AllPass(es'[k], check)
        {
          if k > j {
            assert es'[k] == es[k - 1];
          }
        }
      }
      if AllPass(Many(es'), check) {
        forall k | 0 <= k < |es|
          ensures AllPass(es[k], check)
        {
          if k >= j {
            assert es'[k + 1] == es[k];
          }
        }
      }
    }
  }

  /** The index of element `i` once one element is inserted at index `j`. */
  function InsertedAt(i: nat, j: nat): nat
  {
    if i < j then i else i + 1
  }

  /** What each element reports moves with it: once `None` is inserted at `j`, the entry of
      element `i` is found at `InsertedAt(i, j)` (`i` before the insertion point, `i + 1` from it
      on), holding the same failure. */
  lemma {:induction false} AbsentInsertedKeepsFailures<T, F>(es: seq<Composited<T>>, check: T -> Result<(), F>, j: nat)
    requires j <= |es|
    ensures var es' := es[..j] + [Absent] + es[j..];
      Validate(Many(es), check).Err? ==>
        && Validate(Many(es'), check).Err?
        && var f, f' := Validate(Many(es), check).error.failures, Validate(Many(es'), check).error.failures;
           forall i :: i in f ==> InsertedAt(i, j) in f' && f'[InsertedAt(i, j)] == f[i]
  {
    var es' := es[..j] + [Absent] + es[j..];
    if Validate(Many(es), check).Err? {
      var f := Validate(Many(es), check).error.failures;
      var i0 :| i0 in f;
      MovedFailure(es, check, j, i0);
      forall i | i in f
        ensures InsertedAt(i, j) in Validate(Many(es'), check).error.failures
        ensures Validate(Many(es'), check).error.failures[InsertedAt(i, j)] == f[i]
      {
        MovedFailure(es, check, j, i);
      }
    }
  }

  /** One failing element of `es`, followed to its index once `None` is inserted at `j`. */
  lemma {:induction false} MovedFailure<T, F>(es: seq<Composited<T>>, check: T -> Result<(), F>, j: nat, i: nat)
    requires j <= |es| && Validate(Many(es), check).Err? && i in Validate(Many(es), check).error.failures
    ensures Validate(Many(es[..j] + [Absent] + es[j..]), check).Err?
    ensures InsertedAt(i, j) in Validate(Many(es[..j] + [Absent] + es[j..]), check).error.failures
    ensures Validate(Many(es[..j] + [Absent] + es[j..]), check).error.failures[InsertedAt(i, j)]
            == Validate(Many(es), check).error.failures[i]
  {
    var es' := es[..j] + [Absent] + es[j..];
    assert es'[InsertedAt(i, j)] == es[i] by {
      InsertedIndex(es, Absent, j, i);
    }
    FailureMoves(es, es', check, i, InsertedAt(i, j));
  }

  /** Where the elements of `es` sit once `x` is inserted at index `j`. */
  lemma InsertedIndex<T>(es: seq<T>, x: T, j: nat, i: nat)
    requires j <= |es| && i < |es|
    ensures var es' := es[..j] + [x] + es[j..];
      && |es'| == |es| + 1
      && (i < j ==> es'[i] == es[i])
      && (j <= i ==> es'[i + 1] == es[i])
  {
  }

  /** The same element at another index of another sequence fails with the same entry. */
  lemma {:induction false} FailureMoves<T, F>(es: seq<Composited<T>>, es': seq<Composited<T>>, check: T -> Result<(), F>, i: nat, i': nat)
    requires i < |es| && i' < |es'| && es'[i'] == es[i]
    requires Validate(Many(es), check).Err? && i in Validate(Many(es), check).error.failures
    ensures Validate(Many(es'), check).Err?
    ensures i' in Validate(Many(es'), check).error.failures
    ensures Validate(Many(es'), check).error.failures[i'] == Validate(Many(es), check).error.failures[i]
  {
    EachElementValidated(es, check, i);
    EachElementValidated(es', check, i');
  }

  /** `into_error_by` on a lifted failure: a scalar failure becomes one leaf error; a sequence
      failure becomes an `Items` report with no own errors and one node per failing index. */
  function IntoCompositedError(c: CompositedFailure<Failure>, format: MessageFormat): (e: Error)
    ensures c.SingleFailure? ==> e == IntoError(c.failure, format)
    ensures c.ArrayFailure? ==>
              && e.Items?
              && e.arrayErrors.errors == []
              && e.arrayErrors.items.Keys == c.failures.Keys
  {
    match c
    case SingleFailure(f) => IntoError(f, format)
    case ArrayFailure(failures) =>
      Items(ArrayErrors([], map i | i in failures :: NewType([IntoCompositedError(failures[i], format)])))
  }
}
