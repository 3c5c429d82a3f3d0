/** TLazy (Lazy.h): a value computed by an evaluator on first access and
  * stored for every later access. */
module Lazy {

  /** The alternatives of the `TVariant<ValueType, EvaluatorType>` field. */
  datatype LazyState<V> = Pending(evaluator: () -> V) | Evaluated(value: V)

  class Lazy<V> {
    /** The variant field; `mutable` in the source, so the const GetValue
      * may switch it. */
    var state: LazyState<V>
    /** How often the evaluator has been called. */
    ghost var evaluations: nat

    /** The evaluator runs exactly when the value has been stored, and
      * then exactly once. */
    ghost predicate Valid()
      reads this
    {
      evaluations == (if state.Evaluated? then 1 else 0)
    }

    /** The constructor (Lazy.h:33-36) stores the evaluator. */
    constructor (evaluator: () -> V)
      ensures state == Pending(evaluator) && evaluations == 0
      ensures Valid() && !IsEvaluated()
    {
      state := Pending(evaluator);
      evaluations := 0;
    }

    /** IsEvaluated (Lazy.h:50-54). */
    predicate IsEvaluated()
      reads this
    {
      state.Evaluated?
    }

    /** GetValue (Lazy.h:38-48): the first call runs the evaluator and
      * stores its result; later calls return the stored value. */
    method GetValue() returns (v: V)
      requires Valid()
      modifies this
      ensures Valid() && IsEvaluated()
      ensures old(state).Pending? ==>
        v == old(state).evaluator() && state == Evaluated(v) && evaluations == old(evaluations) + 1
      ensures old(state).Evaluated? ==>
        v == old(state).value && state == old(state) && evaluations == old(evaluations)
    {
      if state.Pending? {
        var result := state.evaluator();
        state := Evaluated(result);
        evaluations := evaluations + 1;
      }
      v := state.value;
    }
  }

  /** The scenario of LazyTest.cpp:10-31: a lazy 42 is not evaluated until
    * asked, and two reads call the evaluator once. */
  method EvaluatesOnDemand() returns (before: bool, first: int, second: int, evaluatedAfter: bool, ghost calls: nat)
    ensures !before && first == 42 && second == 42 && evaluatedAfter && calls == 1
  {
    var lazy := new Lazy(() => 42);
    before := lazy.IsEvaluated();
    first := lazy.GetValue();
    evaluatedAfter := lazy.IsEvaluated();
    second := lazy.GetValue();
    calls := lazy.evaluations;
  }
}
