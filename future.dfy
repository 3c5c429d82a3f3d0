/** TScopedPromise and AggregateFutures (Future.h).
  *
  * The engine's TPromise/TFuture pair shares one state that receives a single
  * value; it is modelled by the class SharedState, which the promise and its
  * future both refer to. Setting a value twice, or on a promise whose state
  * was moved away, fails an engine check, so both are preconditions here. */
module Future {
  import opened Wrappers
  import Functional

  /** The state shared by a TPromise and its TFuture. */
  class SharedState<T> {
    var value: Option<T>

    constructor ()
      ensures value == None
    {
      value := None;
    }
  }

  /** TScopedPromise (Future.h:16-83). */
  class ScopedPromise<T> {
    /** The TPromise: its shared state, or null once moved from. */
    var promise: SharedState?<T>
    /** CancelledValueFunc. */
    var cancelledValue: () -> T
    /** bFulfilled. */
    var fulfilled: bool

    /** Unless fulfilled, the promise has a state still waiting for its
      * value. */
    predicate Valid()
      reads this, promise
    {
      !fulfilled ==> promise != null && promise.value.None?
    }

    /** The explicit constructor (Future.h:20-22); the constructor taking a
      * completion callback (Future.h:24-27) differs only in the callback. */
    constructor (cancelledValue: () -> T)
      ensures fresh(promise) && promise.value.None?
      ensures this.cancelledValue == cancelledValue && !fulfilled
      ensures Valid()
    {
      promise := new SharedState();
      this.cancelledValue := cancelledValue;
      fulfilled := false;
    }

    /** The move constructor (Future.h:29-35): takes the other's promise,
      * function and flag, and leaves the other fulfilled so that it never
      * cancels. */
    constructor Moved(other: ScopedPromise<T>)
      requires other.Valid()
      modifies other
      ensures promise == old(other.promise)
      ensures cancelledValue == old(other.cancelledValue)
      ensures fulfilled == old(other.fulfilled)
      ensures other.promise == null && other.fulfilled
      ensures other.cancelledValue == old(other.cancelledValue)
      ensures Valid() && other.Valid()
    {
      promise := other.promise;
      cancelledValue := other.cancelledValue;
      fulfilled := other.fulfilled;
      other.promise := null;
      other.fulfilled := true;
    }

    /** Move assignment (Future.h:37-47): a no-op on itself; otherwise the
      * same transfer as the move constructor. The promise held before is
      * dropped without a value. */
    method MoveAssign(other: ScopedPromise<T>)
      requires other.Valid()
      modifies this, other
      ensures other == this ==> promise == old(promise) && cancelledValue == old(cancelledValue) && fulfilled == old(fulfilled)
      ensures other != this ==>
        && promise == old(other.promise)
        && cancelledValue == old(other.cancelledValue)
        && fulfilled == old(other.fulfilled)
        && other.promise == null && other.fulfilled
      ensures Valid() && other.Valid()
    {
      if other == this {
        return;
      }
      promise := other.promise;
      cancelledValue := other.cancelledValue;
      fulfilled := other.fulfilled;
      other.promise := null;
      other.fulfilled := true;
    }

    /** Move assignment as evidently intended: a promise still unfulfilled
      * that is assigned over is first cancelled, as its destructor would
      * cancel it, and only then takes over the other's state. Two scoped
      * promises never share a state, hence the second precondition. */
    method MoveAssignCancellingReplaced(other: ScopedPromise<T>)
      requires Valid() && other.Valid()
      requires other == this || promise == null || promise != other.promise
      modifies this, other, promise
      ensures other == this ==> promise == old(promise) && cancelledValue == old(cancelledValue) && fulfilled == old(fulfilled)
      ensures other == this && promise != null ==> promise.value == old(promise.value)
      ensures other != this ==>
        && promise == old(other.promise)
        && cancelledValue == old(other.cancelledValue)
        && fulfilled == old(other.fulfilled)
        && other.promise == null && other.fulfilled
      ensures other != this && !old(fulfilled) ==> old(promise).value == Some(old(cancelledValue)())
      ensures other != this && old(fulfilled) && old(promise) != null ==> old(promise).value == old(promise.value)
      ensures Valid() && other.Valid()
    {
      if other == this {
        return;
      }
      if !fulfilled {
        promise.value := Some(cancelledValue());
      }
      promise := other.promise;
      cancelledValue := other.cancelledValue;
      fulfilled := other.fulfilled;
      other.promise := null;
      other.fulfilled := true;
    }

    /** SetValue (Future.h:65-70): delivers the value and marks the promise
      * fulfilled. */
    method SetValue(v: T)
      requires Valid() && !fulfilled
      modifies this, promise
      ensures fulfilled && promise == old(promise) && cancelledValue == old(cancelledValue)
      ensures promise.value == Some(v)
    {
      fulfilled := true;
      promise.value := Some(v);
    }

    /** EmplaceValue (Future.h:58-63): the same as SetValue for a value built
      * from the arguments. */
    method EmplaceValue(v: T)
      requires Valid() && !fulfilled
      modifies this, promise
      ensures fulfilled && promise == old(promise) && cancelledValue == old(cancelledValue)
      ensures promise.value == Some(v)
    {
      SetValue(v);
    }

    /** GetFuture (Future.h:72-75): the future of the held promise. */
    method GetFuture() returns (future: SharedState<T>)
      requires promise != null
      ensures future == promise
    {
      future := promise;
    }

    /** The destructor (Future.h:49-56): an unfulfilled promise delivers the
      * cancelled value; a fulfilled one delivers nothing more. */
    method Destroy()
      requires Valid()
      modifies this, promise
      ensures fulfilled && promise == old(promise) && cancelledValue == old(cancelledValue)
      ensures !old(fulfilled) ==> old(promise).value == Some(old(cancelledValue)())
      ensures old(fulfilled) && old(promise) != null ==> old(promise).value == old(promise.value)
    {
      if !fulfilled {
        SetValue(cancelledValue());
      }
    }
  }

  // The six scenarios of FutureTest.cpp:14-107: each future ends with the
  // value set explicitly, or with the cancelled value of the promise that
  // last held its state when that promise was destroyed unfulfilled.

  /** A promise set to true delivers true (FutureTest.cpp:16-26). */
  method SetPromiseDelivers() returns (r: bool)
    ensures r
  {
    var p := new ScopedPromise(Functional.LiteralFunction(false));
    var f := p.GetFuture();
    p.SetValue(true);
    p.Destroy();
    r := f.value.value;
  }

  /** A promise destroyed unset delivers its cancelled value, false
    * (FutureTest.cpp:28-37). */
  method DroppedPromiseCancels() returns (r: bool)
    ensures !r
  {
    var p := new ScopedPromise(Functional.LiteralFunction(false));
    var f := p.GetFuture();
    p.Destroy();
    r := f.value.value;
  }

  /** A moved promise set to true delivers true once, though both the
    * moved-to and the moved-from promise are destroyed
    * (FutureTest.cpp:39-54). */
  method MovedPromiseDelivers() returns (r: bool)
    ensures r
  {
    var movedFrom := new ScopedPromise(Functional.LiteralFunction(false));
    var f := movedFrom.GetFuture();
    var movedTo := new ScopedPromise.Moved(movedFrom);
    movedTo.SetValue(true);
    movedTo.Destroy();
    movedFrom.Destroy();
    r := f.value.value;
  }

  /** A moved promise destroyed unset cancels with false
    * (FutureTest.cpp:56-70). */
  method MovedPromiseCancels() returns (r: bool)
    ensures !r
  {
    var movedFrom := new ScopedPromise(Functional.LiteralFunction(false));
    var f := movedFrom.GetFuture();
    var movedTo := new ScopedPromise.Moved(movedFrom);
    movedTo.Destroy();
    movedFrom.Destroy();
    r := f.value.value;
  }

  /** A promise move-assigned over another, by the assignment as written,
    * and set to 2 delivers 2 (FutureTest.cpp:72-88). */
  method MoveAssignedPromiseDelivers() returns (r: int)
    ensures r == 2
  {
    var movedFrom := new ScopedPromise(Functional.LiteralFunction(0));
    var f := movedFrom.GetFuture();
    var movedTo := new ScopedPromise(Functional.LiteralFunction(1));
    movedTo.MoveAssign(movedFrom);
    movedTo.SetValue(2);
    movedTo.Destroy();
    movedFrom.Destroy();
    r := f.value.value;
  }

  /** A promise move-assigned over another, by the assignment as written,
    * and destroyed unset cancels with the cancelled value it took over, 0,
    * not the 1 of the promise it replaced (FutureTest.cpp:90-106). */
  method MoveAssignedPromiseCancels() returns (r: int)
    ensures r == 0
  {
    var movedFrom := new ScopedPromise(Functional.LiteralFunction(0));
    var f := movedFrom.GetFuture();
    var movedTo := new ScopedPromise(Functional.LiteralFunction(1));
    movedTo.MoveAssign(movedFrom);
    movedTo.Destroy();
    movedFrom.Destroy();
    r := f.value.value;
  }

  /** Move assignment as written drops the promise assigned over: its future
    * never receives a value, though the promise was never fulfilled and
    * both scoped promises are destroyed. */
  method MoveAssignAbandonsReplaced() returns (replacedHasValue: bool, movedValue: int)
    ensures !replacedHasValue && movedValue == 0
  {
    var movedFrom := new ScopedPromise(Functional.LiteralFunction(0));
    var f := movedFrom.GetFuture();
    var movedTo := new ScopedPromise(Functional.LiteralFunction(1));
    var replaced := movedTo.GetFuture();
    movedTo.MoveAssign(movedFrom);
    movedTo.Destroy();
    movedFrom.Destroy();
    replacedHasValue := replaced.value.Some?;
    movedValue := f.value.value;
  }

  /** With the corrected move assignment the promise assigned over delivers
    * its cancelled value, 1, and the moved promise still cancels with 0. */
  method MoveAssignCancelsReplaced() returns (replacedValue: int, movedValue: int)
    ensures replacedValue == 1 && movedValue == 0
  {
    var movedFrom := new ScopedPromise(Functional.LiteralFunction(0));
    var f := movedFrom.GetFuture();
    var movedTo := new ScopedPromise(Functional.LiteralFunction(1));
    var replaced := movedTo.GetFuture();
    movedTo.MoveAssignCancellingReplaced(movedFrom);
    movedTo.Destroy();
    movedFrom.Destroy();
    replacedValue := replaced.value.value;
    movedValue := f.value.value;
  }

  // ---------------------------------------------------------------------
  // AggregateFutures (Future.h:85-152).

  /** The value AggregateFutures delivers once every future has its value:
    * AggregateFunc applied to Initial and the first future's value, then on
    * to the rest, in list order (Future.h:99-124). */
  function AggregateFutures<F, R>(values: seq<F>, initial: R, aggregate: (R, F) -> R): R
  {
    if |values| == 0 then initial
    else AggregateFutures(values[1..], aggregate(initial, values[0]), aggregate)
  }

  /** Over no futures the result is Initial. */
  lemma AggregateEmpty<F, R>(initial: R, aggregate: (R, F) -> R)
    ensures AggregateFutures([], initial, aggregate) == initial
  {
  }

  /** One more future at the end applies AggregateFunc once more, to the
    * result so far and its value: the result is the left fold in list
    * order. */
  lemma {:induction false} AggregateAppend<F, R>(values: seq<F>, last: F, initial: R, aggregate: (R, F) -> R)
    ensures AggregateFutures(values + [last], initial, aggregate) ==
      aggregate(AggregateFutures(values, initial, aggregate), last)
  {
    if |values| > 0 {
      assert (values + [last])[1..] == values[1..] + [last];
      AggregateAppend(values[1..], last, aggregate(initial, values[0]), aggregate);
    }
  }

  /** Collecting the values into a list gives them in list order
    * (FutureTest.cpp:109-143). */
  lemma {:induction false} AggregateCollects(values: seq<int>, initial: seq<int>)
    ensures AggregateFutures(values, initial, (acc: seq<int>, v: int) => acc + [v]) == initial + values
  {
    if |values| > 0 {
      assert initial + values == (initial + [values[0]]) + values[1..];
      AggregateCollects(values[1..], initial + [values[0]]);
    }
  }

  /** Aggregating with FSum from an initial value adds the values to it. */
  lemma {:induction false} AggregateSums(values: seq<int>, initial: int)
    ensures AggregateFutures(values, initial, (acc: int, v: int) => Functional.Sum([acc, v])) ==
      initial + Functional.SumFromRight(values)
  {
    if |values| > 0 {
      var sum := (acc: int, v: int) => Functional.Sum([acc, v]);
      assert [initial, values[0]][..1] == [initial];
      assert Functional.Sum([initial, values[0]]) == initial + values[0];
      assert sum(initial, values[0]) == initial + values[0];
      AggregateSums(values[1..], initial + values[0]);
    }
  }

  /** The value FutureTest.cpp:145-173 expects of its k-th future: the odd
    * promises are set to their index, the others cancel with -1. */
  function ScopedPromiseTestValue(k: int): int
  {
    if k % 2 == 1 then k else -1
  }

  /** The promises of a list own pairwise distinct shared states, and the
    * k-th future is the state of the k-th promise. */
  ghost predicate OwnStates(promises: seq<ScopedPromise<int>>, futures: seq<SharedState<int>>)
    reads set k | 0 <= k < |promises| :: promises[k]
  {
    && |futures| == |promises|
    && (forall k :: 0 <= k < |promises| ==> promises[k].promise == futures[k])
    && (forall j, k :: 0 <= j < k < |promises| ==> promises[j] != promises[k] && futures[j] != futures[k])
  }

  /** The Emplace loop of FutureTest.cpp:151-154 and the GetFuture loop of
    * FutureTest.cpp:156-160: n fresh unfulfilled promises cancelling with
    * `cancelled`, and their futures. */
  method MakeScopedPromises(n: nat, cancelled: int) returns (promises: seq<ScopedPromise<int>>, futures: seq<SharedState<int>>)
    ensures |promises| == n && OwnStates(promises, futures)
    ensures forall k :: 0 <= k < n ==> fresh(promises[k]) && fresh(futures[k])
    ensures forall k :: 0 <= k < n ==>
      !promises[k].fulfilled && futures[k].value.None? && promises[k].cancelledValue == Functional.LiteralFunction(cancelled)
  {
    promises := [];
    while |promises| < n
      invariant |promises| <= n
      invariant forall k :: 0 <= k < |promises| ==> fresh(promises[k]) && fresh(promises[k].promise)
      invariant forall k :: 0 <= k < |promises| ==>
        promises[k].Valid() && !promises[k].fulfilled && promises[k].cancelledValue == Functional.LiteralFunction(cancelled)
      invariant forall j, k :: 0 <= j < k < |promises| ==> promises[j] != promises[k] && promises[j].promise != promises[k].promise
    {
      var p := new ScopedPromise(Functional.LiteralFunction(cancelled));
      promises := promises + [p];
    }
    futures := [];
    while |futures| < |promises|
      invariant |futures| <= |promises|
      invariant forall k :: 0 <= k < |futures| ==> futures[k] == promises[k].promise
      modifies {}
    {
      var f := promises[|futures|].GetFuture();
      futures := futures + [f];
    }
  }

  /** The loop of FutureTest.cpp:163-166: the odd promises are set to their
    * index; the others stay pending. */
  method SetOddPromises(promises: seq<ScopedPromise<int>>, futures: seq<SharedState<int>>)
    requires OwnStates(promises, futures)
    requires forall k :: 0 <= k < |promises| ==> !promises[k].fulfilled && futures[k].value.None?
    modifies set k | 0 <= k < |promises| :: promises[k]
    modifies set k | 0 <= k < |futures| :: futures[k]
    ensures OwnStates(promises, futures)
    ensures forall k :: 0 <= k < |promises| ==> promises[k].cancelledValue == old(promises[k].cancelledValue)
    ensures forall k :: 0 <= k < |promises| ==>
      if k % 2 == 1 then promises[k].fulfilled && futures[k].value == Some(k)
      else !promises[k].fulfilled && futures[k].value.None?
  {
    var i := 1;
    while i < |promises|
      invariant 1 <= i <= |promises| + 1 && i % 2 == 1
      invariant OwnStates(promises, futures)
      invariant forall k :: 0 <= k < |promises| ==> promises[k].cancelledValue == old(promises[k].cancelledValue)
      invariant forall k :: 0 <= k < |promises| ==>
        if k % 2 == 1 && k < i then promises[k].fulfilled && futures[k].value == Some(k)
        else !promises[k].fulfilled && futures[k].value.None?
    {
      promises[i].SetValue(i);
      i := i + 2;
    }
  }

  /** Destroying the array of promises (the end of the lambda at
    * FutureTest.cpp:169): each pending promise delivers its cancelled
    * value; the fulfilled ones keep theirs. */
  method DestroyScopedPromises(promises: seq<ScopedPromise<int>>, futures: seq<SharedState<int>>)
    requires OwnStates(promises, futures)
    requires forall k :: 0 <= k < |promises| ==> promises[k].fulfilled || futures[k].value.None?
    modifies set k | 0 <= k < |promises| :: promises[k]
    modifies set k | 0 <= k < |futures| :: futures[k]
    ensures forall k :: 0 <= k < |promises| ==> promises[k].fulfilled
    ensures forall k :: 0 <= k < |promises| ==>
      futures[k].value == if old(promises[k].fulfilled) then old(futures[k].value) else Some(old(promises[k].cancelledValue)())
  {
    var d := 0;
    while d < |promises|
      invariant 0 <= d <= |promises|
      invariant OwnStates(promises, futures)
      invariant forall k :: 0 <= k < d ==> promises[k].fulfilled
      invariant forall k :: 0 <= k < d ==>
        futures[k].value == if old(promises[k].fulfilled) then old(futures[k].value) else Some(old(promises[k].cancelledValue)())
      invariant forall k :: d <= k < |promises| ==>
        && promises[k].fulfilled == old(promises[k].fulfilled)
        && promises[k].cancelledValue == old(promises[k].cancelledValue)
        && futures[k].value == old(futures[k].value)
    {
      promises[d].Destroy();
      d := d + 1;
    }
  }

  /** FutureTest.cpp:145-173 step by step: ten scoped promises cancelling with
    * -1 are created, their futures taken, the odd ones set to their index,
    * and all of them destroyed at the end of the lambda (line 169). The
    * future AggregateFutures returns at line 168 completes once every
    * future has its value, which is then ScopedPromiseTestValue; its value
    * is the FSum fold of them from 0, 20. */
  method AggregateFuturesCanUseScopedPromise() returns (values: seq<int>, r: int)
    ensures values == seq(10, ScopedPromiseTestValue)
    ensures r == 20
  {
    var promises, futures := MakeScopedPromises(10, -1);
    SetOddPromises(promises, futures);
    DestroyScopedPromises(promises, futures);
    values := [];
    while |values| < |futures|
      invariant |values| <= |futures| && values == seq(|values|, ScopedPromiseTestValue)
      modifies {}
    {
      values := values + [futures[|values|].value.value];
    }
    r := AggregateFutures(values, 0, (acc: int, v: int) => Functional.Sum([acc, v]));
    AggregateScopedPromiseSum();
  }

  /** The values of FutureTest.cpp:145-173, summed with FSum from 0, give
    * 20. */
  lemma AggregateScopedPromiseSum()
    ensures AggregateFutures(seq(10, ScopedPromiseTestValue), 0,
                             (acc: int, v: int) => Functional.Sum([acc, v])) == 20
  {
    assert seq(10, ScopedPromiseTestValue) == [-1, 1, -1, 3, -1, 5, -1, 7, -1, 9];
    AggregateSums([-1, 1, -1, 3, -1, 5, -1, 7, -1, 9], 0);
  }
}
