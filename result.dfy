/** TResult<V, E> and its TResult<void, E> specialization (Result.h):
  * a value or an error, with the AndThen / OrElse continuations. */
module Results {
  import opened Wrappers

  /** TUnexpected<E> (Result.h:24-80): the wrapper that marks an error. */
  datatype Unexpected<E> = Unexpected(error: E)

  /** TResult<V, E> holds a std::variant<V, TUnexpected<E>>. */
  datatype Result<V, E> = Value(value: V) | Error(unexpected: Unexpected<E>)

  /** The default constructor value-initialises the variant's first
    * alternative, so a default TResult holds a (default) value. */
  function Default<V, E>(defaultValue: V): (r: Result<V, E>)
    ensures HasValue(r) && GetValue(r) == defaultValue
  {
    Value(defaultValue)
  }

  /** Construction from an error (the Unexpect tag or a TUnexpected). */
  function MakeError<V, E>(e: E): (r: Result<V, E>)
    ensures HasError(r) && GetError(r) == e
  {
    Error(Unexpected(e))
  }

  predicate HasValue<V, E>(r: Result<V, E>) { r.Value? }

  predicate HasError<V, E>(r: Result<V, E>) { !HasValue(r) }

  /** std::get on the value alternative: only defined when a value is held. */
  function GetValue<V, E>(r: Result<V, E>): V
    requires HasValue(r)
  {
    r.value
  }

  function GetError<V, E>(r: Result<V, E>): E
    requires HasError(r)
  {
    r.unexpected.error
  }

  /** explicit operator bool */
  predicate ToBool<V, E>(r: Result<V, E>) { HasValue(r) }

  /** AndThen (Result.h:440-456): a value is handed to the continuation,
    * an error is carried over unchanged. */
  function AndThen<V, E, U>(r: Result<V, E>, f: V -> Result<U, E>): (out: Result<U, E>)
    ensures HasValue(r) ==> out == f(GetValue(r))
    ensures HasError(r) ==> HasError(out) && GetError(out) == GetError(r)
  {
    if HasValue(r) then f(GetValue(r)) else Error(Unexpected(GetError(r)))
  }

  /** OrElse (Result.h:474-490): an error is handed to the continuation,
    * a value is carried over unchanged. */
  function OrElse<V, E, F>(r: Result<V, E>, f: E -> Result<V, F>): (out: Result<V, F>)
    ensures HasError(r) ==> out == f(GetError(r))
    ensures HasValue(r) ==> HasValue(out) && GetValue(out) == GetValue(r)
  {
    if HasError(r) then f(GetError(r)) else Value(GetValue(r))
  }

  /** The accessors partition the results: exactly one of HasValue and
    * HasError holds, and operator bool agrees with HasValue. */
  lemma ValueXorError<V, E>(r: Result<V, E>)
    ensures HasValue(r) != HasError(r)
    ensures ToBool(r) == HasValue(r)
  {
  }

  /** A value or an error stored is read back unchanged. */
  lemma ConstructionRoundTrip<V, E>(v: V, e: E)
    ensures GetValue<V, E>(Value(v)) == v
    ensures GetError(MakeError<V, E>(e)) == e
    ensures Error(Unexpected(e)) == MakeError<V, E>(e)
  {
  }

  // The continuations obey the monad laws, with AndThen as bind and the
  // value constructor as unit; OrElse obeys them with the roles swapped.

  lemma AndThenLeftIdentity<V, E, U>(v: V, f: V -> Result<U, E>)
    ensures AndThen(Value(v), f) == f(v)
  {
  }

  lemma AndThenRightIdentity<V, E>(r: Result<V, E>)
    ensures AndThen(r, (v: V) => Value(v)) == r
  {
  }

  lemma AndThenAssociative<V, E, U, W>(r: Result<V, E>, f: V -> Result<U, E>, g: U -> Result<W, E>)
    ensures AndThen(AndThen(r, f), g) == AndThen(r, (v: V) => AndThen(f(v), g))
  {
  }

  lemma OrElseLeftIdentity<V, E, F>(e: E, f: E -> Result<V, F>)
    ensures OrElse(MakeError(e), f) == f(e)
  {
  }

  lemma OrElseRightIdentity<V, E>(r: Result<V, E>)
    ensures OrElse(r, (e: E) => MakeError(e)) == r
  {
  }

  lemma OrElseAssociative<V, E, F, G>(r: Result<V, E>, f: E -> Result<V, F>, g: F -> Result<V, G>)
    ensures OrElse(OrElse(r, f), g) == OrElse(r, (e: E) => OrElse(f(e), g))
  {
  }

  /** A fallback is only consulted on error, a continuation only on value:
    * OrElse after AndThen on an error result is the fallback of the original error. */
  lemma FallbackAfterFailedStep<V, E, U>(e: E, f: V -> Result<U, E>, g: E -> Result<U, E>)
    ensures OrElse(AndThen(MakeError<V, E>(e), f), g) == g(e)
  {
  }

  // -- TResult<void, E> (Result.h:302-429): stores only std::optional<E>.

  datatype VoidResult<E> = VoidResult(error: Option<E>)

  /** A default TResult<void, E> has no error, so it holds a value. */
  function VoidDefault<E>(): (r: VoidResult<E>)
    ensures VoidHasValue(r)
  {
    VoidResult(None)
  }

  function VoidMakeError<E>(e: E): (r: VoidResult<E>)
    ensures VoidHasError(r) && VoidGetError(r) == e
  {
    VoidResult(Some(e))
  }

  predicate VoidHasValue<E>(r: VoidResult<E>) { !r.error.Some? }

  predicate VoidHasError<E>(r: VoidResult<E>) { !VoidHasValue(r) }

  function VoidGetError<E>(r: VoidResult<E>): E
    requires VoidHasError(r)
  {
    r.error.value
  }

  predicate VoidToBool<E>(r: VoidResult<E>) { VoidHasValue(r) }

  /** AndThen on a void result (Result.h:458-472): the continuation takes no
    * argument. */
  function VoidAndThen<E, U>(r: VoidResult<E>, f: () -> Result<U, E>): (out: Result<U, E>)
    ensures VoidHasValue(r) ==> out == f()
    ensures VoidHasError(r) ==> HasError(out) && GetError(out) == VoidGetError(r)
  {
    if VoidHasValue(r) then f() else Error(Unexpected(VoidGetError(r)))
  }

  /** OrElse on a void result (Result.h:492-508): on success the function's
    * result type is built in place from no arguments, i.e. it holds the
    * default value of its value type, passed here as `defaultValue`. */
  function VoidOrElse<E, U, F>(r: VoidResult<E>, f: E -> Result<U, F>, defaultValue: U): (out: Result<U, F>)
    ensures VoidHasError(r) ==> out == f(VoidGetError(r))
    ensures VoidHasValue(r) ==> HasValue(out) && GetValue(out) == defaultValue
  {
    if VoidHasError(r) then f(VoidGetError(r)) else Value(defaultValue)
  }

  lemma VoidValueXorError<E>(r: VoidResult<E>)
    ensures VoidHasValue(r) != VoidHasError(r)
    ensures VoidToBool(r) == VoidHasValue(r)
  {
  }

  /** The void specialization behaves as a TResult whose value carries no
    * information: its accessors agree with those of the corresponding
    * Result<(), E>, and so do its continuations. */
  function AsUnitResult<E>(r: VoidResult<E>): (u: Result<(), E>)
    ensures HasValue(u) == VoidHasValue(r)
    ensures HasError(u) ==> GetError(u) == VoidGetError(r)
  {
    if VoidHasValue(r) then Value(()) else Error(Unexpected(VoidGetError(r)))
  }

  lemma VoidAndThenAgrees<E, U>(r: VoidResult<E>, f: () -> Result<U, E>)
    ensures VoidAndThen(r, f) == AndThen(AsUnitResult(r), (_: ()) => f())
  {
  }
}
