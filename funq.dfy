/** The combinator layer of Finq (`Funq` in src/Funq.cs).

    A computation is a function value `A -> R`; an optional computation is a
    computation whose result is a pair `(found, value)`. Every combinator
    builds a new computation out of old ones and never evaluates anything at
    construction time. The C# overloads get distinct names here, since Dafny
    has no overloading. */
module Funq {
  import opened Options

  /** `System.ValueTuple`, the zero-information argument of a parameterless computation. */
  type Unit = ()

  /** The error a computation can raise when it is invoked. */
  datatype Exception = InvalidOperation

  /** The result of invoking a computation that may throw. */
  datatype Outcome<+T> = Returned(value: T) | Threw(error: Exception)

  /** Reads the (found, value) convention as an option; the value of an absent
      result is never looked at. */
  function AsOption<T>(r: (bool, T)): (o: Option<T>)
    ensures o.Some? <==> r.0
    ensures o.Some? ==> o.value == r.1
  {
    if r.0 then Some(r.1) else None
  }

  /** What the combinators return for an absent result: C#'s `default` of
      `(bool, T)`, that is `false` with `zero`, which stands for `default(T)`. */
  ghost predicate IsCanonical<T>(r: (bool, T), zero: T) {
    r.0 || r.1 == zero
  }

  // ---------------------------------------------------------------------
  // Construction

  /** `ArgOf<T>.Return()`: the identity computation, the seed of a query. */
  function ArgOfReturn<T(!new)>(): (f: T -> T)
    ensures forall x :: f(x) == x
  {
    x => x
  }

  /** `ArgOf<T>.Return(result)`: ignores its argument of type `T`. */
  function ArgOfReturnValue<T(!new), R>(result: R): (f: T -> R)
    ensures forall x :: f(x) == result
  {
    _ => result
  }

  /** `Return(value)`: the parameterless computation that yields `value`. */
  function Return<T>(value: T): (f: Unit -> T)
    ensures f(()) == value
  {
    _ => value
  }

  // ---------------------------------------------------------------------
  // Invocation helpers

  /** `Invoke(function, arg1, arg2)`: calls a computation over pairs with the
      two positional arguments packed into the pair. */
  function Invoke2<A1, A2, R>(f: ((A1, A2)) -> R, arg1: A1, arg2: A2): (r: R)
    ensures r == f((arg1, arg2))
  {
    f((arg1, arg2))
  }

  /** `Invoke(function, arg1, arg2, arg3)`: the same for triples. */
  function Invoke3<A1, A2, A3, R>(f: ((A1, A2, A3)) -> R, arg1: A1, arg2: A2, arg3: A3): (r: R)
    ensures r == f((arg1, arg2, arg3))
  {
    f((arg1, arg2, arg3))
  }

  /** `Invoke(function)` for a parameterless computation, whether its result
      is optional or not: calls it with the unit value. */
  function InvokeUnit<R>(f: Unit -> R): (r: R)
    ensures r == f(())
  {
    f(())
  }

  /** `Invoke(function, arg)` for an optional computation: `GetResult` applied
      to `arg`, so an absent result throws. */
  function InvokeOrThrow<A(!new), T>(f: A -> (bool, T), arg: A): (r: Outcome<T>)
    ensures r.Returned? <==> f(arg).0
    ensures r.Returned? ==> r.value == f(arg).1
    ensures r.Threw? ==> r.error == InvalidOperation
  {
    GetResult(f)(arg)
  }

  /** `Invoke(function, arg, default)` for an optional computation: `Default`
      applied to `arg`. */
  function InvokeOrDefault<A(!new), T>(f: A -> (bool, T), arg: A, default: T): (r: T)
    ensures r == AsOption(f(arg)).GetOr(default)
  {
    Default(f, default)(arg)
  }

  /** `Invoke(function, default)` for a parameterless optional computation:
      `InvokeOrDefault` with the unit argument. */
  function InvokeUnitOrDefault<T>(f: Unit -> (bool, T), default: T): (r: T)
    ensures f(()).0 ==> r == f(()).1
    ensures !f(()).0 ==> r == default
  {
    InvokeOrDefault(f, (), default)
  }

  /** `TryInvoke(function, arg, out result)`: the flag that `TryInvoke`
      returns, paired with what it writes to `result`. It never throws, and it
      agrees with the throwing and the defaulting `Invoke`. */
  function TryInvoke<A(!new), T(!new)>(f: A -> (bool, T), arg: A): (r: (bool, T))
    ensures r.0 <==> InvokeOrThrow(f, arg).Returned?
    ensures r.0 ==> r.1 == InvokeOrThrow(f, arg).value
    ensures forall d: T :: InvokeOrDefault(f, arg, d) == if r.0 then r.1 else d
    ensures !r.0 ==> r.1 == f(arg).1
  {
    var (hasValue, result) := f(arg);
    (hasValue, result)
  }

  // ---------------------------------------------------------------------
  // Optional-result elimination

  /** `Match(function, whenSome, whenNone)` with a thunk: `whenSome` of the
      present value, otherwise `whenNone()`, called only on absence. */
  function Match<A(!new), T, R>(f: A -> (bool, T), whenSome: T -> R, whenNone: () -> R): (r: A -> R)
    ensures forall a :: r(a) == AsOption(f(a)).Fold(whenSome, whenNone())
  {
    a => var res := f(a); if res.0 then whenSome(res.1) else whenNone()
  }

  /** `Match(function, whenSome, none)` with a precomputed result for absence:
      the thunk overload with `() => none`. */
  function MatchValue<A(!new), T, R>(f: A -> (bool, T), whenSome: T -> R, none: R): (r: A -> R)
    ensures forall a :: r(a) == AsOption(f(a)).Fold(whenSome, none)
  {
    Match(f, whenSome, () => none)
  }

  /** `Default(function, value)`: the present value, otherwise `value`. */
  function Default<A(!new), T>(f: A -> (bool, T), value: T): (r: A -> T)
    ensures forall a :: r(a) == AsOption(f(a)).GetOr(value)
  {
    MatchValue(f, some => some, value)
  }

  /** `GetResult(function)`: the present value, otherwise the computation
      throws `InvalidOperationException` when invoked (never when built). */
  function GetResult<A(!new), T>(f: A -> (bool, T)): (r: A -> Outcome<T>)
    ensures forall a :: r(a).Returned? <==> f(a).0
    ensures forall a :: r(a).Returned? ==> r(a).value == f(a).1
    ensures forall a :: r(a).Threw? ==> r(a).error == InvalidOperation
  {
    Match(f, some => Returned(some), () => Threw(InvalidOperation))
  }

  // ---------------------------------------------------------------------
  // Functor and monad combinators

  /** `Select(func, selector)`: evaluates `func` once, then `selector`. */
  function Select<A(!new), T, R>(f: A -> T, selector: T -> R): (r: A -> R)
    ensures forall a :: r(a) == selector(f(a))
  {
    a => selector(f(a))
  }

  /** `Select` over an optional computation: maps a present value and
      propagates absence without calling `selector`. `zero` stands for
      `default(R)`, the placeholder of the absent result. */
  function SelectOptional<A(!new), T, R>(f: A -> (bool, T), selector: T -> R, zero: R): (r: A -> (bool, R))
    ensures forall a :: AsOption(r(a)) == AsOption(f(a)).Map(selector)
    ensures forall a :: IsCanonical(r(a), zero)
  {
    a => var res := f(a); if res.0 then (true, selector(res.1)) else (false, zero)
  }

  /** `Where(func, predicate)`: the result of `func` is present exactly when it
      satisfies `keep` (the source's `predicate`). `zero` stands for `default(T)`. */
  function Where<A(!new), T>(f: A -> T, keep: T -> bool, zero: T): (r: A -> (bool, T))
    ensures forall a :: AsOption(r(a)) == if keep(f(a)) then Some(f(a)) else None
    ensures forall a :: IsCanonical(r(a), zero)
  {
    a => var some := f(a); if keep(some) then (true, some) else (false, zero)
  }

  /** `SelectMany(first, second, resultSelector)`: the comprehension bind. The
      result of `first` chooses the second computation, both stages receive the
      same argument, and `resultSelector` combines the two results. */
  function SelectMany<A(!new), T1, T2, R>(first: A -> T1, second: T1 -> (A -> T2),
                                          resultSelector: (T1, T2) -> R): (r: A -> R)
    ensures forall a :: r(a) == resultSelector(first(a), second(first(a))(a))
  {
    a => var x := first(a); resultSelector(x, second(x)(a))
  }

  /** `Zip(first, second)`: both computations on the same argument, paired. */
  function Zip<A(!new), T1, T2>(first: A -> T1, second: A -> T2): (r: A -> (T1, T2))
    ensures forall a :: r(a).0 == first(a) && r(a).1 == second(a)
  {
    a => (first(a), second(a))
  }

  // ---------------------------------------------------------------------
  // Partial application

  /** `Apply(func)` for a parameterless computation: a thunk that invokes it. */
  function Apply<T>(f: Unit -> T): (r: () -> T)
    ensures r() == InvokeUnit(f)
  {
    () => f(())
  }

  /** `Apply(func, arg)`: a thunk that closes over `arg`. */
  function ApplyArg<A, T>(f: A -> T, arg: A): (r: () -> T)
    ensures r() == f(arg)
  {
    () => f(arg)
  }
}
