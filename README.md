# Finq's `Funq` combinators in Dafny

Finq treats a computation as a function value `Func<TArg, T>`. An optional
computation is a `Func<TArg, (bool, T)>`: the flag says whether a value was
found. The `Funq` static class (src/Funq.cs) builds new computations from old
ones. It has constructors (`ArgOf<T>.Return`, `Return`), LINQ query operators
(`Select`, `SelectMany`, `Zip`, `Where`, and `Select` over optional results),
eliminators for optional results (`Match`, `Default`, `GetResult`), and
invocation helpers (`Invoke`, `TryInvoke`, `Apply`).

This project models that class. It has four modules:

- `Options` (options.dfy): an `Option` sum type. Optional results are read
  through it, so the placeholder in an absent result never has to be mentioned.
- `Funq` (funq.dfy): each combinator as a Dafny function over total arrows
  `A -> R`. The C# overloads get distinct names, since Dafny has no overloading.
  Several contracts state the combinator's meaning through the `Option` reading
  (`AsOption`). `GetResult`'s `InvalidOperationException` becomes the `Threw`
  case of an `Outcome` datatype. `GetResult`, `Default` and the constant form of
  `Match` are defined through `Match`, as in the source.
- `FunqLaws` (laws.dfy): the laws, stated pointwise because Dafny does not treat
  two function values that agree on every argument as equal. `Same(f, g)` means
  that two computations agree on every argument. `SameOptional(f, g)` means that
  two optional computations agree on presence and on every present value. The
  laws are:
  - the functor laws of both `Select`s;
  - the reader-monad laws of `SelectMany`;
  - zip pairing;
  - filter-then-default;
  - the fact that no eliminator reads the placeholder of an absent result;
  - the fact that the invocation helpers only repackage their arguments.
- `FunqExamples` (examples.dfy): the concrete cases of tests/FunqTests.cs.
  Each query is written as the C# compiler translates it. A trailing
  `select x` of the range variable after a `where` is dropped, so
  `from x in f where p select x` is `f.Where(p)` alone.
  `from x in f from y in g(x) select r` is `SelectMany`.

C#'s `default` of `(bool, T)` is `(false, default(T))`. Dafny has no
`default(T)`, so `Where` and the optional `Select` take the placeholder as an
explicit parameter `zero`.

## Model

| member | source | states |
|---|---|---|
| `Funq.ArgOfReturn` | src/Funq.cs:42 | `ArgOf<T>.Return()` returns its argument unchanged |
| `Funq.ArgOfReturnValue` | src/Funq.cs:43 | `ArgOf<T>.Return(result)` yields `result` whatever its argument |
| `Funq.Return` | src/Funq.cs:47 | `Return(value)` yields `value` on the unit argument |
| `Funq.Invoke2` | src/Funq.cs:49-55 | `Invoke(f, arg1, arg2)` is `f` applied to the pair `(arg1, arg2)`; `FunqLaws.Invoke2Uncurries` gives the converse for every pair |
| `FunqLaws.Invoke2Uncurries` | src/Funq.cs:49-55 | invoking with two positional arguments is calling the computation on their pair, for every pair |
| `Funq.Invoke3` | src/Funq.cs:57-63 | `Invoke(f, arg1, arg2, arg3)` is `f` applied to the triple `(arg1, arg2, arg3)`; `FunqLaws.Invoke3Uncurries` gives the converse for every triple |
| `FunqLaws.Invoke3Uncurries` | src/Funq.cs:57-63 | the same for three positional arguments and triples |
| `Funq.InvokeUnit` | src/Funq.cs:65-77 | `Invoke(f)` on a parameterless computation is `f` applied to the unit value; with `Return` it gives the value back (`FunqLaws.InvokeUnitOfReturn`) |
| `FunqLaws.InvokeUnitOfReturn` | src/Funq.cs:65-77 | invoking a parameterless computation built by `Return(value)`, directly or through `Apply`, gives `value` |
| `Funq.InvokeUnitOrDefault` | src/Funq.cs:79-80 | a parameterless optional computation invoked with a default gives its value when found, otherwise the default |
| `Funq.InvokeOrThrow` | src/Funq.cs:82-83 | `Invoke(f, arg)` returns the value exactly when `f(arg)` is found, otherwise throws `InvalidOperation` |
| `Funq.InvokeOrDefault` | src/Funq.cs:85-86 | `Invoke(f, arg, d)` is the found value of `f(arg)`, or `d` when absent |
| `Funq.TryInvoke` | src/Funq.cs:88-95 | `TryInvoke` never throws; its flag is true exactly when the throwing `Invoke` returns, and then its value is that result; for every default `d` the defaulting `Invoke` agrees with it |
| `Funq.Default` | src/Funq.cs:97-98 | `Default(f, v)` gives the present value, otherwise `v` |
| `Funq.GetResult` | src/Funq.cs:100-101 | `GetResult(f)` returns exactly when `f` finds a value, and returns that value; otherwise it throws `InvalidOperation` |
| `FunqLaws.GetResultThrowsOnlyOnAbsence` | src/Funq.cs:100-101 | `GetResult(f)` throws for some argument if and only if `f` is absent for some argument |
| `Funq.MatchValue` | src/Funq.cs:103-106 | `Match` with a constant for absence folds the optional result: `whenSome(v)` when present, the constant otherwise |
| `FunqLaws.MatchOverloadsAgree` | src/Funq.cs:103-106 | the constant overload of `Match` agrees with the thunk overload given `() => none` at every argument |
| `Funq.Match` | src/Funq.cs:108-115 | `Match` with a thunk gives `whenSome(v)` when the result is present, otherwise `whenNone()` |
| `FunqLaws.OptionalCongruence` | src/Funq.cs:97-115 | two optional computations that agree on presence and present values give equal results under `Match`, `Default`, `GetResult` and the optional `Select`, so the placeholder of an absent result is never read |
| `Funq.Select` | src/Funq.cs:117-123 | `Select(f, s)` gives `s(f(a))` at every argument `a`; it obeys the functor laws `FunqLaws.SelectIdentity` and `FunqLaws.SelectComposition`, and is a congruence (`FunqLaws.SelectCongruence`) |
| `FunqLaws.SelectIdentity` | src/Funq.cs:117-123 | `Select(f, x => x)` agrees with `f` at every argument |
| `FunqLaws.SelectComposition` | src/Funq.cs:117-123 | `Select(Select(f, g), h)` agrees with `Select(f, x => h(g(x)))` at every argument |
| `FunqLaws.SelectFromArg` | src/Funq.cs:117-123 | mapping the identity seed `ArgOf<T>.Return()` gives the selector itself |
| `FunqLaws.SelectCongruence` | src/Funq.cs:117-123 | `Select` maps computations that agree everywhere to computations that agree everywhere |
| `Funq.Apply` | src/Funq.cs:133-138 | the thunk from `Apply(f)` yields what invoking `f` with the unit argument yields |
| `Funq.ApplyArg` | src/Funq.cs:140-145 | the thunk from `Apply(f, arg)` yields `f(arg)` |
| `FunqLaws.ApplyArgIsReturnThenSelect` | src/Funq.cs:140-145 | the thunk from `Apply(f, arg)` yields the same as `Apply` of the constant `arg` mapped by `f` |
| `Funq.SelectOptional` | src/Funq.cs:168-175 | the optional `Select`, read as an option, is `Option.Map` of the source's option; an absent result carries the placeholder |
| `FunqLaws.SelectOptionalIdentity` | src/Funq.cs:168-175 | the optional `Select` with the identity selector agrees with its source on presence and present values |
| `FunqLaws.SelectOptionalComposition` | src/Funq.cs:168-175 | two optional `Select`s agree, at every argument and including the placeholder, with one optional `Select` that uses the composed selector |
| `FunqLaws.SelectOptionalAbsent` | src/Funq.cs:168-175 | on an absent result the optional `Select` yields `(false, zero)` whatever the selector |
| `FunqLaws.SelectOptionalPresentEverywhere` | src/Funq.cs:168-175 | the optional `Select` is present at every argument if and only if its source is |
| `Funq.Where` | src/Funq.cs:177-183 | `Where(f, p)`, read as an option, is `Some(f(a))` exactly when `p(f(a))` holds and `None` otherwise; an absent result carries the placeholder |
| `FunqLaws.WherePresentEverywhere` | src/Funq.cs:177-183 | `Where(f, p)` is present at every argument if and only if `p` holds of every result of `f` |
| `FunqLaws.WhereThenDefault` | src/Funq.cs:177-183 | `Default(Where(f, p), d)` agrees everywhere with `a => if p(f(a)) then f(a) else d` |
| `FunqLaws.WhereThenDefaultIsSource` | src/Funq.cs:177-183 | `Default(Where(f, p), d)` agrees with `f` everywhere if and only if every result of `f` that `p` rejects equals `d` |
| `FunqLaws.WhereThenSelect` | src/Funq.cs:168-183 | `from x in f where p select s(x)` is `(true, s(f(a)))` when `p(f(a))` holds and `(false, zero)` otherwise |
| `FunqLaws.WhereAll` | src/Funq.cs:177-183 | a filter that accepts everything agrees everywhere with pairing each result with `true` |
| `Funq.SelectMany` | src/Funq.cs:185-199 | at every argument `a`, `SelectMany(first, second, r)` gives `r(x, second(x)(a))` with `x = first(a)`: the first result chooses the second stage, and both stages receive `a`; the reader-monad laws `FunqLaws.SelectManyLeftIdentity`, `FunqLaws.SelectManyRightIdentity` and `FunqLaws.SelectManyAssociative` follow |
| `FunqLaws.SelectManyLeftIdentity` | src/Funq.cs:185-199 | binding a constant computation `x` to `k`, keeping the second result, agrees everywhere with `k(x)` |
| `FunqLaws.SelectManyRightIdentity` | src/Funq.cs:185-199 | binding `m` to the constant computations agrees everywhere with `m` |
| `FunqLaws.SelectManyAssociative` | src/Funq.cs:185-199 | nested binds agree everywhere whichever way they are grouped, since every stage receives the same original argument |
| `FunqLaws.SelectManyIndependentIsZip` | src/Funq.cs:185-208 | when the second stage does not depend on the first result, `SelectMany` agrees everywhere with mapping `resultSelector` over `Zip` |
| `FunqLaws.SelectManyCongruence` | src/Funq.cs:185-199 | `SelectMany` maps stages that agree everywhere to computations that agree everywhere |
| `Funq.Zip` | src/Funq.cs:201-208 | at every argument, the first component of `Zip(a, b)` is `a`'s result and the second is `b`'s; `FunqLaws.ZipProjections`, `FunqLaws.ZipOfProjections` and `FunqLaws.ZipNatural` make it the pairing of computations |
| `FunqLaws.ZipProjections` | src/Funq.cs:201-208 | the two projections of `Zip(a, b)` agree everywhere with `a` and with `b` |
| `FunqLaws.ZipOfProjections` | src/Funq.cs:201-208 | zipping the two projections of a pair-valued computation gives that computation back |
| `FunqLaws.ZipNatural` | src/Funq.cs:201-208 | mapping each side before zipping agrees everywhere with mapping the pair after zipping |
| `FunqExamples.ArgOfReturnExamples` | tests/FunqTests.cs:9-34 | `ArgOf<int>.Return()(42)` is 42, `ArgOf<int>.Return(42)(-42)` is 42, and `Return(42).Invoke()` is 42 |
| `FunqExamples.MonadExample` | tests/FunqTests.cs:36-46 | `from x in Return(4) from y in Return(x / 2) select (x, y)` invoked gives `(4, 2)` |
| `FunqExamples.WhereTheory` | tests/FunqTests.cs:48-62 | the filter `n is 42 or -42` defaulted to -1 returns an answer unchanged and -1 otherwise, which covers 4242, 42, -42 and -4242 |
| `FunqExamples.ZipExample` | tests/FunqTests.cs:64-75 | zipping the two formatting selectors at 42 gives `("==42==", "--42--")` |
| `FunqExamples.ApplyExamples` | tests/FunqTests.cs:77-91 | `Return(42).Apply()()` and `Arg.Int32().Apply(42)()` are 42 |
| `FunqExamples.TryInvokeTheory` | tests/FunqTests.cs:109-124 | `TryInvoke` of the positive filter gives `(true, arg)` for a positive argument and `(false, 0)` otherwise |
| `FunqExamples.TryInvokeExamples` | tests/FunqTests.cs:109-124 | the three cases of the test: 42 gives `(true, 42)`, -42 and 0 give `(false, 0)` |
| `FunqExamples.InvokeExamples` | tests/FunqTests.cs:126-145 | the identity over `(int, string)` invoked with 42 and "42" gives `(42, "42")`, and likewise for triples |

## Left out

- The asynchronous `Select` over `Task<T>` (src/Funq.cs:125-131) is not modelled: it depends on awaiting and scheduling.
- `AsObject` and `Cast<T>` (src/Funq.cs:154-166) are not modelled: they rely on the CLR's runtime type test and `InvalidCastException`. The two `Cast` tests are left out with them.
- `Ignore` (src/Funq.cs:147-152) is not modelled: it only produces a side-effecting `Action` that discards the result.
- The per-type `Arg` constructors and the `IArg` singleton (src/Funq.cs:11-37) are not modelled: each constructor is the generic `ArgOf<T>.Return()` at a fixed CLR type, and that generic form is modelled once.
- The `ArgumentNullException.ThrowIfNull` guards are not modelled: Dafny function values cannot be null.
- Evaluation order, laziness and evaluation counts are not modelled. Everything here is pure, so it cannot be observed that `whenNone` runs only on absence, or that `func` runs once per invocation. Exceptions thrown by user-supplied selectors are not modelled either.
- `Funq.InvokeUnit`: the two parameterless `Invoke` overloads (src/Funq.cs:65-77) are one generic function here. The optional one is the plain one with the result type `(bool, T)`.
- `Funq.Where`, `Funq.SelectOptional`: `default(T)` is the explicit parameter `zero`, because Dafny has no default value per type. The contracts say that an absent result carries `zero`, not that `zero` is the CLR's default.
- C#'s 32-bit `int` is an unbounded `int` in the examples. Every test value is far from the bounds. `Half` writes out C#'s truncating division.
- A general `Invoke(f, arg)` on a plain computation is not part of `Funq`. The tests' `f.Default(-1).Invoke(arg)` calls the delegate's own `Invoke` method, which is plain application here.
