/** Laws of the Funq combinators.

    Dafny does not identify two function values that agree at every argument,
    so the laws compare computations pointwise: `Same(f, g)` says that `f` and
    `g` give equal results for every argument, and `SameOptional(f, g)` says
    that two optional computations agree on presence and on every present value
    (the placeholder of an absent result is not compared). */
module FunqLaws {
  import opened Options
  import opened Funq

  ghost predicate Same<A(!new), R>(f: A -> R, g: A -> R) {
    forall a :: f(a) == g(a)
  }

  ghost predicate SameOptional<A(!new), T>(f: A -> (bool, T), g: A -> (bool, T)) {
    forall a :: AsOption(f(a)) == AsOption(g(a))
  }

  // ---------------------------------------------------------------------
  // Select is a functor map

  /** Mapping with the identity selector changes nothing. */
  lemma SelectIdentity<A(!new), T>(f: A -> T)
    ensures Same(Select(f, x => x), f)
  {
  }

  /** Two successive maps are one map with the composed selector. */
  lemma SelectComposition<A(!new), T, U, R>(f: A -> T, g: T -> U, h: U -> R)
    ensures Same(Select(Select(f, g), h), Select(f, x => h(g(x))))
  {
  }

  /** Starting a query from `ArgOf<T>.Return()` and mapping gives the selector itself. */
  lemma SelectFromArg<T(!new), R>(selector: T -> R)
    ensures Same(Select(ArgOfReturn(), selector), selector)
  {
  }

  /** `Select` respects pointwise equality of the computation it maps. */
  lemma SelectCongruence<A(!new), T, R>(f: A -> T, g: A -> T, selector: T -> R)
    requires Same(f, g)
    ensures Same(Select(f, selector), Select(g, selector))
  {
  }

  // ---------------------------------------------------------------------
  // Optional Select is a functor map over optional computations

  lemma SelectOptionalIdentity<A(!new), T>(f: A -> (bool, T), zero: T)
    ensures SameOptional(SelectOptional(f, x => x, zero), f)
  {
  }

  lemma SelectOptionalComposition<A(!new), T, U, R>(f: A -> (bool, T), g: T -> U, h: U -> R, zeroU: U, zeroR: R)
    ensures Same(SelectOptional(SelectOptional(f, g, zeroU), h, zeroR), SelectOptional(f, x => h(g(x)), zeroR))
  {
  }

  /** An absent result stays absent, with the placeholder, whatever the selector. */
  lemma SelectOptionalAbsent<A(!new), T, R>(f: A -> (bool, T), selector: T -> R, zero: R, a: A)
    requires !f(a).0
    ensures SelectOptional(f, selector, zero)(a) == (false, zero)
  {
  }

  // ---------------------------------------------------------------------
  // Where

  /** Filtering then defaulting: the computed value when it passes, else the default. */
  lemma WhereThenDefault<A(!new), T>(f: A -> T, keep: T -> bool, zero: T, d: T)
    ensures Same(Default(Where(f, keep, zero), d), a => if keep(f(a)) then f(a) else d)
  {
  }

  /** The query `from x in f where keep select selector(x)`. */
  lemma WhereThenSelect<A(!new), T, R>(f: A -> T, keep: T -> bool, selector: T -> R, zeroT: T, zeroR: R)
    ensures forall a :: SelectOptional(Where(f, keep, zeroT), selector, zeroR)(a)
                        == if keep(f(a)) then (true, selector(f(a))) else (false, zeroR)
  {
  }

  /** `Where` reports a present result at every argument exactly when the
      predicate holds of every result of the filtered computation. */
  lemma WherePresentEverywhere<A(!new), T>(f: A -> T, keep: T -> bool, zero: T)
    ensures (forall a :: Where(f, keep, zero)(a).0) <==> (forall a :: keep(f(a)))
  {
    if forall a :: Where(f, keep, zero)(a).0 {
      forall a ensures keep(f(a)) {
        assert Where(f, keep, zero)(a).0;
      }
    }
  }

  /** Defaulting a filter gives back the filtered computation exactly when
      every rejected result happens to equal the default. */
  lemma WhereThenDefaultIsSource<A(!new), T>(f: A -> T, keep: T -> bool, zero: T, d: T)
    ensures Same(Default(Where(f, keep, zero), d), f) <==> (forall a :: keep(f(a)) || f(a) == d)
  {
  }

  /** A filter that keeps everything never reports absence. */
  lemma WhereAll<A(!new), T>(f: A -> T, zero: T)
    ensures Same(Where(f, _ => true, zero), Select(f, x => (true, x)))
  {
  }

  // ---------------------------------------------------------------------
  // Elimination never reads the placeholder of an absent result

  lemma MatchOverloadsAgree<A(!new), T, R>(f: A -> (bool, T), whenSome: T -> R, none: R)
    ensures Same(MatchValue(f, whenSome, none), Match(f, whenSome, () => none))
  {
  }

  /** The computation built by `GetResult` throws for some argument exactly
      when the optional computation is absent for some argument. */
  lemma GetResultThrowsOnlyOnAbsence<A(!new), T>(f: A -> (bool, T))
    ensures (exists a :: GetResult(f)(a).Threw?) <==> (exists a :: !f(a).0)
  {
    if a :| !f(a).0 {
      assert GetResult(f)(a).Threw?;
    }
  }

  /** Optional `Select` is present everywhere exactly when its source is. */
  lemma SelectOptionalPresentEverywhere<A(!new), T, R>(f: A -> (bool, T), selector: T -> R, zero: R)
    ensures (forall a :: SelectOptional(f, selector, zero)(a).0) <==> (forall a :: f(a).0)
  {
    if forall a :: SelectOptional(f, selector, zero)(a).0 {
      forall a ensures f(a).0 {
        assert SelectOptional(f, selector, zero)(a).0;
      }
    }
  }

  lemma OptionalCongruence<A(!new), T, R>(f: A -> (bool, T), g: A -> (bool, T),
                                          whenSome: T -> R, whenNone: () -> R, d: T, zero: R)
    requires SameOptional(f, g)
    ensures Same(Match(f, whenSome, whenNone), Match(g, whenSome, whenNone))
    ensures Same(Default(f, d), Default(g, d))
    ensures Same(GetResult(f), GetResult(g))
    ensures Same(SelectOptional(f, whenSome, zero), SelectOptional(g, whenSome, zero))
  {
  }

  // ---------------------------------------------------------------------
  // SelectMany is a (reader) monad bind

  lemma SelectManyLeftIdentity<A(!new), T, R>(x: T, k: T -> (A -> R))
    ensures Same(SelectMany(ArgOfReturnValue(x), k, (_, y) => y), k(x))
  {
  }

  lemma SelectManyRightIdentity<A(!new), T>(m: A -> T)
    ensures Same(SelectMany(m, x => ArgOfReturnValue(x), (_, y) => y), m)
  {
  }

  lemma SelectManyAssociative<A(!new), T, U, V>(m: A -> T, k: T -> (A -> U), l: U -> (A -> V))
    ensures Same(SelectMany(SelectMany(m, k, (_, y) => y), l, (_, z) => z),
                 SelectMany(m, x => SelectMany(k(x), l, (_, z) => z), (_, z) => z))
  {
  }

  /** When the second stage does not depend on the first result, bind is zip. */
  lemma SelectManyIndependentIsZip<A(!new), T1, T2, R>(first: A -> T1, second: A -> T2, resultSelector: (T1, T2) -> R)
    ensures Same(SelectMany(first, _ => second, resultSelector),
                 Select(Zip(first, second), (p: (T1, T2)) => resultSelector(p.0, p.1)))
  {
  }

  /** `SelectMany` respects pointwise equality of both stages. */
  lemma SelectManyCongruence<A(!new), T1(!new), T2, R>(first: A -> T1, first': A -> T1,
                                                 second: T1 -> (A -> T2), second': T1 -> (A -> T2),
                                                 resultSelector: (T1, T2) -> R)
    requires Same(first, first')
    requires forall x :: Same(second(x), second'(x))
    ensures Same(SelectMany(first, second, resultSelector), SelectMany(first', second', resultSelector))
  {
  }

  // ---------------------------------------------------------------------
  // Zip pairs two computations on one argument

  lemma ZipProjections<A(!new), T1, T2>(first: A -> T1, second: A -> T2)
    ensures Same(Select(Zip(first, second), (p: (T1, T2)) => p.0), first)
    ensures Same(Select(Zip(first, second), (p: (T1, T2)) => p.1), second)
  {
  }

  lemma ZipOfProjections<A(!new), T1, T2>(c: A -> (T1, T2))
    ensures Same(Zip(Select(c, (p: (T1, T2)) => p.0), Select(c, (p: (T1, T2)) => p.1)), c)
  {
  }

  lemma ZipNatural<A(!new), T1, T2, R1, R2>(first: A -> T1, second: A -> T2, g: T1 -> R1, h: T2 -> R2)
    ensures Same(Zip(Select(first, g), Select(second, h)), Select(Zip(first, second), (p: (T1, T2)) => (g(p.0), h(p.1))))
  {
  }

  // ---------------------------------------------------------------------
  // Invocation helpers only repackage

  /** Invoking a parameterless computation built by `Return` gives back its value. */
  lemma InvokeUnitOfReturn<T>(value: T)
    ensures InvokeUnit(Return(value)) == value
    ensures Apply(Return(value))() == value
  {
  }

  /** Positional invocation loses nothing: any pair can be passed as its two components. */
  lemma Invoke2Uncurries<A1, A2, R>(f: ((A1, A2)) -> R, p: (A1, A2))
    ensures Invoke2(f, p.0, p.1) == f(p)
  {
  }

  lemma Invoke3Uncurries<A1, A2, A3, R>(f: ((A1, A2, A3)) -> R, t: (A1, A2, A3))
    ensures Invoke3(f, t.0, t.1, t.2) == f(t)
  {
  }

  /** `Apply(func, arg)` is the thunk of the constant computation `arg` mapped by `func`. */
  lemma ApplyArgIsReturnThenSelect<A, T>(f: A -> T, arg: A)
    ensures ApplyArg(f, arg)() == Apply(Select(Return(arg), f))()
  {
  }
}
