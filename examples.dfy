/** The concrete instances that the Finq test suite checks, restated as
    lemmas about the model. Each query is written the way the C# compiler
    translates it: `from x in f where p select x` is `f.Where(p)` alone, since
    a trailing `select` of the range variable itself after a `where` is
    dropped, and `from x in f from y in g(x) select r` is `SelectMany`. */
module FunqExamples {
  import opened Funq

  // ---------------------------------------------------------------------
  // The argument values the tests use, as C# computes them

  /** C#'s `int` division by two, which truncates toward zero. */
  function Half(x: int): int {
    if x >= 0 then x / 2 else -((-x) / 2)
  }

  function Digit(d: nat): char
    requires d < 10
  {
    "0123456789"[d]
  }

  /** The decimal digits of a natural number, most significant first. */
  function Digits(n: nat): string {
    if n < 10 then [Digit(n)] else Digits(n / 10) + [Digit(n % 10)]
  }

  /** An `int` interpolated into a string (`$"{x}"`). */
  function Decimal(n: int): string {
    if n < 0 then "-" + Digits(-n) else Digits(n)
  }

  /** `n is 42 or -42`. */
  predicate IsAnswer(n: int) {
    n == 42 || n == -42
  }

  predicate IsPositive(x: int) {
    x > 0
  }

  function Framed(x: int): string {
    "==" + Decimal(x) + "=="
  }

  function Dashed(x: int): string {
    "--" + Decimal(x) + "--"
  }

  function Pair(x: int, y: int): (int, int) {
    (x, y)
  }

  // ---------------------------------------------------------------------
  // The tests

  lemma ArgOfReturnExamples()
    ensures ArgOfReturn<int>()(42) == 42
    ensures ArgOfReturnValue<int, int>(42)(-42) == 42
    ensures InvokeUnit(Return(42)) == 42
  {
  }

  /** `from x in Return(4) from y in Return(x / 2) select (x, y)` gives `(4, 2)`. */
  lemma MonadExample()
    ensures InvokeUnit(SelectMany(Return(4), x => Return(Half(x)), Pair)) == (4, 2)
  {
  }

  /** `from n in Arg.Int32() where n is 42 or -42 select n`, defaulted to -1
      in the test: the query is the `Where` of the identity computation. */
  function Answers(): (int -> (bool, int)) {
    Where(ArgOfReturn<int>(), IsAnswer, 0)
  }

  /** The test's theory, for every argument and so for its four `InlineData`
      rows (4242, 42, -42, -4242): an answer comes back unchanged, anything
      else becomes -1. */
  lemma WhereTheory(arg: int)
    ensures Default(Answers(), -1)(arg) == if IsAnswer(arg) then arg else -1
  {
  }

  /** `a.Zip(b)` at 42 for `a = x => $"=={x}=="` and `b = x => $"--{x}--"`. */
  lemma ZipExample()
    ensures Zip(Select(ArgOfReturn<int>(), Framed), Select(ArgOfReturn<int>(), Dashed))(42) == ("==42==", "--42--")
  {
    assert Digits(42) == "42";
    assert Framed(42) == "==42==";
    assert Dashed(42) == "--42--";
    assert Select(ArgOfReturn<int>(), Framed)(42) == Framed(42);
  }

  lemma ApplyExamples()
    ensures Apply(Return(42))() == 42
    ensures ApplyArg(ArgOfReturn<int>(), 42)() == 42
  {
  }

  /** `from x in Arg.Int32() where x > 0 select x`, tried at 42, -42 and 0:
      again the `Where` of the identity computation. */
  function Positive(): (int -> (bool, int)) {
    Where(ArgOfReturn<int>(), IsPositive, 0)
  }

  lemma TryInvokeTheory(arg: int)
    ensures TryInvoke(Positive(), arg) == if arg > 0 then (true, arg) else (false, 0)
  {
  }

  lemma TryInvokeExamples()
    ensures TryInvoke(Positive(), 42) == (true, 42)
    ensures TryInvoke(Positive(), -42) == (false, 0)
    ensures TryInvoke(Positive(), 0) == (false, 0)
  {
  }

  /** The identity over `(int, string)` invoked with 42 and "42"; over a triple
      with any third component (the test uses the current time). */
  lemma InvokeExamples<T(!new)>(time: T)
    ensures Invoke2(ArgOfReturn<(int, string)>(), 42, "42") == (42, "42")
    ensures Invoke3(ArgOfReturn<(int, string, T)>(), 42, "42", time) == (42, "42", time)
  {
  }
}
