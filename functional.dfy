/** The small functors of Functional.h. */
module Functional {

  /** TLiteralFunction<L> (Functional.h:22-29): a nullary function
    * returning L. */
  function LiteralFunction<T>(literal: T): (f: () -> T)
    ensures f() == literal
  {
    () => literal
  }

  /** The static_assert of Functional.h:31. */
  lemma LiteralFunctionExample()
    ensures LiteralFunction(42)() == 42
  {
  }

  /** FSum (Functional.h:36-43): the unary left fold `(... + Args)`, so
    * ((a0 + a1) + a2) + ...; a fold over no arguments does not compile, so
    * at least one argument is required. */
  function Sum(args: seq<int>): int
    requires |args| >= 1
  {
    if |args| == 1 then args[0] else Sum(args[..|args| - 1]) + args[|args| - 1]
  }

  /** An independent definition of the sum, folding from the right. */
  function SumFromRight(args: seq<int>): int
  {
    if |args| == 0 then 0 else args[0] + SumFromRight(args[1..])
  }

  /** FSum of one argument is that argument. */
  lemma SumOfOne(x: int)
    ensures Sum([x]) == x
  {
  }

  /** FSum adds up all its arguments, whichever way the additions are
    * grouped. */
  lemma {:induction false} SumIsTotal(args: seq<int>)
    requires |args| >= 1
    ensures Sum(args) == SumFromRight(args)
  {
    if |args| > 1 {
      var init := args[..|args| - 1];
      SumIsTotal(init);
      SumFromRightAppend(init, args[|args| - 1]);
      assert init + [args[|args| - 1]] == args;
    }
  }

  /** Adding an argument at the end adds it to the sum. */
  lemma {:induction false} SumFromRightAppend(s: seq<int>, x: int)
    ensures SumFromRight(s + [x]) == SumFromRight(s) + x
  {
    if |s| > 0 {
      assert (s + [x])[1..] == s[1..] + [x];
      SumFromRightAppend(s[1..], x);
    }
  }

  /** The integral static_asserts of Functional.h:45-47. */
  lemma SumExamples()
    ensures Sum([1]) == 1
    ensures Sum([1, 2]) == 3
    ensures Sum([1, 2, 3]) == 6
  {
    assert [1, 2, 3][..2] == [1, 2];
    assert [1, 2][..1] == [1];
  }
}
