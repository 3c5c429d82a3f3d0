/** Circular-buffer index arithmetic (Container.h), on 32-bit signed
  * integers with the truncating remainder of C++. */
module Container {

  const Int32Min: int := -0x8000_0000
  const Int32Max: int := 0x7fff_ffff

  predicate IsInt32(x: int)
  {
    Int32Min <= x <= Int32Max
  }

  function Abs(x: int): nat
  {
    if x < 0 then -x else x
  }

  /** C++ `a % b` on integers: the remainder of the division truncated
    * toward zero, so it takes the sign of `a`. */
  function CRem(a: int, b: int): (r: int)
    requires b != 0
    ensures Abs(r) < Abs(b)
    ensures a >= 0 ==> r >= 0
    ensures a < 0 ==> r <= 0
  {
    if a >= 0 then a % Abs(b) else -((-a) % Abs(b))
  }

  /** What the source needs of its arguments: `%` is undefined for a zero
    * divisor and overflows for INT32_MIN % -1, and `CollectionNum + Mod`
    * must not overflow (only possible for a negative CollectionNum). */
  predicate CircularIndexDefined(index: int, num: int)
  {
    && IsInt32(index) && IsInt32(num) && num != 0
    && !(index == Int32Min && num == -1)
    && (CRem(index, num) >= 0 || IsInt32(num + CRem(index, num)))
  }

  /** GetCircularBufferIndex (Container.h:24-28). For a positive size the
    * result is the mathematical (Euclidean) remainder, also for negative
    * indices. */
  function GetCircularBufferIndex(index: int, num: int): (r: int)
    requires CircularIndexDefined(index, num)
    ensures IsInt32(r)
    ensures num > 0 ==> 0 <= r < num && r == index % num
  {
    var mod := CRem(index, num);
    RemainderToEuclidean(index, num);
    if mod >= 0 then mod else num + mod
  }

  /** GetNextCircularBufferIndex (Container.h:49-52). */
  function GetNextCircularBufferIndex(index: int, num: int): int
    requires IsInt32(index + 1) && CircularIndexDefined(index + 1, num)
  {
    GetCircularBufferIndex(index + 1, num)
  }

  /** GetPreviousCircularBufferIndex (Container.h:62-65). */
  function GetPreviousCircularBufferIndex(index: int, num: int): int
    requires IsInt32(index - 1) && CircularIndexDefined(index - 1, num)
  {
    GetCircularBufferIndex(index - 1, num)
  }

  // ---------------------------------------------------------------------
  // Properties.

  /** Every int32 index has a circular index for a positive size. */
  lemma DefinedForPositiveSize(index: int, num: int)
    requires IsInt32(index) && 0 < num <= Int32Max
    ensures CircularIndexDefined(index, num)
  {
  }

  /** The circular index of an index already in range is that index. */
  lemma IdentityInRange(index: int, num: int)
    requires 0 <= index < num <= Int32Max
    ensures GetCircularBufferIndex(index, num) == index
  {
    ModOfDecomposition(index, num, 0, index);
  }

  /** Next is (i + 1) mod N and Previous is (i - 1) mod N. */
  lemma NextAndPreviousAreShifts(index: int, num: int)
    requires 0 < num <= Int32Max && Int32Min < index < Int32Max
    ensures GetNextCircularBufferIndex(index, num) == (index + 1) % num
    ensures GetPreviousCircularBufferIndex(index, num) == (index - 1) % num
  {
  }

  /** Previous undoes Next on the indices of a buffer. */
  lemma PreviousOfNext(index: int, num: int)
    requires 0 <= index < num <= Int32Max
    ensures 0 <= GetNextCircularBufferIndex(index, num) < num
    ensures GetPreviousCircularBufferIndex(GetNextCircularBufferIndex(index, num), num) == index
  {
    var next := GetNextCircularBufferIndex(index, num);
    if index + 1 < num {
      ModOfDecomposition(index + 1, num, 0, index + 1);
      assert next == index + 1;
    } else {
      ModOfDecomposition(index + 1, num, 1, 0);
      assert next == 0;
    }
    ModOfDecomposition(next - 1, num, if next == 0 then -1 else 0, index);
  }

  /** Next undoes Previous on the indices of a buffer. */
  lemma NextOfPrevious(index: int, num: int)
    requires 0 <= index < num <= Int32Max
    ensures 0 <= GetPreviousCircularBufferIndex(index, num) < num
    ensures GetNextCircularBufferIndex(GetPreviousCircularBufferIndex(index, num), num) == index
  {
    var previous := GetPreviousCircularBufferIndex(index, num);
    if index > 0 {
      ModOfDecomposition(index - 1, num, 0, index - 1);
      assert previous == index - 1;
    } else {
      ModOfDecomposition(index - 1, num, -1, num - 1);
      assert previous == num - 1;
    }
    ModOfDecomposition(previous + 1, num, if previous + 1 == num then 1 else 0, index);
  }

  /** The static_asserts of Container.h:30-41 and 54-56. */
  lemma DocumentedExamples()
    ensures GetCircularBufferIndex(0, 3) == 0
    ensures GetCircularBufferIndex(1, 3) == 1
    ensures GetCircularBufferIndex(2, 3) == 2
    ensures GetCircularBufferIndex(3, 3) == 0
    ensures GetCircularBufferIndex(4, 3) == 1
    ensures GetCircularBufferIndex(5, 3) == 2
    ensures GetCircularBufferIndex(-1, 3) == 2
    ensures GetCircularBufferIndex(-2, 3) == 1
    ensures GetCircularBufferIndex(-3, 3) == 0
    ensures GetCircularBufferIndex(-4, 3) == 2
    ensures GetCircularBufferIndex(-5, 3) == 1
    ensures GetNextCircularBufferIndex(0, 3) == 1
    ensures GetNextCircularBufferIndex(1, 3) == 2
    ensures GetNextCircularBufferIndex(2, 3) == 0
  {
  }

  // ---------------------------------------------------------------------
  // Arithmetic helpers.

  /** The branch of GetCircularBufferIndex is the Euclidean remainder for a
    * positive size. */
  lemma RemainderToEuclidean(a: int, n: int)
    requires n != 0
    ensures n > 0 ==> (if CRem(a, n) >= 0 then CRem(a, n) else n + CRem(a, n)) == a % n
  {
    if n > 0 {
      if a >= 0 {
        NonNegativeRemainder(a, n);
      } else {
        NegativeRemainder(a, n);
      }
    }
  }

  /** C++ and Euclidean remainders agree on a non-negative dividend. */
  lemma NonNegativeRemainder(a: int, n: int)
    requires a >= 0 && n > 0
    ensures CRem(a, n) == a % n
  {
  }

  /** On a negative dividend the C++ remainder is the Euclidean one, or the
    * Euclidean one minus n. */
  lemma NegativeRemainder(a: int, n: int)
    requires a < 0 && n > 0
    ensures CRem(a, n) >= 0 ==> CRem(a, n) == a % n
    ensures CRem(a, n) < 0 ==> n + CRem(a, n) == a % n
  {
    var q := (-a) / n;
    var m := (-a) % n;
    assert -a == n * q + m;
    if m == 0 {
      assert a == n * (-q) + 0;
      ModOfDecomposition(a, n, -q, 0);
    } else {
      assert a == n * (-q - 1) + (n - m);
      ModOfDecomposition(a, n, -q - 1, n - m);
    }
  }

  /** Euclidean division is unique: a == n * q + r with 0 <= r < n fixes
    * both the quotient and the remainder. */
  lemma ModOfDecomposition(a: int, n: int, q: int, r: int)
    requires n > 0 && 0 <= r < n && a == n * q + r
    ensures a % n == r && a / n == q
  {
    var q0 := a / n;
    var r0 := a % n;
    assert a == n * q0 + r0;
    var d := q - q0;
    assert n * q - n * q0 == n * d;
    assert n * d == r0 - r;
    if d >= 1 {
      MulAtLeast(n, d);
    } else if d <= -1 {
      assert n * (-d) == -(n * d);
      MulAtLeast(n, -d);
    }
  }

  lemma MulAtLeast(n: nat, k: int)
    requires k >= 1
    ensures n * k >= n
  {
  }
}
