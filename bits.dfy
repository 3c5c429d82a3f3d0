/** Bits::GetLeftmostBit (Bits.h): the leftmost set bit of an integer,
  * found by halving the bit width at each step.
  *
  * Integers are unbounded naturals here; the uint64 operations of the
  * source are written out by repeated halving and doubling, so that every
  * proof stays within linear arithmetic:
  *   x >> n   is ShiftRight(x, n)
  *   x << n   is LowBits(ShiftLeft(x, n), 64)  (bits past bit 63 drop out)
  *   x & 1    is x % 2 */
module Bits {

  const Uint64Bits: nat := 64

  function Pow2(n: nat): (r: nat)
    ensures r >= 1
  {
    if n == 0 then 1 else 2 * Pow2(n - 1)
  }

  /** x >> n: n halvings. */
  function ShiftRight(x: nat, n: nat): nat
  {
    if n == 0 then x else ShiftRight(x / 2, n - 1)
  }

  /** x << n without truncation: n doublings. */
  function ShiftLeft(x: nat, n: nat): nat
  {
    if n == 0 then x else 2 * ShiftLeft(x, n - 1)
  }

  /** The low n bits of x. */
  function LowBits(x: nat, n: nat): nat
  {
    if n == 0 then 0 else 2 * LowBits(x / 2, n - 1) + x % 2
  }

  /** uint64 `Value << Shift`. */
  function ShiftLeft64(x: nat, n: nat): nat
  {
    LowBits(ShiftLeft(x, n), Uint64Bits)
  }

  /** The floor of the base-2 logarithm: the index of the leftmost set bit. */
  function Log2(v: nat): nat
    requires v >= 1
  {
    if v < 2 then 0 else 1 + Log2(v / 2)
  }

  /** The reference definition: the value whose only set bit is v's leftmost one. */
  function Leftmost(v: nat): nat
  {
    if v == 0 then 0 else Pow2(Log2(v))
  }

  /** The template widths GetLeftmostBitImpl is instantiated with: sizeof * 8
    * of an integer type, halved down to 1. */
  predicate IsImplWidth(bits: nat)
  {
    bits == 1 || bits == 2 || bits == 4 || bits == 8 || bits == 16 || bits == 32 || bits == 64
  }

  /** The widths of the integer types GetLeftmostBit is instantiated with. */
  predicate IsIntWidth(width: nat)
  {
    width == 8 || width == 16 || width == 32 || width == 64
  }

  /** Private::GetLeftmostBitImpl<Bits> (Bits.h:13-35). `v` stands for a
    * uint64 value; the function computes on any natural. */
  function LeftmostBitImpl(bits: nat, v: nat): nat
    requires IsImplWidth(bits)
    decreases bits
  {
    if bits == 1 then
      v % 2
    else
      var half := bits / 2;
      var lhs := LeftmostBitImpl(half, ShiftRight(v, half));
      if lhs != 0 then
        ShiftLeft64(lhs, half)
      else
        LeftmostBitImpl(half, ShiftRight(ShiftLeft64(v, half), half))
  }

  /** GetLeftmostBit<IntType> for an unsigned IntType of `width` bits
    * (Bits.h:39-44): the value is widened to uint64, and the result, which
    * fits in `width` bits, is cast back unchanged. The result is the
    * leftmost set bit: a power of two at most the value and more than half
    * of it, and zero exactly for zero. */
  function GetLeftmostBit(width: nat, v: nat): (r: nat)
    requires IsIntWidth(width) && v < Pow2(width)
    ensures r == 0 <==> v == 0
    ensures v > 0 ==> r == Pow2(Log2(v)) && r <= v < 2 * r
    ensures r < Pow2(width)
  {
    ImplIsLeftmost(width, v);
    LowBitsOfSmall(v, width);
    LeftmostBounds(v);
    LeftmostBitImpl(width, v)
  }

  // ---------------------------------------------------------------------
  // Correctness of the halving recursion.

  /** GetLeftmostBitImpl<Bits> reads only the low `bits` bits of its
    * argument and returns their leftmost set bit. Its second recursive call
    * relies on (Value << HalfBits) >> HalfBits keeping the low HalfBits
    * bits, which holds because HalfBits <= 32 and the shifts are on uint64. */
  lemma {:induction false} ImplIsLeftmost(bits: nat, v: nat)
    requires IsImplWidth(bits)
    ensures LeftmostBitImpl(bits, v) == Leftmost(LowBits(v, bits))
    decreases bits
  {
    if bits == 1 {
      assert LowBits(v, 1) == v % 2;
      assert Leftmost(1) == 1;
    } else {
      var half := bits / 2;
      assert half + half == bits;
      ImplIsLeftmost(half, ShiftRight(v, half));
      ImplIsLeftmost(half, ShiftRight(ShiftLeft64(v, half), half));
      Combine(v, half, LeftmostBitImpl(half, ShiftRight(v, half)),
        LeftmostBitImpl(half, ShiftRight(ShiftLeft64(v, half), half)));
    }
  }

  /** One step of the recursion: given what the two recursive calls return,
    * the choice between them yields the leftmost of the low half + half bits. */
  lemma {:induction false} Combine(v: nat, half: nat, high: nat, low: nat)
    requires 1 <= half <= 32
    requires high == Leftmost(LowBits(ShiftRight(v, half), half))
    requires low == Leftmost(LowBits(ShiftRight(ShiftLeft64(v, half), half), half))
    ensures (if high != 0 then ShiftLeft64(high, half) else low) == Leftmost(LowBits(v, half + half))
  {
    var w := LowBits(v, half + half);
    LowBitsBelow(v, half + half);
    HighHalfOfLowBits(v, half, half);
    LeftmostBounds(ShiftRight(w, half));
    if ShiftRight(w, half) != 0 {
      HighBranch(w, half, Uint64Bits);
    } else {
      LowBranch(v, half);
    }
  }

  /** Upper half non-zero: its leftmost bit, shifted back into place, is the
    * leftmost bit of the whole; the shift loses nothing below bit `top`. */
  lemma {:induction false} HighBranch(w: nat, half: nat, top: nat)
    requires half + half <= top && w < Pow2(half + half) && ShiftRight(w, half) != 0
    ensures LowBits(ShiftLeft(Leftmost(ShiftRight(w, half)), half), top) == Leftmost(w)
  {
    var hi := ShiftRight(w, half);
    ShiftRightZero(w, half);
    Log2OfShiftRight(w, half);
    ShiftRightBelow(w, half, half);
    Log2Bounds(hi);
    Pow2Order(half, Log2(hi));
    var k := Log2(hi);
    ShiftLeftPow2(k, half);
    Pow2Order(k + half, top);
    LowBitsOfSmall(Pow2(k + half), top);
  }

  /** Upper half zero: the second recursive call sees the low `half` bits of
    * the value, which are then all of its low `half + half` bits. */
  lemma {:induction false} LowBranch(v: nat, half: nat)
    requires 1 <= half <= 32 && ShiftRight(LowBits(v, half + half), half) == 0
    ensures LowBits(ShiftRight(ShiftLeft64(v, half), half), half) == LowBits(v, half + half)
  {
    var w := LowBits(v, half + half);
    ShiftLeftThenRight(v, half, Uint64Bits - half);
    assert half + (Uint64Bits - half) == Uint64Bits;
    LowBitsOfLowBits(v, Uint64Bits - half, half);
    ShiftRightZero(w, half);
    LowBitsOfSmall(w, half);
    LowBitsOfLowBits(v, half + half, half);
  }

  // ---------------------------------------------------------------------
  // Shifts and low bits, by induction on the shift distance.

  lemma {:induction false} ShiftRightIsSmaller(x: nat, n: nat)
    ensures ShiftRight(x, n) <= x
    decreases n
  {
    if n > 0 {
      ShiftRightIsSmaller(x / 2, n - 1);
    }
  }

  lemma {:induction false} LowBitsBelow(x: nat, n: nat)
    ensures LowBits(x, n) < Pow2(n)
    decreases n
  {
    if n > 0 {
      LowBitsBelow(x / 2, n - 1);
    }
  }

  lemma {:induction false} LowBitsOfSmall(x: nat, n: nat)
    requires x < Pow2(n)
    ensures LowBits(x, n) == x
    decreases n
  {
    if n > 0 {
      LowBitsOfSmall(x / 2, n - 1);
    }
  }

  /** Low bits of low bits: the narrower width wins. */
  lemma {:induction false} LowBitsOfLowBits(x: nat, m: nat, n: nat)
    requires n <= m
    ensures LowBits(LowBits(x, m), n) == LowBits(x, n)
    decreases n
  {
    if n > 0 {
      LowBitsOfLowBits(x / 2, m - 1, n - 1);
    }
  }

  /** (x >> n) restricted to m bits is x's low m + n bits shifted down by n. */
  lemma {:induction false} HighHalfOfLowBits(x: nat, n: nat, m: nat)
    ensures LowBits(ShiftRight(x, n), m) == ShiftRight(LowBits(x, n + m), n)
    decreases n
  {
    if n > 0 {
      HighHalfOfLowBits(x / 2, n - 1, m);
      assert LowBits(x, n + m) / 2 == LowBits(x / 2, n - 1 + m);
    }
  }

  /** x >> n is zero exactly when x < 2^n. */
  lemma {:induction false} ShiftRightZero(x: nat, n: nat)
    ensures ShiftRight(x, n) == 0 <==> x < Pow2(n)
    decreases n
  {
    if n > 0 {
      ShiftRightZero(x / 2, n - 1);
    }
  }

  /** x < 2^(n + m) implies x >> n < 2^m. */
  lemma {:induction false} ShiftRightBelow(x: nat, n: nat, m: nat)
    requires x < Pow2(n + m)
    ensures ShiftRight(x, n) < Pow2(m)
    decreases n
  {
    if n > 0 {
      assert Pow2(n + m) == 2 * Pow2(n - 1 + m);
      ShiftRightBelow(x / 2, n - 1, m);
    }
  }

  /** ((x << n), kept to n + m bits) >> n is the low m bits of x. */
  lemma {:induction false} ShiftLeftThenRight(x: nat, n: nat, m: nat)
    ensures ShiftRight(LowBits(ShiftLeft(x, n), n + m), n) == LowBits(x, m)
    decreases n
  {
    if n > 0 {
      ShiftLeftThenRight(x, n - 1, m);
      var y := ShiftLeft(x, n - 1);
      assert ShiftLeft(x, n) == 2 * y;
      assert LowBits(2 * y, n + m) == 2 * LowBits(y, n - 1 + m);
      assert LowBits(2 * y, n + m) / 2 == LowBits(y, n - 1 + m);
    }
  }

  lemma {:induction false} ShiftLeftPow2(k: nat, n: nat)
    ensures ShiftLeft(Pow2(k), n) == Pow2(k + n)
    decreases n
  {
    if n > 0 {
      ShiftLeftPow2(k, n - 1);
    }
  }

  // ---------------------------------------------------------------------
  // Powers of two and the logarithm.

  lemma {:induction false} Pow2Monotonic(a: nat, b: nat)
    requires a <= b
    ensures Pow2(a) <= Pow2(b)
    decreases b
  {
    if a < b {
      Pow2Monotonic(a, b - 1);
    }
  }

  /** Powers of two are strictly ordered by their exponents. */
  lemma {:induction false} Pow2Order(a: nat, b: nat)
    ensures a < b ==> 2 * Pow2(a) <= Pow2(b)
  {
    if a < b {
      Pow2Monotonic(a + 1, b);
    }
  }

  /** 2^Log2(v) <= v < 2^(Log2(v) + 1) */
  lemma {:induction false} Log2Bounds(v: nat)
    requires v >= 1
    ensures Pow2(Log2(v)) <= v < 2 * Pow2(Log2(v))
    decreases v
  {
    if v >= 2 {
      Log2Bounds(v / 2);
    }
  }

  /** The logarithm is determined by those bounds. */
  lemma {:induction false} Log2Unique(v: nat, k: nat)
    requires Pow2(k) <= v < 2 * Pow2(k)
    ensures Log2(v) == k
  {
    Log2Bounds(v);
    Pow2Order(Log2(v), k);
    Pow2Order(k, Log2(v));
  }

  lemma {:induction false} LeftmostBounds(v: nat)
    ensures v == 0 <==> Leftmost(v) == 0
    ensures v > 0 ==> Leftmost(v) <= v < 2 * Leftmost(v)
  {
    if v > 0 {
      Log2Bounds(v);
    }
  }

  /** Shifting right by n lowers the logarithm by n, while something is left. */
  lemma {:induction false} Log2OfShiftRight(w: nat, n: nat)
    requires ShiftRight(w, n) != 0
    ensures w >= 1 && Log2(w) == Log2(ShiftRight(w, n)) + n
    decreases n
  {
    ShiftRightIsSmaller(w, n);
    if n > 0 {
      ShiftRightZero(w / 2, n - 1);
      Log2OfShiftRight(w / 2, n - 1);
    }
  }

  // ---------------------------------------------------------------------
  // Properties of GetLeftmostBit.

  /** The documented example: 0b00010101 gives 0b00010000. */
  lemma DocumentedExample()
    ensures GetLeftmostBit(8, 21) == 16
  {
    Log2Unique(21, 4);
  }

  /** The leftmost bit is one of the value's set bits. */
  lemma {:induction false} LeftmostIsSetBit(width: nat, v: nat)
    requires IsIntWidth(width) && 0 < v < Pow2(width)
    ensures ShiftRight(v, Log2(v)) % 2 == 1
  {
    Log2Bounds(v);
    ShiftRightZero(v, Log2(v) + 1);
    ShiftRightZero(v, Log2(v));
    ShiftRightStep(v, Log2(v));
  }

  lemma {:induction false} ShiftRightStep(x: nat, n: nat)
    ensures ShiftRight(x, n + 1) == ShiftRight(x, n) / 2
    decreases n
  {
    if n > 0 {
      ShiftRightStep(x / 2, n - 1);
    }
  }

  /** Taking the leftmost bit twice changes nothing. */
  lemma {:induction false} LeftmostIdempotent(width: nat, v: nat)
    requires IsIntWidth(width) && v < Pow2(width)
    ensures GetLeftmostBit(width, GetLeftmostBit(width, v)) == GetLeftmostBit(width, v)
  {
    var r := GetLeftmostBit(width, v);
    if v > 0 {
      Log2Unique(r, Log2(v));
    }
  }
}
