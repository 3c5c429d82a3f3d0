/** TMask<FlagType> (Mask.h): a mask of enum flags stored in the enum's
  * underlying integer type, kept free of bits above the largest flag.
  *
  * The flag enum of the tests declares no underlying type, so the storage
  * type MaskType is a 32-bit int, modelled as bv32. TMaxFlag<FlagType>::Value
  * is a uint8 (bv8); it is a parameter of every operation that sanitizes,
  * since in the source it is a compile-time property of the flag type.
  *
  * The operations are plain bit-vector expressions; what they mean is
  * stated by the lemmas after them. */
module Masks {
  import Bits

  type MaskType = bv32

  datatype Mask = Mask(value: MaskType)

  /** MaxSanitary of Sanitize (Mask.h:42-46): maxFlag with every bit below
    * its leftmost bit also set. `Bits::GetLeftmostBit(MaxFlagV)` is
    * computed on the uint8 by LeftmostBv8, which LeftmostAgrees proves equal
    * to Bits.GetLeftmostBit. The uint8 operands are promoted to int, so for
    * maxFlag == 0 the subtraction gives -1 and every bit is kept. */
  function MaxSanitary(maxFlag: bv8): MaskType
  {
    (maxFlag as MaskType) | ((LeftmostBv8(maxFlag) as MaskType) - 1)
  }

  /** TMask::Sanitize (Mask.h:39-49). */
  function Sanitize(maxFlag: bv8, v: MaskType): MaskType
  {
    v & MaxSanitary(maxFlag)
  }

  /** A mask whose value has no bit above the maximum flag. */
  predicate IsSanitary(maxFlag: bv8, m: Mask)
  {
    Sanitize(maxFlag, m.value) == m.value
  }

  /** The default constructor (Mask.h:51, 141). */
  function Empty(): Mask
  {
    Mask(0)
  }

  /** The implicit flag constructor (Mask.h:53-55): the flag's value,
    * unsanitized. */
  function FromFlag(flag: MaskType): Mask
  {
    Mask(flag)
  }

  /** The explicit integer constructor (Mask.h:57-63). */
  function FromInt(maxFlag: bv8, v: MaskType): Mask
  {
    Mask(Sanitize(maxFlag, v))
  }

  /** The constructor's ensureMsgf fires (Mask.h:59-62). */
  predicate FromIntWarns(maxFlag: bv8, v: MaskType)
  {
    Sanitize(maxFlag, v) != v
  }

  /** operator bool (Mask.h:88-91). */
  predicate ToBool(m: Mask)
  {
    m.value != 0
  }

  /** operator~ (Mask.h:103-106). */
  function Not(maxFlag: bv8, m: Mask): Mask
  {
    FromInt(maxFlag, Sanitize(maxFlag, !m.value))
  }

  /** operator| (Mask.h:108-111). */
  function Or(maxFlag: bv8, a: Mask, b: Mask): Mask
  {
    FromInt(maxFlag, a.value | b.value)
  }

  /** operator& (Mask.h:113-116). */
  function And(maxFlag: bv8, a: Mask, b: Mask): Mask
  {
    FromInt(maxFlag, a.value & b.value)
  }

  /** TMask | FlagType (Mask.h:120-123). */
  function OrFlag(maxFlag: bv8, m: Mask, flag: MaskType): Mask
  {
    Or(maxFlag, m, FromFlag(flag))
  }

  /** FlagType | TMask (Mask.h:125-128). */
  function FlagOr(maxFlag: bv8, flag: MaskType, m: Mask): Mask
  {
    OrFlag(maxFlag, m, flag)
  }

  /** TMask & FlagType (Mask.h:130-133). */
  function AndFlag(maxFlag: bv8, m: Mask, flag: MaskType): Mask
  {
    And(maxFlag, m, FromFlag(flag))
  }

  /** FlagType & TMask (Mask.h:135-138). */
  function FlagAnd(maxFlag: bv8, flag: MaskType, m: Mask): Mask
  {
    AndFlag(maxFlag, m, flag)
  }

  /** HasAny (Mask.h:65-68). */
  predicate HasAny(maxFlag: bv8, m: Mask, other: Mask)
  {
    And(maxFlag, m, other) != FromInt(maxFlag, 0)
  }

  /** HasAll (Mask.h:70-73). */
  predicate HasAll(maxFlag: bv8, m: Mask, other: Mask)
  {
    And(maxFlag, m, other) == other
  }

  /** GetCleared (Mask.h:76-79). */
  function GetCleared(maxFlag: bv8, m: Mask, other: Mask): Mask
  {
    And(maxFlag, m, Not(maxFlag, other))
  }

  // ---------------------------------------------------------------------
  // Sanitize and the constructors.

  /** Sanitize keeps every bit when the maximum flag is zero, and otherwise
    * exactly the bits below twice its leftmost bit, that is, the bits at or
    * below the leftmost bit. */
  lemma SanitizeKeepsLowBits(maxFlag: bv8, v: MaskType)
    ensures maxFlag == 0 ==> Sanitize(maxFlag, v) == v
    ensures maxFlag != 0 ==>
      Sanitize(maxFlag, v) == v & (((LeftmostBv8(maxFlag) as MaskType) << 1) - 1)
  {
  }

  /** Sanitize sets no bit the value lacked, and sanitizing twice is
    * sanitizing once. */
  lemma SanitizeIdempotent(maxFlag: bv8, v: MaskType)
    ensures Sanitize(maxFlag, v) & !v == 0
    ensures Sanitize(maxFlag, Sanitize(maxFlag, v)) == Sanitize(maxFlag, v)
  {
  }

  /** The default mask is sanitary and false. */
  lemma EmptyIsClear(maxFlag: bv8)
    ensures IsSanitary(maxFlag, Empty()) && !ToBool(Empty())
  {
  }

  /** The explicit constructor always yields a sanitary mask holding no bit
    * of the argument beyond its own. */
  lemma FromIntIsSanitary(maxFlag: bv8, v: MaskType)
    ensures IsSanitary(maxFlag, FromInt(maxFlag, v))
    ensures FromInt(maxFlag, v).value & !v == 0
  {
    SanitizeIdempotent(maxFlag, v);
  }

  /** The explicit constructor holds its argument unchanged exactly when it
    * does not warn, and it does not warn on a sanitary value. */
  lemma FromIntWarnsIffChanged(maxFlag: bv8, v: MaskType)
    ensures FromInt(maxFlag, v).value == v <==> !FromIntWarns(maxFlag, v)
    ensures !FromIntWarns(maxFlag, v) <==> IsSanitary(maxFlag, Mask(v))
  {
  }

  // ---------------------------------------------------------------------
  // The operators.

  /** `~` is the complement within the sanitary bits, and its result is
    * sanitary. */
  lemma NotMeaning(maxFlag: bv8, m: Mask)
    ensures Not(maxFlag, m).value == !m.value & MaxSanitary(maxFlag)
    ensures IsSanitary(maxFlag, Not(maxFlag, m))
  {
  }

  /** The complement is an involution on sanitary masks. */
  lemma NotInvolutive(maxFlag: bv8, m: Mask)
    requires IsSanitary(maxFlag, m)
    ensures Not(maxFlag, Not(maxFlag, m)) == m
  {
  }

  /** `|` and `&` are union and intersection within the sanitary bits. */
  lemma OperatorsMeaning(maxFlag: bv8, a: Mask, b: Mask)
    ensures Or(maxFlag, a, b).value == (a.value | b.value) & MaxSanitary(maxFlag)
    ensures And(maxFlag, a, b).value == a.value & b.value & MaxSanitary(maxFlag)
  {
  }

  /** On sanitary masks union and intersection are the plain bitwise ones. */
  lemma OperatorsOnSanitary(maxFlag: bv8, a: Mask, b: Mask)
    requires IsSanitary(maxFlag, a) && IsSanitary(maxFlag, b)
    ensures Or(maxFlag, a, b).value == a.value | b.value
    ensures And(maxFlag, a, b).value == a.value & b.value
  {
  }

  /** Union and intersection do not depend on the argument order. */
  lemma OperatorsCommute(maxFlag: bv8, a: Mask, b: Mask)
    ensures Or(maxFlag, a, b) == Or(maxFlag, b, a)
    ensures And(maxFlag, a, b) == And(maxFlag, b, a)
  {
  }

  /** The mask-flag overloads treat the flag as TMask(flag) and do not
    * depend on the argument order. */
  lemma FlagOverloadsSymmetric(maxFlag: bv8, m: Mask, flag: MaskType)
    ensures FlagOr(maxFlag, flag, m) == Or(maxFlag, FromFlag(flag), m)
    ensures FlagAnd(maxFlag, flag, m) == And(maxFlag, FromFlag(flag), m)
    ensures OrFlag(maxFlag, m, flag) == FlagOr(maxFlag, flag, m)
    ensures AndFlag(maxFlag, m, flag) == FlagAnd(maxFlag, flag, m)
  {
    OperatorsCommute(maxFlag, m, FromFlag(flag));
  }

  /** HasAny holds exactly when the masks have a common bit below the
    * maximum flag. */
  lemma HasAnyMeaning(maxFlag: bv8, m: Mask, other: Mask)
    ensures HasAny(maxFlag, m, other) <==> m.value & other.value & MaxSanitary(maxFlag) != 0
  {
    SanitizeZero(maxFlag);
    AndValue(maxFlag, m, other);
  }

  /** For a sanitary mask, HasAny holds exactly when the masks have a common
    * bit. */
  lemma HasAnyOnSanitary(maxFlag: bv8, m: Mask, other: Mask)
    requires IsSanitary(maxFlag, m)
    ensures HasAny(maxFlag, m, other) <==> m.value & other.value != 0
  {
    SanitizeZero(maxFlag);
    AndOfSanitary(maxFlag, m, other);
  }

  /** HasAll of a sanitary mask holds exactly when each of its bits is set
    * in the mask. */
  lemma HasAllMeaning(maxFlag: bv8, m: Mask, other: Mask)
    requires IsSanitary(maxFlag, other)
    ensures HasAll(maxFlag, m, other) <==> m.value & other.value == other.value
  {
    AndOfSanitary(maxFlag, other, m);
    AndCommutes(m.value, other.value);
  }

  lemma AndValue(maxFlag: bv8, a: Mask, b: Mask)
    ensures And(maxFlag, a, b) == Mask(a.value & b.value & MaxSanitary(maxFlag))
  {
  }

  lemma AndOfSanitary(maxFlag: bv8, a: Mask, b: Mask)
    requires IsSanitary(maxFlag, a)
    ensures And(maxFlag, a, b) == Mask(a.value & b.value)
    ensures And(maxFlag, b, a) == Mask(b.value & a.value)
  {
    SanitizeAbsorb(maxFlag, a.value, b.value);
  }

  lemma AndCommutes(x: MaskType, y: MaskType)
    ensures x & y == y & x
  {
  }

  /** HasAll never holds of a mask with bits above the maximum flag. */
  lemma HasAllOfUnsanitary(maxFlag: bv8, m: Mask, other: Mask)
    requires !IsSanitary(maxFlag, other)
    ensures !HasAll(maxFlag, m, other)
  {
  }

  /** GetCleared keeps none of the given bits and sets no bit the mask
    * lacked. */
  lemma GetClearedMeaning(maxFlag: bv8, m: Mask, other: Mask)
    ensures GetCleared(maxFlag, m, other).value & other.value == 0
    ensures GetCleared(maxFlag, m, other).value & !m.value == 0
  {
  }

  /** Clearing from a sanitary mask removes exactly the given bits. */
  lemma GetClearedOnSanitary(maxFlag: bv8, m: Mask, other: Mask)
    requires IsSanitary(maxFlag, m)
    ensures GetCleared(maxFlag, m, other).value == m.value & !other.value
  {
  }

  /** The assertions of the mask test (MaskTest.cpp:34-51), with the flags
    * First = 1, Second = 2, Third = 4 and maximum flag Third. */
  lemma MaskTestExamples()
    ensures var maxFlag: bv8 := 4;
      var firstAndThird := OrFlag(maxFlag, OrFlag(maxFlag, Empty(), 1), 4);
      var firstAndSecond := OrFlag(maxFlag, OrFlag(maxFlag, Empty(), 1), 2);
      var all := OrFlag(maxFlag, OrFlag(maxFlag, OrFlag(maxFlag, Empty(), 1), 2), 4);
      && HasAny(maxFlag, firstAndThird, FromFlag(1))
      && ToBool(AndFlag(maxFlag, firstAndThird, 1))
      && HasAll(maxFlag, firstAndThird, FromFlag(1))
      && HasAny(maxFlag, firstAndThird, firstAndThird)
      && And(maxFlag, firstAndThird, firstAndThird) == firstAndThird
      && HasAll(maxFlag, firstAndThird, firstAndThird)
      && HasAny(maxFlag, firstAndThird, firstAndSecond)
      && And(maxFlag, firstAndThird, firstAndSecond) == FromFlag(1)
      && !HasAll(maxFlag, firstAndThird, firstAndSecond)
      && HasAny(maxFlag, firstAndThird, all)
      && And(maxFlag, firstAndThird, all) == firstAndThird
      && !HasAll(maxFlag, firstAndThird, all)
      && Not(maxFlag, firstAndThird) == FromFlag(2)
  {
    assert MaxSanitary(4) == 7;
  }

  // ---------------------------------------------------------------------
  // The leftmost bit of a uint8, on bit-vectors and on naturals.

  /** The leftmost set bit of a uint8, on bit-vectors: every bit below the
    * leftmost one is smeared to one, then all but the top one are dropped. */
  function LeftmostBv8(m: bv8): bv8
  {
    var s1 := m | (m >> 1);
    var s2 := s1 | (s1 >> 2);
    var s3 := s2 | (s2 >> 4);
    s3 & !(s3 >> 1)
  }

  /** LeftmostBv8 is zero only for zero, and otherwise a single bit r of m
    * with r <= m < 2 * r. */
  lemma LeftmostBv8Shape(m: bv8)
    ensures var r := LeftmostBv8(m);
      && (r == 0 <==> m == 0)
      && r & m == r && r & (r - 1) == 0
      && (m != 0 ==> r <= m && m - r < r)
  {
  }

  /** Bits::GetLeftmostBit on a uint8 is the power of two LeftmostBv8 finds. */
  lemma LeftmostAgrees(m: bv8)
    ensures Bits.Pow2(8) == 256
    ensures Bits.GetLeftmostBit(8, m as nat) == LeftmostBv8(m) as nat
  {
    assert Bits.Pow2(8) == 256;
    if m >= 128 { LeftmostAt(m, 7, 128); }
    else if m >= 64 { LeftmostAt(m, 6, 64); }
    else if m >= 32 { LeftmostAt(m, 5, 32); }
    else if m >= 16 { LeftmostAt(m, 4, 16); }
    else if m >= 8 { LeftmostAt(m, 3, 8); }
    else if m >= 4 { LeftmostAt(m, 2, 4); }
    else if m >= 2 { LeftmostAt(m, 1, 2); }
    else if m >= 1 { LeftmostAt(m, 0, 1); }
  }

  lemma LeftmostAt(m: bv8, k: nat, lb: nat)
    requires k < 8 && lb == Bits.Pow2(k) && lb <= m as nat < 2 * lb
    ensures Bits.Pow2(8) == 256
    ensures Bits.GetLeftmostBit(8, m as nat) == lb
  {
    assert Bits.Pow2(8) == 256;
    Bits.Log2Unique(m as nat, k);
  }

  // ---------------------------------------------------------------------
  // Sanitize on zero and on intersections.

  lemma SanitizeZero(maxFlag: bv8)
    ensures Sanitize(maxFlag, 0) == 0
  {
  }

  /** Intersecting with a sanitary value gives a sanitary value. */
  lemma SanitizeAbsorb(maxFlag: bv8, x: MaskType, y: MaskType)
    requires Sanitize(maxFlag, x) == x
    ensures Sanitize(maxFlag, x & y) == x & y
    ensures Sanitize(maxFlag, y & x) == y & x
  {
  }
}
