/** The vector and scalar helpers of Math.h, on exact reals and
  * mathematical integers. */
module Maths {

  /** FVector. */
  datatype Vector = Vector(x: real, y: real, z: real)

  const ZeroVector := Vector(0.0, 0.0, 0.0)

  /** The component at index 0, 1 or 2. */
  function Component(v: Vector, i: int): real
    requires 0 <= i < 3
  {
    if i == 0 then v.x else if i == 1 then v.y else v.z
  }

  function RealAbs(r: real): real
  {
    if r < 0.0 then -r else r
  }

  // ---------------------------------------------------------------------
  // Components.

  /** GetVectorAbsMaxComponentIndex (Math.h:24-41): the index of a component
    * of largest magnitude, the smallest such index on ties. */
  function GetVectorAbsMaxComponentIndex(v: Vector): (i: int)
    ensures 0 <= i < 3
    ensures forall j :: 0 <= j < 3 ==> RealAbs(Component(v, j)) <= RealAbs(Component(v, i))
    ensures forall j :: 0 <= j < i ==> RealAbs(Component(v, j)) < RealAbs(Component(v, i))
  {
    var absX := RealAbs(v.x);
    var absY := RealAbs(v.y);
    var absZ := RealAbs(v.z);
    if absX >= absY && absX >= absZ then 0
    else if absY >= absZ then 1
    else 2
  }

  /** VectorSetComponent (Math.h:47-63), with the vector passed by reference
    * as the input `vector` and the output `updated`. The index must be 0, 1
    * or 2 (the source checks it). */
  method VectorSetComponent(vector: Vector, index: int, value: real) returns (updated: Vector)
    requires 0 <= index < 3
    ensures Component(updated, index) == value
    ensures forall j :: 0 <= j < 3 && j != index ==> Component(updated, j) == Component(vector, j)
  {
    updated := vector;
    if index == 0 {
      updated := updated.(x := value);
    } else if index == 1 {
      updated := updated.(y := value);
    } else if index == 2 {
      updated := updated.(z := value);
    }
  }

  /** MakeVectorSetComponent (Math.h:68-74): a copy of the vector with the
    * component set; the argument itself is a value and stays as it was. */
  method MakeVectorSetComponent(vector: Vector, index: int, value: real) returns (result: Vector)
    requires 0 <= index < 3
    ensures Component(result, index) == value
    ensures forall j :: 0 <= j < 3 && j != index ==> Component(result, j) == Component(vector, j)
  {
    result := VectorSetComponent(vector, index, value);
  }

  /** The one-argument MakeVectorSetComponent (Math.h:79-82): starts from the
    * zero vector. */
  method MakeVectorSetComponentOfZero(index: int, value: real) returns (result: Vector)
    requires 0 <= index < 3
    ensures Component(result, index) == value
    ensures forall j :: 0 <= j < 3 && j != index ==> Component(result, j) == 0.0
  {
    result := MakeVectorSetComponent(ZeroVector, index, value);
  }

  /** ProjectOntoXY (Math.h:85-88): Z is zeroed, X and Y are kept. */
  method ProjectOntoXY(vector: Vector) returns (result: Vector)
    ensures result == Vector(vector.x, vector.y, 0.0)
  {
    result := MakeVectorSetComponent(vector, 2, 0.0);
    assert Component(result, 0) == vector.x && Component(result, 1) == vector.y;
  }

  /** The examples of Math.h:20-22 and MathTest.cpp:14-33. Setting
    * component 1 of <0, 1, 2> to 3 gives <0, 3, 2>, as the test expects; the
    * doc comments at Math.h:46 and 67 say <0, 3, 1>. */
  method MathTestExamples() returns (first: int, second: int, third: int, changed: Vector, made: Vector, madeOfZero: Vector)
    ensures first == 1 && second == 1 && third == 0
    ensures changed == Vector(0.0, 3.0, 2.0) && made == Vector(0.0, 3.0, 2.0)
    ensures madeOfZero == Vector(0.0, 3.0, 0.0)
  {
    first := GetVectorAbsMaxComponentIndex(Vector(1.0, 5.0, 2.0));
    second := GetVectorAbsMaxComponentIndex(Vector(1.0, -5.0, 2.0));
    third := GetVectorAbsMaxComponentIndex(Vector(-3.0, 3.0, 2.0));
    changed := VectorSetComponent(Vector(0.0, 1.0, 2.0), 1, 3.0);
    assert Component(changed, 0) == 0.0 && Component(changed, 2) == 2.0;
    made := MakeVectorSetComponent(Vector(0.0, 1.0, 2.0), 1, 3.0);
    assert Component(made, 0) == 0.0 && Component(made, 2) == 2.0;
    madeOfZero := MakeVectorSetComponentOfZero(1, 3.0);
    assert Component(madeOfZero, 0) == 0.0 && Component(madeOfZero, 2) == 0.0;
  }

  // ---------------------------------------------------------------------
  // Scalars.

  /** Abs (Math.h:129-140) for a signed integral type. */
  function AbsSigned(v: int): int
  {
    if v < 0 then -v else v
  }

  /** Abs for an unsigned integral type: the value itself. */
  function AbsUnsigned(v: nat): nat
  {
    v
  }

  /** The magnitude of a signed value: never negative, the value or its
    * negation, and the value itself exactly when it is not negative. */
  lemma AbsSignedMeaning(v: int)
    ensures AbsSigned(v) >= 0
    ensures AbsSigned(v) == v || AbsSigned(v) == -v
    ensures AbsSigned(v) == v <==> v >= 0
    ensures AbsSigned(-v) == AbsSigned(v)
  {
  }

  /** Abs on an unsigned value is the identity. */
  lemma AbsUnsignedIdentity(v: nat)
    ensures AbsUnsigned(v) == v && AbsUnsigned(v) == AbsSigned(v)
  {
  }

  /** The static_asserts of Math.h:142-144. */
  lemma AbsExamples()
    ensures AbsSigned(-3) == 3 && AbsSigned(3) == 3 && AbsUnsigned(2) == 2
  {
  }

  /** The integral IsNearlyEqual (Math.h:155-159). */
  predicate IsNearlyEqual(a: int, b: int, tolerance: int)
  {
    if a < b then b - a <= tolerance else a - b <= tolerance
  }

  /** Two values are nearly equal exactly when they lie within the tolerance
    * of each other, whichever comes first. */
  lemma IsNearlyEqualMeaning(a: int, b: int, tolerance: int)
    ensures IsNearlyEqual(a, b, tolerance) <==> AbsSigned(a - b) <= tolerance
    ensures IsNearlyEqual(a, b, tolerance) <==> IsNearlyEqual(b, a, tolerance)
  {
  }

  /** The integral static_asserts of Math.h:163-165. */
  lemma IsNearlyEqualExamples()
    ensures IsNearlyEqual(2, 3, 2)
    ensures !IsNearlyEqual(2, 3, 0)
    ensures !IsNearlyEqual(2, 4, 1)
  {
  }

  /** SnapIfNear (Math.h:175-184) for an integral type. */
  function SnapIfNear(input: int, snap: int, threshold: int): int
  {
    if IsNearlyEqual(snap, input, threshold) then snap else input
  }

  /** SnapIfNear gives the snap value for an input within the threshold of
    * it, and the input otherwise; snapping twice is snapping once. */
  lemma SnapIfNearMeaning(input: int, snap: int, threshold: int)
    ensures AbsSigned(input - snap) <= threshold ==> SnapIfNear(input, snap, threshold) == snap
    ensures AbsSigned(input - snap) > threshold ==> SnapIfNear(input, snap, threshold) == input
    ensures threshold >= 0 ==>
      SnapIfNear(SnapIfNear(input, snap, threshold), snap, threshold) == SnapIfNear(input, snap, threshold)
  {
    IsNearlyEqualMeaning(snap, input, threshold);
  }

  /** The static_asserts of Math.h:186-190. */
  lemma SnapIfNearExamples()
    ensures SnapIfNear(-2, 0, 1) == -2
    ensures SnapIfNear(-1, 0, 1) == 0
    ensures SnapIfNear(0, 0, 1) == 0
    ensures SnapIfNear(1, 0, 1) == 0
    ensures SnapIfNear(2, 0, 1) == 2
  {
  }
}
