/**
 * Normalisation of a ship's heading into [0, 2*pi], shared by both ship
 * classes (asteroids.model.Ship and main.Ship): both `setAngle`s add 2*pi
 * while the angle is negative and then subtract 2*pi while it exceeds 2*pi.
 */
module Angles {
  import opened Numerics

  function Ceil(x: real): int
  {
    -((-x).Floor)
  }

  lemma CeilIsLeastIntegerAbove(x: real, n: int)
    requires (n - 1) as real < x <= n as real
    ensures Ceil(x) == n
  {
  }

  /** The number of whole turns (2*pi) the two loops add; negative when they subtract. */
  function Turns(a: real): int
  {
    if a < 0.0 then Ceil(-a / TwoPi)
    else if a > TwoPi then 1 - Ceil(a / TwoPi)
    else 0
  }

  /** The angle `setAngle(a)` stores, computed without loops. */
  function NormalAngle(a: real): real
  {
    a + Turns(a) as real * TwoPi
  }

  /** The stored direction lies in [0, 2*pi] (the class invariant of Ship). */
  lemma NormalAngleInRange(a: real)
    ensures 0.0 <= NormalAngle(a) <= TwoPi
  {
    var x := if a < 0.0 then -a / TwoPi else a / TwoPi;
    assert x * TwoPi == (if a < 0.0 then -a else a);
    assert Ceil(x) as real >= x && (Ceil(x) as real) < x + 1.0;
  }

  /** An angle already in [0, 2*pi] is left as it is. */
  lemma NormalAngleKeepsRange(a: real)
    requires 0.0 <= a <= TwoPi
    ensures NormalAngle(a) == a
  {
  }

  /** Normalising twice is normalising once. */
  lemma NormalAngleIsIdempotent(a: real)
    ensures NormalAngle(NormalAngle(a)) == NormalAngle(a)
  {
    NormalAngleInRange(a);
    NormalAngleKeepsRange(NormalAngle(a));
  }

  /**
   * The two while loops of `setAngle`: returns the angle they leave.
   * The loops run over reals here, so the result is exact; the Java loops
   * accumulate rounding error.
   */
  method Normalise(a: real) returns (r: real)
    ensures r == NormalAngle(a)
  {
    r := AddTurns(a);
    NormalAngleInRange(a);
    r := SubtractTurns(r);
  }

  /** The first loop: adds 2*pi while the angle is negative. */
  method AddTurns(a: real) returns (r: real)
    ensures r == (if a < 0.0 then NormalAngle(a) else a)
  {
    r := a;
    ghost var n: int := 0;
    while r < 0.0
      invariant r == a + n as real * TwoPi
      invariant n >= 0 && (n > 0 ==> a < 0.0 && a + (n - 1) as real * TwoPi < 0.0)
      decreases (-r).Floor
    {
      r := r + TwoPi;
      n := n + 1;
    }
    if a < 0.0 {
      CeilIsLeastIntegerAbove(-a / TwoPi, n);
    }
  }

  /** The second loop: subtracts 2*pi while the angle exceeds 2*pi. */
  method SubtractTurns(a: real) returns (r: real)
    requires a >= 0.0
    ensures r == (if a > TwoPi then NormalAngle(a) else a)
  {
    r := a;
    ghost var k: int := 0;
    while r > TwoPi
      invariant r == a - k as real * TwoPi
      invariant k >= 0 && (k > 0 ==> a > TwoPi && a - (k - 1) as real * TwoPi > TwoPi)
      invariant r >= 0.0
      decreases r.Floor
    {
      r := r - TwoPi;
      k := k + 1;
    }
    if a > TwoPi {
      CeilIsLeastIntegerAbove(a / TwoPi, k + 1);
    }
  }

  /** Turning by 1 from direction 1 gives 2 (src/asteroids/test/ShipTest.java turnTest). */
  lemma TurnOneAndOne()
    ensures NormalAngle(1.0 + 1.0) == 2.0
  {
  }

  /** Turning by 6 from direction 3 gives 9 - 2*pi, about 2.71681 (src/asteroids/test/ShipTest.java turnTest). */
  lemma TurnThreeAndSix()
    ensures NormalAngle(3.0 + 6.0) == 9.0 - TwoPi
    ensures 2.71681 < NormalAngle(3.0 + 6.0) < 2.71682
  {
    CeilIsLeastIntegerAbove(9.0 / TwoPi, 2);
  }
}
