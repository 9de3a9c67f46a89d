/**
 * The older standalone ship of src/main/Ship.java: a body with a heading
 * and a speed limit, argument checks on its constructor and on `move`,
 * and the collision prediction of Physics between two such ships.
 */
module LegacyShips {
  import opened Numerics
  import opened Angles
  import opened Physics

  /** `minimumRadius`. */
  const MinimumRadius: real := 10.0

  /** `isValidCoordinate`: anything but NaN. */
  predicate IsValidCoordinate(c: Double)
  {
    c.Num?
  }

  /** `isValidRadius`: not NaN and at least the minimum radius. */
  predicate IsValidRadius(r: Double)
  {
    r.Num? && MinimumRadius <= r.val
  }

  /** `isValidMoveArgument`: not NaN and positive. */
  predicate IsValidMoveArgument(dt: Double)
  {
    dt.Num? && dt.val > 0.0
  }

  class LegacyShip {
    var x: real
    var y: real
    var vx: real
    var vy: real
    const radius: real
    var angle: real
    const speedLimit: real

    /** The invariants the class documents and its checks keep: a large enough radius, a heading in [0, 2*pi]. */
    predicate Valid()
      reads this
    {
      radius >= MinimumRadius && 0.0 <= angle <= TwoPi && speedLimit == SpeedOfLight
    }

    function AsBody(): Body
      reads this
    {
      Body(x, y, vx, vy, radius)
    }

    constructor (x: real, y: real, vx: real, vy: real, radius: real, angle: real)
      requires radius >= MinimumRadius
      ensures Valid()
      ensures AsBody() == Body(x, y, vx, vy, radius) && this.angle == NormalAngle(angle)
    {
      var a := Normalise(angle);
      NormalAngleInRange(angle);
      this.x, this.y, this.vx, this.vy := x, y, vx, vy;
      this.radius, this.angle, this.speedLimit := radius, a, SpeedOfLight;
    }

    /**
     * `Ship(x, y, xVelocity, yVelocity, radius, angle)`: a NaN coordinate,
     * then a NaN or too small radius, is an IllegalArgumentException; the
     * heading is normalised into [0, 2*pi].
     */
    static method NewLegacyShip(x: Double, y: Double, vx: real, vy: real, radius: Double, angle: real)
      returns (r: Outcome<LegacyShip>)
      ensures r.Fail? <==> !IsValidCoordinate(x) || !IsValidCoordinate(y) || !IsValidRadius(radius)
      ensures r.Fail? ==> r.error == IllegalArgument
      ensures r.Ok? ==> fresh(r.value) && r.value.Valid()
                        && r.value.AsBody() == Body(x.val, y.val, vx, vy, radius.val)
                        && r.value.angle == NormalAngle(angle)
    {
      if !IsValidCoordinate(x) || !IsValidCoordinate(y) || !IsValidRadius(radius) {
        return Fail(IllegalArgument);
      }
      var s := new LegacyShip(x.val, y.val, vx, vy, radius.val, angle);
      return Ok(s);
    }

    /** `Ship()`: the ship (0, 0, 0, 0, 10, 0), which passes every check. */
    static method NewDefaultLegacyShip() returns (s: LegacyShip)
      ensures fresh(s) && s.Valid()
      ensures s.AsBody() == Body(0.0, 0.0, 0.0, 0.0, 10.0) && s.angle == 0.0
    {
      var r := NewLegacyShip(Num(0.0), Num(0.0), 0.0, 0.0, Num(10.0), 0.0);
      NormalAngleIsZeroAtZero();
      s := r.value;
    }

    /**
     * `move(dt)`: an invalid duration is an IllegalArgumentException and
     * changes nothing; otherwise the centre advances by velocity * dt.
     */
    method Move(dt: Double) returns (r: Outcome<()>)
      modifies this
      ensures !IsValidMoveArgument(dt) ==> r == Fail(IllegalArgument) && AsBody() == old(AsBody())
      ensures IsValidMoveArgument(dt) ==> r == Ok(()) && AsBody() == Moved(old(AsBody()), dt.val)
      ensures angle == old(angle)
    {
      if !IsValidMoveArgument(dt) {
        return Fail(IllegalArgument);
      }
      x := x + vx * dt.val;
      y := y + vy * dt.val;
      return Ok(());
    }

    /**
     * `thrust(da)`: nothing for da <= 0; otherwise da along the heading is
     * added to the velocity, with `cos` and `sin` standing for the Java
     * routines.
     */
    method Thrust(da: real, m: MathFns)
      modifies this
      ensures da <= 0.0 ==> AsBody() == old(AsBody())
      ensures da > 0.0 ==> AsBody() == old(AsBody()).(vx := old(vx) + da * m.cos(old(angle)),
                                                      vy := old(vy) + da * m.sin(old(angle)))
      ensures angle == old(angle)
    {
      if da <= 0.0 {
        return;
      }
      vx := vx + da * m.cos(angle);
      vy := vy + da * m.sin(angle);
    }

    /** `turn(a)`: `setAngle` of the old heading plus a, whose two loops bring it into [0, 2*pi]. */
    method Turn(a: real)
      modifies this
      ensures angle == NormalAngle(old(angle) + a) && 0.0 <= angle <= TwoPi
      ensures AsBody() == old(AsBody())
    {
      angle := Normalise(angle + a);
      NormalAngleInRange(old(angle) + a);
    }

    /** `getTimeToCollision`: null is an IllegalArgumentException; otherwise the Physics prediction. */
    function TimeToCollision(other: LegacyShip?, sqrt: real -> real): (r: Outcome<Time>)
      reads this, other
      ensures r.Fail? <==> other == null
      ensures r.Fail? ==> r.error == IllegalArgument
      ensures r.Ok? && DvDr(AsBody(), other.AsBody()) >= 0.0 ==> r.value == Infinite
      ensures r.Ok? && Discriminant(AsBody(), other.AsBody()) <= 0.0 ==> r.value == Infinite
      ensures r.Ok? ==> !r.value.Undefined?
    {
      if other == null then Fail(IllegalArgument)
      else Ok(CollisionTime(AsBody(), other.AsBody(), sqrt))
    }

    /**
     * `getCollisionPosition`: null is an IllegalArgumentException; no
     * collision is the null array; otherwise where this ship's centre is
     * when the collision happens.
     */
    function CollisionPosition(other: LegacyShip?, sqrt: real -> real): (r: Outcome<Option<(real, real)>>)
      reads this, other
      ensures r.Fail? <==> other == null
      ensures r.Fail? ==> r.error == IllegalArgument
      ensures r.Ok? ==> (r.value.None? <==> TimeToCollision(other, sqrt).value == Infinite)
      ensures r.Ok? && r.value.Some? ==>
                var t := TimeToCollision(other, sqrt).value.t;
                r.value.value == (Moved(AsBody(), t).x, Moved(AsBody(), t).y)
    {
      if other == null then Fail(IllegalArgument)
      else Ok(PositionAfter(AsBody(), TimeToCollision(other, sqrt).value))
    }
  }

  /** The centre of b after a finite time t; none after an infinite one. */
  function PositionAfter(b: Body, t: Time): (r: Option<(real, real)>)
    requires !t.Undefined?
    ensures r.None? <==> t == Infinite
    ensures r.Some? ==> r.value == (Moved(b, t.t).x, Moved(b, t.t).y)
  {
    if t == Infinite then None else var m := Moved(b, t.t); Some((m.x, m.y))
  }

  /** The heading 0 is already normal. */
  lemma NormalAngleIsZeroAtZero()
    ensures NormalAngle(0.0) == 0.0
  {
    NormalAngleKeepsRange(0.0);
  }

  /** Whether two centres are exactly the distance s apart. */
  predicate Touching(p: (real, real), q: (real, real), s: real)
  {
    (q.0 - p.0) * (q.0 - p.0) + (q.1 - p.1) * (q.1 - p.1) == s * s
  }

  /**
   * At the predicted collision position the two ships touch: the other
   * ship, moved for the same time, is exactly the sum of the radii away.
   */
  lemma CollisionPositionIsContact(a: LegacyShip, b: LegacyShip, sqrt: real -> real)
    requires a.CollisionPosition(b, sqrt).Ok? && a.CollisionPosition(b, sqrt).value.Some?
    requires IsRootOf(sqrt(Discriminant(a.AsBody(), b.AsBody())), Discriminant(a.AsBody(), b.AsBody()))
    ensures var p := a.CollisionPosition(b, sqrt).value.value;
            var q := Moved(b.AsBody(), a.TimeToCollision(b, sqrt).value.t);
            Touching(p, (q.x, q.y), a.radius + b.radius)
  {
    var A, B := a.AsBody(), b.AsBody();
    var t := a.TimeToCollision(b, sqrt).value.t;
    var p, q := a.CollisionPosition(b, sqrt).value.value, Moved(B, t);
    assert p.0 == Moved(A, t).x && p.1 == Moved(A, t).y;
    CollisionTimeIsContact(A, B, sqrt);
    assert DrDr(Moved(A, t), q) == Sigma(A, B) * Sigma(A, B);
    assert Touching(p, (q.x, q.y), a.radius + b.radius);
  }

  /** The `moveTest_NormalCase` fixture: (50, 2000) at (10, 5) for 10.135 seconds ends at (151.35, 2050.675). */
  lemma MoveTestNormalCase()
    ensures Moved(Body(50.0, 2000.0, 10.0, 5.0, 20.0), 10.135) == Body(151.35, 2050.675, 10.0, 5.0, 20.0)
  {
  }
}
