/**
 * The kinematics of round bodies shared by every space object and by the
 * legacy ship: motion, overlap, the predicted time to a collision with
 * another body or with a wall, the elastic impulse exchange and the wall
 * reflection. Everything here is a function of body values; the classes
 * of the Universe and LegacyShip modules apply these to their fields.
 */
module Physics {
  import opened Numerics

  /** Centre, velocity and radius of a body. */
  datatype Body = Body(x: real, y: real, vx: real, vy: real, radius: real)

  /** `move(dt)`: the centre advances by velocity * dt; nothing else changes. */
  function Moved(b: Body, dt: real): (r: Body)
    ensures r.vx == b.vx && r.vy == b.vy && r.radius == b.radius
  {
    b.(x := b.x + b.vx * dt, y := b.y + b.vy * dt)
  }

  /** Moving for s and then for t is moving for s + t. */
  lemma MovedComposes(b: Body, s: real, t: real)
    ensures Moved(Moved(b, s), t) == Moved(b, s + t)
  {
    var m := Moved(Moved(b, s), t);
    ScaledSum(b.vx, s, t);
    ScaledSum(b.vy, s, t);
    assert m.x == b.x + b.vx * (s + t);
    assert m.y == b.y + b.vy * (s + t);
  }

  lemma ScaledSum(v: real, s: real, t: real)
    ensures v * s + v * t == v * (s + t)
  {
  }

  // The pair quantities of getTimeToCollision and resolveCollision, from a to b.

  function Sigma(a: Body, b: Body): real
  {
    a.radius + b.radius
  }

  function DrDr(a: Body, b: Body): real
  {
    (b.x - a.x) * (b.x - a.x) + (b.y - a.y) * (b.y - a.y)
  }

  function DvDv(a: Body, b: Body): real
  {
    (b.vx - a.vx) * (b.vx - a.vx) + (b.vy - a.vy) * (b.vy - a.vy)
  }

  function DvDr(a: Body, b: Body): real
  {
    (b.vx - a.vx) * (b.x - a.x) + (b.vy - a.vy) * (b.y - a.y)
  }

  function Discriminant(a: Body, b: Body): real
  {
    DvDr(a, b) * DvDr(a, b) - DvDv(a, b) * (DrDr(a, b) - Sigma(a, b) * Sigma(a, b))
  }

  lemma SquareIsPositive(x: real)
    requires x != 0.0
    ensures x * x > 0.0
  {
    if x < 0.0 {
      assert x * x == (-x) * (-x);
    }
  }

  lemma SumOfSquaresIsPositive(x: real, y: real)
    requires x != 0.0 || y != 0.0
    ensures x * x + y * y > 0.0
  {
    if x != 0.0 {
      SquareIsPositive(x);
      assert y * y >= 0.0;
    } else {
      SquareIsPositive(y);
    }
  }

  /** Bodies that approach each other have a non-zero relative velocity. */
  lemma ApproachingMeansMoving(a: Body, b: Body)
    requires DvDr(a, b) < 0.0
    ensures DvDv(a, b) > 0.0
  {
    var dvx, dvy := b.vx - a.vx, b.vy - a.vy;
    if dvx != 0.0 || dvy != 0.0 {
      SumOfSquaresIsPositive(dvx, dvy);
      calc {
        DvDv(a, b);
        dvx * dvx + dvy * dvy;
      >
        0.0;
      }
    }
  }

  /** Squaring is monotone on non-negative reals. */
  lemma SquareIsMonotone(m: real, s: real)
    requires 0.0 <= m <= s
    ensures m * m <= s * s
  {
    calc {
      m * m;
    <= m * s;
    <= s * s;
    }
  }

  lemma SquareIsStrictlyMonotone(m: real, s: real)
    requires 0.0 <= m < s
    ensures m * m < s * s
  {
    calc {
      m * m;
    <= m * s;
    <  s * s;
    }
  }

  /** Of two non-negative reals, the one with the smaller square is the smaller. */
  lemma SmallerSquareIsSmaller(s: real, m: real)
    requires 0.0 <= s && 0.0 <= m && s * s <= m * m
    ensures s <= m
  {
    if m < s {
      SquareIsStrictlyMonotone(m, s);
    }
  }

  /**
   * `getTimeToCollision`: infinite when the bodies are not approaching
   * (the fuzzy test of the source is exact here) or when the discriminant
   * is not positive; otherwise the smaller root of the contact equation,
   * with `sqrt` standing for `Math.sqrt`.
   */
  function CollisionTime(a: Body, b: Body, sqrt: real -> real): (r: Time)
    ensures DvDr(a, b) >= 0.0 ==> r == Infinite
    ensures Discriminant(a, b) <= 0.0 ==> r == Infinite
    ensures !r.Undefined?
  {
    if DvDr(a, b) >= 0.0 then Infinite
    else if Discriminant(a, b) <= 0.0 then Infinite
    else
      ApproachingMeansMoving(a, b);
      Finite(-(DvDr(a, b) + sqrt(Discriminant(a, b))) / DvDv(a, b))
  }

  lemma PairQuantitiesAreSymmetric(a: Body, b: Body)
    ensures Sigma(a, b) == Sigma(b, a) && DrDr(a, b) == DrDr(b, a)
    ensures DvDv(a, b) == DvDv(b, a) && DvDr(a, b) == DvDr(b, a)
    ensures Discriminant(a, b) == Discriminant(b, a)
  {
    assert (b.vx - a.vx) * (b.x - a.x) == (a.vx - b.vx) * (a.x - b.x);
    assert (b.vy - a.vy) * (b.y - a.y) == (a.vy - b.vy) * (a.y - b.y);
  }

  /** The predicted time does not depend on which of the two bodies asks. */
  lemma CollisionTimeIsSymmetric(a: Body, b: Body, sqrt: real -> real)
    ensures CollisionTime(a, b, sqrt) == CollisionTime(b, a, sqrt)
  {
    PairQuantitiesAreSymmetric(a, b);
  }

  /** The squared distance between the centres after both bodies moved for t. */
  function DistanceSquaredAt(a: Body, b: Body, t: real): real
  {
    DrDr(Moved(a, t), Moved(b, t))
  }

  lemma SquareOfMovedOffset(r: real, v: real, t: real)
    ensures (r + v * t) * (r + v * t) == (v * v) * (t * t) + 2.0 * (v * r) * t + r * r
  {
  }

  lemma MovedOffset(p: real, v: real, q: real, w: real, t: real)
    ensures (q + w * t) - (p + v * t) == (q - p) + (w - v) * t
  {
  }

  lemma DistanceSquaredAtIsQuadratic(a: Body, b: Body, t: real)
    ensures DistanceSquaredAt(a, b, t) == DvDv(a, b) * (t * t) + 2.0 * DvDr(a, b) * t + DrDr(a, b)
  {
    DistanceSquaredAtIsOffsets(a, b, t);
    OffsetsArePolynomial(a, b, t);
    PolynomialIsPairForm(a, b, t);
  }

  lemma OffsetsArePolynomial(a: Body, b: Body, t: real)
    ensures ((b.x - a.x) + (b.vx - a.vx) * t) * ((b.x - a.x) + (b.vx - a.vx) * t)
          + ((b.y - a.y) + (b.vy - a.vy) * t) * ((b.y - a.y) + (b.vy - a.vy) * t)
         == ((b.vx - a.vx) * (b.vx - a.vx) + (b.vy - a.vy) * (b.vy - a.vy)) * (t * t)
          + 2.0 * ((b.vx - a.vx) * (b.x - a.x) + (b.vy - a.vy) * (b.y - a.y)) * t
          + ((b.x - a.x) * (b.x - a.x) + (b.y - a.y) * (b.y - a.y))
  {
    var rx, ry, vx, vy := b.x - a.x, b.y - a.y, b.vx - a.vx, b.vy - a.vy;
    SquaredOffsets(rx + vx * t, ry + vy * t, rx, ry, vx, vy, t);
  }

  lemma PolynomialIsPairForm(a: Body, b: Body, t: real)
    ensures ((b.vx - a.vx) * (b.vx - a.vx) + (b.vy - a.vy) * (b.vy - a.vy)) * (t * t)
          + 2.0 * ((b.vx - a.vx) * (b.x - a.x) + (b.vy - a.vy) * (b.y - a.y)) * t
          + ((b.x - a.x) * (b.x - a.x) + (b.y - a.y) * (b.y - a.y))
         == DvDv(a, b) * (t * t) + 2.0 * DvDr(a, b) * t + DrDr(a, b)
  {
    var rx, ry, vx, vy := b.x - a.x, b.y - a.y, b.vx - a.vx, b.vy - a.vy;
    PairQuantitiesAreSums(a, b);
    ScaledEquals(vx * vx + vy * vy, DvDv(a, b), t * t);
    ScaledEquals(2.0 * (vx * rx + vy * ry), 2.0 * DvDr(a, b), t);
  }

  lemma DistanceSquaredAtIsOffsets(a: Body, b: Body, t: real)
    ensures DistanceSquaredAt(a, b, t)
         == ((b.x - a.x) + (b.vx - a.vx) * t) * ((b.x - a.x) + (b.vx - a.vx) * t)
          + ((b.y - a.y) + (b.vy - a.vy) * t) * ((b.y - a.y) + (b.vy - a.vy) * t)
  {
    MovedOffset(a.x, a.vx, b.x, b.vx, t);
    MovedOffset(a.y, a.vy, b.y, b.vy, t);
  }

  lemma ScaledEquals(x: real, y: real, k: real)
    requires x == y
    ensures x * k == y * k
  {
  }

  lemma PairQuantitiesAreSums(a: Body, b: Body)
    ensures DvDv(a, b) == (b.vx - a.vx) * (b.vx - a.vx) + (b.vy - a.vy) * (b.vy - a.vy)
    ensures DvDr(a, b) == (b.vx - a.vx) * (b.x - a.x) + (b.vy - a.vy) * (b.y - a.y)
    ensures DrDr(a, b) == (b.x - a.x) * (b.x - a.x) + (b.y - a.y) * (b.y - a.y)
  {
  }

  /** The squared length of the offset (rx, ry) + t (vx, vy), as a polynomial in t. */
  lemma SquaredOffsets(dx: real, dy: real, rx: real, ry: real, vx: real, vy: real, t: real)
    requires dx == rx + vx * t && dy == ry + vy * t
    ensures dx * dx + dy * dy == (vx * vx + vy * vy) * (t * t) + 2.0 * (vx * rx + vy * ry) * t + (rx * rx + ry * ry)
  {
    SquareOfMovedOffset(rx, vx, t);
    SquareOfMovedOffset(ry, vy, t);
    var tt := t * t;
    assert (vx * vx + vy * vy) * tt == (vx * vx) * tt + (vy * vy) * tt;
    assert 2.0 * (vx * rx + vy * ry) * t == 2.0 * (vx * rx) * t + 2.0 * (vy * ry) * t;
  }

  /** The smaller root of A t^2 + 2 B t + C, for A > 0 and s the root of B^2 - A C. */
  lemma SmallerRootSolves(A: real, B: real, C: real, s: real, t: real)
    requires A > 0.0 && s * s == B * B - A * C && t == -(B + s) / A
    ensures A * (t * t) + 2.0 * B * t + C == 0.0
  {
    var u := t * A;
    assert u == -(B + s);
    var q := A * (t * t) + 2.0 * B * t + C;
    assert A * q == u * u + 2.0 * B * u + A * C;
    assert u * u + 2.0 * B * u == s * s - B * B;
    assert A * q == 0.0;
  }

  /**
   * A finite predicted time is a moment of contact: when `sqrt` returns the
   * root of the discriminant, the distance between the centres at that time
   * is exactly the sum of the radii.
   */
  lemma CollisionTimeIsContact(a: Body, b: Body, sqrt: real -> real)
    requires CollisionTime(a, b, sqrt).Finite?
    requires IsRootOf(sqrt(Discriminant(a, b)), Discriminant(a, b))
    ensures DistanceSquaredAt(a, b, CollisionTime(a, b, sqrt).t) == Sigma(a, b) * Sigma(a, b)
  {
    var t := CollisionTime(a, b, sqrt).t;
    ApproachingMeansMoving(a, b);
    DistanceSquaredAtIsQuadratic(a, b, t);
    RootIsContact(DistanceSquaredAt(a, b, t), DvDv(a, b), DvDr(a, b), DrDr(a, b), Sigma(a, b) * Sigma(a, b),
                  sqrt(Discriminant(a, b)), t);
  }

  /** The smaller root t of the contact equation A t^2 + 2 B t + (D - S) = 0 brings the squared distance to S. */
  lemma RootIsContact(x: real, A: real, B: real, D: real, S: real, s: real, t: real)
    requires A > 0.0 && s * s == B * B - A * (D - S) && t == -(B + s) / A
    requires x == A * (t * t) + 2.0 * B * t + D
    ensures x == S
  {
    SmallerRootSolves(A, B, D - S, s, t);
  }

  /**
   * Bodies that do not overlap now and are given a finite predicted time
   * meet in the future, not in the past.
   */
  lemma CollisionTimeIsNotInThePast(a: Body, b: Body, sqrt: real -> real)
    requires CollisionTime(a, b, sqrt).Finite?
    requires IsRootOf(sqrt(Discriminant(a, b)), Discriminant(a, b))
    requires DrDr(a, b) >= Sigma(a, b) * Sigma(a, b)
    ensures CollisionTime(a, b, sqrt).t >= 0.0
  {
    var A, B := DvDv(a, b), DvDr(a, b);
    var s := sqrt(Discriminant(a, b));
    ApproachingMeansMoving(a, b);
    assert A * (DrDr(a, b) - Sigma(a, b) * Sigma(a, b)) >= 0.0;
    assert s * s <= (-B) * (-B);
    SmallerSquareIsSmaller(s, -B);
    assert -(B + s) >= 0.0;
  }

  // Overlap.

  /**
   * The overlap test the documentation of `overlap` describes: the gap
   * between the bodies (centre distance minus the sum of the radii, as
   * `getDistanceBetween` returns it) is at most zero, so touching bodies
   * and a body with itself overlap. It is written without the root: for
   * non-negative radii, dist - sigma <= 0 exactly when dist^2 <= sigma^2.
   */
  predicate Overlaps(a: Body, b: Body)
  {
    DrDr(a, b) <= Sigma(a, b) * Sigma(a, b)
  }

  /**
   * `overlap` as written: the gap `dist` - sigma, which already has the
   * radii subtracted, is compared with sigma once more.
   */
  predicate OverlapsAsWritten(a: Body, b: Body, dist: real)
  {
    dist - Sigma(a, b) <= Sigma(a, b)
  }

  /**
   * `overlap` as written, the test the world applies, stated without the
   * root: the gap dist - sigma is at most sigma exactly when
   * dist^2 <= (2 sigma)^2 (see GapAtMostSigmaIsAsWritten).
   */
  predicate GapAtMostSigma(a: Body, b: Body)
  {
    DrDr(a, b) <= (2.0 * Sigma(a, b)) * (2.0 * Sigma(a, b))
  }

  lemma GapAtMostSigmaIsAsWritten(a: Body, b: Body, dist: real)
    requires IsRootOf(dist, DrDr(a, b)) && Sigma(a, b) >= 0.0
    ensures GapAtMostSigma(a, b) <==> OverlapsAsWritten(a, b, dist)
  {
    var sg2 := 2.0 * Sigma(a, b);
    if GapAtMostSigma(a, b) {
      SmallerSquareIsSmaller(dist, sg2);
    }
    if dist <= sg2 {
      SquareIsMonotone(dist, sg2);
    }
  }

  /** The written test reports every pair the documented test does, and more. */
  lemma OverlapsIsGapAtMostSigma(a: Body, b: Body)
    requires Sigma(a, b) >= 0.0 && Overlaps(a, b)
    ensures GapAtMostSigma(a, b)
  {
    var sg := Sigma(a, b);
    assert sg * sg <= (2.0 * sg) * (2.0 * sg) by {
      SquareIsMonotone(sg, 2.0 * sg);
    }
  }

  lemma OverlapsIsGapAtMostZero(a: Body, b: Body, dist: real)
    requires IsRootOf(dist, DrDr(a, b)) && Sigma(a, b) >= 0.0
    ensures Overlaps(a, b) <==> dist - Sigma(a, b) <= 0.0
  {
    var sg := Sigma(a, b);
    if Overlaps(a, b) {
      SmallerSquareIsSmaller(dist, sg);
    }
    if dist <= sg {
      SquareIsMonotone(dist, sg);
    }
  }

  lemma OverlapsIsReflexive(a: Body)
    ensures Overlaps(a, a)
  {
  }

  lemma OverlapsIsSymmetric(a: Body, b: Body)
    ensures Overlaps(a, b) <==> Overlaps(b, a)
  {
    PairQuantitiesAreSymmetric(a, b);
  }

  /**
   * The written test reports two radius-10 bodies whose centres are 30
   * apart (a gap of 10) as overlapping; the documented test does not.
   */
  lemma OverlapsAsWrittenReportsSeparatedBodies()
    ensures OverlapsAsWritten(Body(0.0, 0.0, 0.0, 0.0, 10.0), Body(30.0, 0.0, 0.0, 0.0, 10.0), 30.0)
    ensures IsRootOf(30.0, DrDr(Body(0.0, 0.0, 0.0, 0.0, 10.0), Body(30.0, 0.0, 0.0, 0.0, 10.0)))
    ensures !Overlaps(Body(0.0, 0.0, 0.0, 0.0, 10.0), Body(30.0, 0.0, 0.0, 0.0, 10.0))
    ensures GapAtMostSigma(Body(0.0, 0.0, 0.0, 0.0, 10.0), Body(30.0, 0.0, 0.0, 0.0, 10.0))
  {
  }

  // Walls.

  /**
   * The time one coordinate needs to reach the wall it moves toward, in
   * the triple form of `getTimeToBoundaryCollision`: toward the low wall
   * when the velocity is not positive, otherwise toward the high wall;
   * |distance / velocity| in Java doubles, whose division by zero gives an
   * infinity, or NaN when the distance is zero too.
   */
  function AxisTime(p: real, v: real, radius: real, size: real): (r: Time)
    ensures v == 0.0 ==> !r.Finite?
  {
    var distance := if v <= 0.0 then p - radius else size - p - radius;
    if v == 0.0 then (if distance == 0.0 then Undefined else Infinite)
    else if distance / v < 0.0 then Finite(-(distance / v))
    else Finite(distance / v)
  }

  /** `getTimeToBoundaryCollision`: the earlier of the vertical and the horizontal time. */
  function BoundaryTime(b: Body, width: real, height: real): Time
  {
    Min(AxisTime(b.y, b.vy, b.radius, height), AxisTime(b.x, b.vx, b.radius, width))
  }

  /**
   * A moving coordinate of a body that lies within its walls reaches the
   * wall it moves toward at the predicted time, and that time is not in the past.
   */
  lemma AxisTimeReachesWall(p: real, v: real, radius: real, size: real)
    requires v != 0.0
    requires radius <= p <= size - radius
    ensures AxisTime(p, v, radius, size).Finite?
    ensures AxisTime(p, v, radius, size).t >= 0.0
    ensures v < 0.0 ==> p + v * AxisTime(p, v, radius, size).t == radius
    ensures v > 0.0 ==> p + v * AxisTime(p, v, radius, size).t == size - radius
  {
    var distance := if v <= 0.0 then p - radius else size - p - radius;
    assert distance >= 0.0;
    var q := distance / v;
    assert q * v == distance;
    if v < 0.0 {
      assert q <= 0.0;
    } else {
      assert q >= 0.0;
    }
  }

  /** The wall test of `resolveBoundaryCollision`: touching the left or the right wall. */
  predicate AtSideWall(b: Body, width: real)
  {
    b.x == b.radius || b.x == width - b.radius
  }

  /**
   * `resolveBoundaryCollision`: the horizontal velocity flips at a side
   * wall, otherwise the vertical one.
   */
  function Reflected(b: Body, width: real): (r: Body)
    ensures r.x == b.x && r.y == b.y && r.radius == b.radius
    ensures AtSideWall(b, width) ==> r.vx == -b.vx && r.vy == b.vy
    ensures !AtSideWall(b, width) ==> r.vx == b.vx && r.vy == -b.vy
  {
    if AtSideWall(b, width) then b.(vx := -b.vx) else b.(vy := -b.vy)
  }

  /** Reflecting twice at the same wall restores the body. */
  lemma ReflectedIsAnInvolution(b: Body, width: real)
    ensures Reflected(Reflected(b, width), width) == b
  {
  }

  /** Reflection keeps the speed. */
  lemma ReflectedKeepsSpeed(b: Body, width: real)
    ensures Reflected(b, width).vx * Reflected(b, width).vx + Reflected(b, width).vy * Reflected(b, width).vy
         == b.vx * b.vx + b.vy * b.vy
  {
  }

  // The elastic impulse exchange of resolveCollision.

  /** The impulse J of `resolveCollision` for masses ma and mb. */
  function Impulse(a: Body, ma: real, b: Body, mb: real): real
    requires ma > 0.0 && mb > 0.0 && Sigma(a, b) != 0.0
  {
    (2.0 * ma * mb * DvDr(a, b)) / (Sigma(a, b) * (ma + mb))
  }

  /** The components J * dx / sigma and J * dy / sigma of the impulse. */
  function ImpulseX(a: Body, ma: real, b: Body, mb: real): real
    requires ma > 0.0 && mb > 0.0 && Sigma(a, b) != 0.0
  {
    Impulse(a, ma, b, mb) * (b.x - a.x) / Sigma(a, b)
  }

  function ImpulseY(a: Body, ma: real, b: Body, mb: real): real
    requires ma > 0.0 && mb > 0.0 && Sigma(a, b) != 0.0
  {
    Impulse(a, ma, b, mb) * (b.y - a.y) / Sigma(a, b)
  }

  /**
   * `resolveCollision` before its speed clamp: a gains the impulse divided
   * by its mass, b loses it divided by its own. Positions do not change.
   */
  function Bounce(a: Body, ma: real, b: Body, mb: real): (r: (Body, Body))
    requires ma > 0.0 && mb > 0.0 && Sigma(a, b) != 0.0
    ensures r.0.x == a.x && r.0.y == a.y && r.0.radius == a.radius
    ensures r.1.x == b.x && r.1.y == b.y && r.1.radius == b.radius
  {
    var jx, jy := ImpulseX(a, ma, b, mb), ImpulseY(a, ma, b, mb);
    (a.(vx := a.vx + jx / ma, vy := a.vy + jy / ma),
     b.(vx := b.vx - jx / mb, vy := b.vy - jy / mb))
  }

  /** The exchange conserves momentum in both directions. */
  lemma BounceConservesMomentum(a: Body, ma: real, b: Body, mb: real)
    requires ma > 0.0 && mb > 0.0 && Sigma(a, b) != 0.0
    ensures ma * Bounce(a, ma, b, mb).0.vx + mb * Bounce(a, ma, b, mb).1.vx == ma * a.vx + mb * b.vx
    ensures ma * Bounce(a, ma, b, mb).0.vy + mb * Bounce(a, ma, b, mb).1.vy == ma * a.vy + mb * b.vy
  {
    var jx, jy := ImpulseX(a, ma, b, mb), ImpulseY(a, ma, b, mb);
    assert ma * (a.vx + jx / ma) == ma * a.vx + jx;
    assert mb * (b.vx - jx / mb) == mb * b.vx - jx;
    assert ma * (a.vy + jy / ma) == ma * a.vy + jy;
    assert mb * (b.vy - jy / mb) == mb * b.vy - jy;
  }

  lemma ScaledAlong(j: real, rx: real, ry: real, s: real, m: real)
    requires s != 0.0 && m != 0.0
    ensures ((j * rx / s) / m) * ry == ((j * ry / s) / m) * rx
  {
    var c := (j / s) / m;
    calc {
      ((j * rx / s) / m) * ry;
      (c * rx) * ry;
      (c * ry) * rx;
      ((j * ry / s) / m) * rx;
    }
  }

  /** The velocity change of each body is given by the impulse components. */
  lemma BounceChangesVelocities(a: Body, ma: real, b: Body, mb: real)
    requires ma > 0.0 && mb > 0.0 && Sigma(a, b) != 0.0
    ensures Bounce(a, ma, b, mb).0.vx - a.vx == ImpulseX(a, ma, b, mb) / ma
    ensures Bounce(a, ma, b, mb).0.vy - a.vy == ImpulseY(a, ma, b, mb) / ma
    ensures Bounce(a, ma, b, mb).1.vx - b.vx == -(ImpulseX(a, ma, b, mb) / mb)
    ensures Bounce(a, ma, b, mb).1.vy - b.vy == -(ImpulseY(a, ma, b, mb) / mb)
  {
  }

  /** An impulse component divided by a mass is parallel to the centre line. */
  lemma ImpulseIsAlongCentreLine(a: Body, ma: real, b: Body, mb: real, m: real)
    requires ma > 0.0 && mb > 0.0 && Sigma(a, b) != 0.0 && m != 0.0
    ensures (ImpulseX(a, ma, b, mb) / m) * (b.y - a.y) == (ImpulseY(a, ma, b, mb) / m) * (b.x - a.x)
  {
    ScaledAlong(Impulse(a, ma, b, mb), b.x - a.x, b.y - a.y, Sigma(a, b), m);
  }

  /** The velocity changes are parallel to the line through the centres. */
  lemma BounceActsAlongCentreLine(a: Body, ma: real, b: Body, mb: real)
    requires ma > 0.0 && mb > 0.0 && Sigma(a, b) != 0.0
    ensures (Bounce(a, ma, b, mb).0.vx - a.vx) * (b.y - a.y) == (Bounce(a, ma, b, mb).0.vy - a.vy) * (b.x - a.x)
    ensures (Bounce(a, ma, b, mb).1.vx - b.vx) * (b.y - a.y) == (Bounce(a, ma, b, mb).1.vy - b.vy) * (b.x - a.x)
  {
    BounceChangesVelocities(a, ma, b, mb);
    ImpulseIsAlongCentreLine(a, ma, b, mb, ma);
    ImpulseIsAlongCentreLine(a, ma, b, mb, -mb);
    assert -(ImpulseX(a, ma, b, mb) / mb) == ImpulseX(a, ma, b, mb) / -mb;
    assert -(ImpulseY(a, ma, b, mb) / mb) == ImpulseY(a, ma, b, mb) / -mb;
  }

  // Energy: the exchange is elastic for bodies that touch.

  /** Twice the kinetic energy of two bodies with masses ma and mb. */
  function Energy(a: Body, ma: real, b: Body, mb: real): real
  {
    ma * (a.vx * a.vx + a.vy * a.vy) + mb * (b.vx * b.vx + b.vy * b.vy)
  }

  lemma EnergyAxis(v: real, w: real, j: real, ma: real, mb: real)
    requires ma > 0.0 && mb > 0.0
    ensures ma * ((v + j / ma) * (v + j / ma)) + mb * ((w - j / mb) * (w - j / mb))
         == ma * (v * v) + mb * (w * w) - 2.0 * j * (w - v) + (j * j) * (1.0 / ma + 1.0 / mb)
  {
    var p, q := j / ma, j / mb;
    assert ma * p == j;
    assert mb * q == j;
    calc {
      ma * ((v + p) * (v + p));
      ma * (v * v) + 2.0 * v * (ma * p) + (ma * p) * p;
      ma * (v * v) + 2.0 * v * j + j * p;
    }
    calc {
      mb * ((w - q) * (w - q));
      mb * (w * w) - 2.0 * w * (mb * q) + (mb * q) * q;
      mb * (w * w) - 2.0 * w * j + j * q;
    }
    assert j * p + j * q == (j * j) * (1.0 / ma + 1.0 / mb);
  }

  lemma ImpulseTimesInverseMass(d: real, s: real, ma: real, mb: real)
    requires ma > 0.0 && mb > 0.0 && s != 0.0
    ensures ((2.0 * ma * mb * d) / (s * (ma + mb))) * (1.0 / ma + 1.0 / mb) == 2.0 * d / s
  {
    var j := (2.0 * ma * mb * d) / (s * (ma + mb));
    assert 1.0 / ma + 1.0 / mb == (ma + mb) / (ma * mb);
    assert j * (s * (ma + mb)) == 2.0 * ma * mb * d;
    calc {
      j * ((ma + mb) / (ma * mb));
      (j * (ma + mb)) / (ma * mb);
      (j * (s * (ma + mb))) / (s * (ma * mb));
      (2.0 * ma * mb * d) / (s * (ma * mb));
      2.0 * d / s;
    }
  }

  lemma ComponentsDot(j: real, rx: real, ry: real, dx: real, dy: real, s: real)
    requires s != 0.0
    ensures (j * rx / s) * dx + (j * ry / s) * dy == j * (dx * rx + dy * ry) / s
  {
    var c := j / s;
    calc {
      (j * rx / s) * dx + (j * ry / s) * dy;
      (c * rx) * dx + (c * ry) * dy;
      c * (dx * rx + dy * ry);
      j * (dx * rx + dy * ry) / s;
    }
  }

  lemma ComponentsSquare(j: real, rx: real, ry: real, s: real)
    requires s != 0.0 && rx * rx + ry * ry == s * s
    ensures (j * rx / s) * (j * rx / s) + (j * ry / s) * (j * ry / s) == j * j
  {
    var c := j / s;
    calc {
      (j * rx / s) * (j * rx / s) + (j * ry / s) * (j * ry / s);
      (c * rx) * (c * rx) + (c * ry) * (c * ry);
      (c * c) * (rx * rx + ry * ry);
      (c * c) * (s * s);
      (c * s) * (c * s);
      j * j;
    }
  }

  lemma ImpulseDotRelativeVelocity(a: Body, ma: real, b: Body, mb: real)
    requires ma > 0.0 && mb > 0.0 && Sigma(a, b) != 0.0
    ensures ImpulseX(a, ma, b, mb) * (b.vx - a.vx) + ImpulseY(a, ma, b, mb) * (b.vy - a.vy)
         == Impulse(a, ma, b, mb) * DvDr(a, b) / Sigma(a, b)
  {
    ComponentsDot(Impulse(a, ma, b, mb), b.x - a.x, b.y - a.y, b.vx - a.vx, b.vy - a.vy, Sigma(a, b));
  }

  /** The energy after the exchange in terms of the impulse components. */
  lemma BounceEnergyExpansion(a: Body, ma: real, b: Body, mb: real)
    requires ma > 0.0 && mb > 0.0 && Sigma(a, b) != 0.0
    ensures Energy(Bounce(a, ma, b, mb).0, ma, Bounce(a, ma, b, mb).1, mb)
         == Energy(a, ma, b, mb)
            - 2.0 * (ImpulseX(a, ma, b, mb) * (b.vx - a.vx) + ImpulseY(a, ma, b, mb) * (b.vy - a.vy))
            + (ImpulseX(a, ma, b, mb) * ImpulseX(a, ma, b, mb) + ImpulseY(a, ma, b, mb) * ImpulseY(a, ma, b, mb))
              * (1.0 / ma + 1.0 / mb)
  {
    var jx, jy := ImpulseX(a, ma, b, mb), ImpulseY(a, ma, b, mb);
    EnergyAxis(a.vx, b.vx, jx, ma, mb);
    EnergyAxis(a.vy, b.vy, jy, ma, mb);
  }

  lemma ImpulseComponentsSquare(a: Body, ma: real, b: Body, mb: real)
    requires ma > 0.0 && mb > 0.0 && Sigma(a, b) != 0.0
    requires DrDr(a, b) == Sigma(a, b) * Sigma(a, b)
    ensures ImpulseX(a, ma, b, mb) * ImpulseX(a, ma, b, mb) + ImpulseY(a, ma, b, mb) * ImpulseY(a, ma, b, mb)
         == Impulse(a, ma, b, mb) * Impulse(a, ma, b, mb)
  {
    ComponentsSquare(Impulse(a, ma, b, mb), b.x - a.x, b.y - a.y, Sigma(a, b));
  }

  lemma ImpulseSquaredTimesInverseMass(a: Body, ma: real, b: Body, mb: real)
    requires ma > 0.0 && mb > 0.0 && Sigma(a, b) != 0.0
    ensures (Impulse(a, ma, b, mb) * Impulse(a, ma, b, mb)) * (1.0 / ma + 1.0 / mb)
         == Impulse(a, ma, b, mb) * (2.0 * DvDr(a, b) / Sigma(a, b))
  {
    var j := Impulse(a, ma, b, mb);
    ImpulseTimesInverseMass(DvDr(a, b), Sigma(a, b), ma, mb);
    assert (j * j) * (1.0 / ma + 1.0 / mb) == j * (j * (1.0 / ma + 1.0 / mb));
  }

  lemma EnergyBalances(e0: real, e1: real, jx: real, jy: real, dx: real, dy: real, j: real, d: real, s: real, k: real)
    requires s != 0.0
    requires e1 == e0 - 2.0 * (jx * dx + jy * dy) + (jx * jx + jy * jy) * k
    requires jx * dx + jy * dy == j * d / s
    requires jx * jx + jy * jy == j * j
    requires (j * j) * k == j * (2.0 * d / s)
    ensures e1 == e0
  {
    assert j * (2.0 * d / s) == 2.0 * (j * d / s);
  }

  /**
   * Bodies that touch (centre distance equal to the sum of the radii, the
   * situation at a predicted collision time) keep their total kinetic energy.
   */
  lemma BounceConservesEnergy(a: Body, ma: real, b: Body, mb: real)
    requires ma > 0.0 && mb > 0.0 && Sigma(a, b) != 0.0
    requires DrDr(a, b) == Sigma(a, b) * Sigma(a, b)
    ensures Energy(Bounce(a, ma, b, mb).0, ma, Bounce(a, ma, b, mb).1, mb) == Energy(a, ma, b, mb)
  {
    var j, sg := Impulse(a, ma, b, mb), Sigma(a, b);
    var jx, jy := ImpulseX(a, ma, b, mb), ImpulseY(a, ma, b, mb);
    var r := Bounce(a, ma, b, mb);
    var e0, e1 := Energy(a, ma, b, mb), Energy(r.0, ma, r.1, mb);
    var dx, dy, d, k := b.vx - a.vx, b.vy - a.vy, DvDr(a, b), 1.0 / ma + 1.0 / mb;
    assert e1 == e0 - 2.0 * (jx * dx + jy * dy) + (jx * jx + jy * jy) * k by {
      BounceEnergyExpansion(a, ma, b, mb);
    }
    assert jx * dx + jy * dy == j * d / sg by {
      ImpulseDotRelativeVelocity(a, ma, b, mb);
    }
    assert jx * jx + jy * jy == j * j by {
      ImpulseComponentsSquare(a, ma, b, mb);
    }
    assert (j * j) * k == j * (2.0 * d / sg) by {
      ImpulseSquaredTimesInverseMass(a, ma, b, mb);
    }
    EnergyBalances(e0, e1, jx, jy, dx, dy, j, d, sg, k);
  }
}
