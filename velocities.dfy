/**
 * A velocity with a per-object speed limit (asteroids.model.Velocity).
 * The limit never exceeds the speed of light; each component is validated
 * against it on its own.
 */
module Velocities {
  import opened Numerics

  /** The limit a Velocity stores for a requested one: NaN or above light speed becomes light speed. */
  function EffectiveMax(requested: Double): (r: real)
    ensures r <= SpeedOfLight
    ensures requested.Num? && requested.val <= SpeedOfLight ==> r == requested.val
    ensures requested.NaN? ==> r == SpeedOfLight
  {
    if requested.NaN? || requested.val > SpeedOfLight then SpeedOfLight else requested.val
  }

  class Velocity {
    var xVelocity: Double
    var yVelocity: Double
    const maxVelocity: real

    /** The limit is at most the speed of light (it may be negative: the constructor keeps such a limit). */
    predicate Valid()
    {
      maxVelocity <= SpeedOfLight
    }

    /** `Velocity(vx, vy, max)`: the components are stored exactly as given. */
    constructor(vx: Double, vy: Double, max: Double)
      ensures Valid() && maxVelocity == EffectiveMax(max)
      ensures xVelocity == vx && yVelocity == vy
    {
      maxVelocity := EffectiveMax(max);
      xVelocity := vx;
      yVelocity := vy;
    }

    /** `Velocity(vx, vy)`, which delegates with the speed of light as limit. */
    constructor AtLightSpeed(vx: Double, vy: Double)
      ensures Valid() && maxVelocity == SpeedOfLight
      ensures xVelocity == vx && yVelocity == vy
    {
      maxVelocity := EffectiveMax(Num(SpeedOfLight));
      xVelocity := vx;
      yVelocity := vy;
    }

    /** `isValidVelocity`: a number within [-max, max]. */
    predicate IsValidVelocity(v: Double)
    {
      v.Num? && v.val <= maxVelocity && v.val >= -maxVelocity
    }

    /**
     * `getTotalVelocity(x, y)`: the norm of the STORED components; the two
     * arguments play no part (the Java method ignores them).
     */
    function TotalVelocity(m: MathFns, ignoredX: Double, ignoredY: Double): (r: Double)
      reads this
      ensures r.NaN? <==> xVelocity.NaN? || yVelocity.NaN?
    {
      if xVelocity.NaN? || yVelocity.NaN? then NaN
      else Num(m.sqrt(xVelocity.val * xVelocity.val + yVelocity.val * yVelocity.val))
    }

    /** `setVelocity`: each component is taken only if it is valid on its own. */
    method SetVelocity(vx: Double, vy: Double)
      modifies this
      ensures xVelocity == (if IsValidVelocity(vx) then vx else old(xVelocity))
      ensures yVelocity == (if IsValidVelocity(vy) then vy else old(yVelocity))
      ensures old(IsValidVelocity(xVelocity)) ==> IsValidVelocity(xVelocity)
      ensures old(IsValidVelocity(yVelocity)) ==> IsValidVelocity(yVelocity)
    {
      if IsValidVelocity(vx) {
        xVelocity := vx;
      }
      if IsValidVelocity(vy) {
        yVelocity := vy;
      }
    }
  }

  /** A component a Velocity accepts never exceeds light speed in magnitude. */
  lemma AcceptedComponentIsBelowLight(v: Velocity, d: Double)
    requires v.Valid() && v.IsValidVelocity(d)
    ensures -SpeedOfLight <= d.val <= SpeedOfLight
  {
  }

  /** A negative limit (which the constructor lets through) accepts no component at all. */
  lemma NegativeLimitAcceptsNothing(v: Velocity, d: Double)
    requires v.maxVelocity < 0.0
    ensures !v.IsValidVelocity(d)
  {
  }

  /** The total velocity is the same whatever arguments it is handed. */
  lemma TotalVelocityIgnoresArguments(v: Velocity, m: MathFns, x1: Double, y1: Double, x2: Double, y2: Double)
    ensures v.TotalVelocity(m, x1, y1) == v.TotalVelocity(m, x2, y2)
  {
  }
}
