/**
 * Shared vocabulary of the asteroids model: Java doubles that may be NaN,
 * times that may be infinite, the exceptions the simulation raises, the
 * numeric constants, and the library routines (square root, sine, cosine)
 * that the model takes as parameters instead of computing.
 */
module Numerics {

  datatype Option<T> = None | Some(value: T)

  /** The exceptions the Java code throws, plus two outcomes of the model itself. */
  datatype Error =
    | IllegalArgument     // IllegalArgumentException
    | NullPointer         // NullPointerException
    | IllegalObject       // IllegalObjectException (World admission)
    | ClassCast           // ClassCastException in the interpreter: a wrong value tag
    | Runtime             // RuntimeException (Collision.evolve overshoot)
    | IndexOutOfBounds    // List.get with a bad index
    | ConcurrentModification // a HashSet changed under its own iterator
    | NotANumber          // Java arithmetic would produce NaN or an infinity here
    | Diverges            // the Java code loops forever here

  datatype Outcome<T> = Ok(value: T) | Fail(error: Error)

  /** A Java double as far as the guards of the source can tell it apart: a number or NaN. */
  datatype Double = Num(val: real) | NaN

  /**
   * A duration as computed by the collision routines: a finite number,
   * positive infinity, or NaN (`Undefined`, the value of 0.0/0.0).
   */
  datatype Time = Finite(t: real) | Infinite | Undefined

  /** Java's `<` on doubles: infinity is above every number, NaN compares false with everything. */
  predicate Less(a: Time, b: Time)
  {
    match (a, b)
    case (Finite(s), Finite(t)) => s < t
    case (Finite(_), Infinite) => true
    case _ => false
  }

  /** Java's `a > t` for a finite `t`. */
  predicate Exceeds(a: Time, t: real)
  {
    match a
    case Finite(s) => s > t
    case Infinite => true
    case Undefined => false
  }

  /** `Math.min` on doubles: NaN if either argument is NaN. */
  function Min(a: Time, b: Time): (r: Time)
    ensures r.Undefined? <==> a.Undefined? || b.Undefined?
    ensures !r.Undefined? ==> (r == a || r == b) && !Less(a, r) && !Less(b, r)
  {
    if a.Undefined? || b.Undefined? then Undefined
    else if Less(b, a) then b
    else a
  }

  /** The value of `Math.PI`. */
  const Pi: real := 3.141592653589793
  const TwoPi: real := 2.0 * Pi

  /** `Double.MAX_VALUE`, (2 - 2^-52) * 2^1023, written out exactly. */
  const MaxDouble: real := 179769313486231570814527423731704356798070567525844996598917476803157260780028538760589558632766878171540458953514382464234321326889464182768467546703537516986049910576551282076245490090389328944075868508455133942304583236903222948165808559332123348274797826204144723168738177180919299881250404026184124858368.0

  /**
   * The tolerance `Util.EPSILON`; the model only relies on it being
   * positive (fuzzy comparisons themselves are modelled as exact ones).
   */
  const Epsilon: real := 0.0001

  /** Speed of light, the speed limit of every object (Velocity.SPEED_OF_LIGHT). */
  const SpeedOfLight: real := 300000.0

  /**
   * `Math.sqrt`, `Math.cos` and `Math.sin`, passed in by the caller. Lemmas
   * that need a property of a routine state it as a precondition on the
   * value used.
   */
  datatype MathFns = MathFns(sqrt: real -> real, cos: real -> real, sin: real -> real)

  predicate IsRootOf(s: real, d: real)
  {
    s >= 0.0 && s * s == d
  }
}
