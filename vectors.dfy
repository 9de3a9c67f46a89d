/**
 * The two-dimensional vector of the asteroids model (asteroids.model.Vector).
 * Its arithmetic returns new values, so it is a datatype `Vec` with
 * functions; `setVector`, the one operation that overwrites a vector in
 * place, lives on the class `Vector`, whose state is a `Vec`.
 */
module Vectors {
  import opened Numerics

  datatype Vec = Vec(x: real, y: real)

  /** What `equals(Object)` may be handed: null, a vector, or an object of another class. */
  datatype Other = NullRef | AVector(v: Vec) | NotAVector

  /** `new Vector(x, y)`: a NaN component is refused. */
  function Make(x: Double, y: Double): (r: Outcome<Vec>)
    ensures r.Fail? <==> x.NaN? || y.NaN?
    ensures r.Fail? ==> r.error == IllegalArgument
    ensures r.Ok? ==> r.value.x == x.val && r.value.y == y.val
  {
    if x.NaN? || y.NaN? then Fail(IllegalArgument) else Ok(Vec(x.val, y.val))
  }

  /** `new Vector()`, which delegates to `this(0, 0)`. */
  function Origin(): Vec
  {
    Vec(0.0, 0.0)
  }

  lemma OriginIsMakeOfZeroes()
    ensures Make(Num(0.0), Num(0.0)) == Ok(Origin())
  {
  }

  /** `add`: a null argument gives back the receiver. */
  function Add(a: Vec, b: Option<Vec>): (r: Vec)
    ensures b.None? ==> r == a
  {
    match b
    case None => a
    case Some(v) => Vec(a.x + v.x, a.y + v.y)
  }

  /** `subtract(b)`: null gives back the receiver, otherwise `add` of the negated argument. */
  function Subtract(a: Vec, b: Option<Vec>): (r: Vec)
    ensures b.None? ==> r == a
    ensures b.Some? ==> r == Add(a, Some(Vec(-b.value.x, -b.value.y)))
  {
    match b
    case None => a
    case Some(v) => Add(a, Some(Vec(-v.x, -v.y)))
  }

  /** `multiply(Vector)`, the dot product; a null argument is an IllegalArgumentException. */
  function Dot(a: Vec, b: Option<Vec>): (r: Outcome<real>)
    ensures r.Fail? <==> b.None?
    ensures r.Fail? ==> r.error == IllegalArgument
  {
    match b
    case None => Fail(IllegalArgument)
    case Some(v) => Ok(a.x * v.x + a.y * v.y)
  }

  /** `multiply(double)`: a NaN factor gives back the receiver. */
  function Scale(a: Vec, c: Double): (r: Vec)
    ensures c.NaN? ==> r == a
  {
    match c
    case NaN => a
    case Num(k) => Vec(a.x * k, a.y * k)
  }

  /** `equals`: false for null and non-vectors, component-wise (fuzzy, here exact) equality otherwise. */
  predicate Equals(a: Vec, other: Other)
  {
    match other
    case NullRef => false
    case NotAVector => false
    case AVector(v) => a.x == v.x && a.y == v.y
  }

  lemma AddCommutes(a: Vec, b: Vec)
    ensures Add(a, Some(b)) == Add(b, Some(a))
  {
  }

  /** Subtracting and adding back the same vector restores the receiver. */
  lemma SubtractThenAdd(a: Vec, b: Vec)
    ensures Add(Subtract(a, Some(b)), Some(b)) == a
  {
  }

  lemma DotIsSymmetric(a: Vec, b: Vec)
    ensures Dot(a, Some(b)).Ok? && Dot(a, Some(b)).value == Dot(b, Some(a)).value
  {
  }

  /** The dot product is linear in a scaled argument: (k a) . b == k (a . b). */
  lemma DotOfScaled(a: Vec, b: Vec, k: real)
    ensures Dot(Scale(a, Num(k)), Some(b)).value == k * Dot(a, Some(b)).value
  {
    calc {
      Dot(Scale(a, Num(k)), Some(b)).value;
      (a.x * k) * b.x + (a.y * k) * b.y;
      k * (a.x * b.x) + k * (a.y * b.y);
      k * Dot(a, Some(b)).value;
    }
  }

  lemma EqualsIsReflexive(a: Vec)
    ensures Equals(a, AVector(a))
  {
  }

  lemma EqualsIsSymmetric(a: Vec, b: Vec)
    ensures Equals(a, AVector(b)) <==> Equals(b, AVector(a))
  {
  }

  /** With exact comparisons, `equals` on vectors is value equality. */
  lemma EqualsIsValueEquality(a: Vec, b: Vec)
    ensures Equals(a, AVector(b)) <==> a == b
  {
  }

  /** A vector object whose coordinates can be overwritten by `setVector`. */
  class Vector {
    var xpos: real
    var ypos: real

    function Value(): Vec
      reads this
    {
      Vec(xpos, ypos)
    }

    constructor(v: Vec)
      ensures Value() == v
    {
      xpos := v.x;
      ypos := v.y;
    }

    /** `setVector`: copy both coordinates; a null argument fails and changes nothing. */
    method SetVector(other: Vector?) returns (r: Outcome<()>)
      modifies this
      ensures other == null ==> r == Fail(IllegalArgument) && Value() == old(Value())
      ensures other != null ==> r == Ok(()) && Value() == old(other.Value())
    {
      if other == null {
        return Fail(IllegalArgument);
      }
      var nx, ny := other.xpos, other.ypos;
      xpos := nx;
      ypos := ny;
      return Ok(());
    }
  }
}
