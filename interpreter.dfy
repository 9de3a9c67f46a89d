/**
 * The evaluation of expressions and the execution of statements of a ship
 * program (the `getValue` and `execute` methods of asteroids.model.programs),
 * over the abstract syntax of module Programs with space objects as the
 * entities. Java's exceptions are the `Fail` outcomes: a cast to the wrong
 * holder class is ClassCast, a null dereference NullPointer. Evaluation is
 * free of side effects and so a function; execution changes the program,
 * its ship and the ship's world and so is made of methods.
 */
module Interpreter {
  import opened Numerics
  import opened Angles
  import opened Programs
  import opened Physics
  import opened Universe

  type Val = Value<SpaceObject?>
  type Ex = Expr<SpaceObject?>
  type St = Stmt<SpaceObject?>

  /** The space objects an expression names by an EntityLiteral. */
  function Literals(e: Ex): set<SpaceObject>
  {
    match e
    case EntityLiteral(o) => if o == null then {} else {o}
    case Add(a, b) => Literals(a) + Literals(b)
    case Substraction(a, b) => Literals(a) + Literals(b)
    case Multiplication(a, b) => Literals(a) + Literals(b)
    case Division(a, b) => Literals(a) + Literals(b)
    case GetRadius(a) => Literals(a)
    case GetX(a) => Literals(a)
    case GetY(a) => Literals(a)
    case LessThanOrEqualTo(a, b) => Literals(a) + Literals(b)
    case GreaterThan(a, b) => Literals(a) + Literals(b)
    case Inequality(a, b) => Literals(a) + Literals(b)
    case Equality(a, b) => Literals(a) + Literals(b)
    case TrueOrFalse(c, a, b) => Literals(c) + Literals(a) + Literals(b)
    case _ => {}
  }

  /** The cast `(DoubleT) v` followed by `getValue()`. */
  function AsNumber(r: Outcome<Val>): Outcome<real>
  {
    match r
    case Fail(err) => Fail(err)
    case Ok(v) => if v.DoubleT? then Ok(v.d) else Fail(ClassCast)
  }

  /** Two operands evaluated left to right: the first failure wins. */
  function Both(x: Outcome<real>, y: Outcome<real>): Outcome<(real, real)>
  {
    if x.Fail? then Fail(x.error) else if y.Fail? then Fail(y.error) else Ok((x.value, y.value))
  }

  /** The operators that cast both operands to DoubleT, applied to the two numbers. */
  function Arithmetic(e: Ex, operands: Outcome<(real, real)>): Outcome<Val>
    requires e.Add? || e.Substraction? || e.Multiplication? || e.Division? || e.LessThanOrEqualTo? || e.GreaterThan?
  {
    match operands
    case Fail(err) => Fail(err)
    case Ok((u, v)) =>
      match e
      case Add(_, _) => Ok(DoubleT(u + v))
      case Substraction(_, _) => Ok(DoubleT(u - v))
      case Multiplication(_, _) => Ok(DoubleT(u * v))
      case Division(_, _) => if v == 0.0 then Fail(NotANumber) else Ok(DoubleT(u / v))
      case LessThanOrEqualTo(_, _) => Ok(BooleanT(u <= v))
      case GreaterThan(_, _) => Ok(BooleanT(u > v))
  }

  /** GetRadius and GetY: the cast `(EntityT) v`, then the field of the entity. */
  function EntityField(e: Ex, r: Outcome<Val>): Outcome<Val>
    requires e.GetRadius? || e.GetY?
    reads if r.Ok? && r.value.EntityT? && r.value.e != null then {r.value.e} else {}
  {
    match r
    case Fail(err) => Fail(err)
    case Ok(v) =>
      if !v.EntityT? then Fail(ClassCast)
      else if v.e == null then Fail(NullPointer)
      else if e.GetRadius? then Ok(DoubleT(v.e.radius))
      else Ok(DoubleT(v.e.y))
  }

  /** Inequality: both operands are evaluated, and the comparison is made at the tag of the first. */
  function Differ(x: Outcome<Val>, y: Outcome<Val>): Outcome<Val>
  {
    if x.Fail? then Fail(x.error)
    else if y.Fail? then Fail(y.error)
    else if TagOf(x.value) != TagOf(y.value) then Fail(ClassCast)
    else Ok(BooleanT(x.value != y.value))
  }

  /**
   * `getValue()`. An entity it yields is the program's ship or one the
   * expression names (so the fields GetY and GetRadius read are in its
   * frame).
   */
  function Eval(e: Ex, p: Program): (r: Outcome<Val>)
    reads p, p.ship, Literals(e)
    ensures r.Ok? && r.value.EntityT? && r.value.e != null ==> r.value.e == p.ship || r.value.e in Literals(e)
    decreases e, 1
  {
    match e
    case DoubleLiteral(d) => Ok(DoubleT(d))
    case BooleanLiteral(b) => Ok(BooleanT(b))
    case Self => Ok(EntityT(p.ship))
    case Null => Ok(EntityT(null))
    case EntityLiteral(o) => Ok(EntityT(o))
    case Variable(name) =>
      if name !in p.globals then Fail(NullPointer)
      else if p.globals[name].DoubleT? then Ok(p.globals[name])
      else Fail(ClassCast)
    case GetDir =>
      if p.ship == null then Fail(NullPointer) else Ok(DoubleT(p.ship.angle))
    case GetRadius(_) => EvalNumber(e, p)
    case GetX(_) => EvalNumber(e, p)
    case GetY(_) => EvalNumber(e, p)
    case TrueOrFalse(_, _, _) => EvalNumber(e, p)
    case _ => EvalBinary(e, p)
  }

  /** The operators with two operands. None of them yields an entity. */
  function EvalBinary(e: Ex, p: Program): (r: Outcome<Val>)
    requires e.Add? || e.Substraction? || e.Multiplication? || e.Division? || e.LessThanOrEqualTo? || e.GreaterThan?
             || e.Inequality? || e.Equality?
    reads p, p.ship, Literals(e)
    ensures r.Ok? ==> !r.value.EntityT?
    decreases e, 0
  {
    if e.Inequality? then Differ(Eval(e.e1, p), Eval(e.e2, p))
    else if e.Equality? then
      if !IsDoubleExpression(e.e1) then Fail(ClassCast)
      else
        var x := AsNumber(Eval(e.e1, p));
        if x.Fail? then Fail(x.error)
        else if !IsDoubleExpression(e.e2) then Fail(ClassCast)
        else
          var y := AsNumber(Eval(e.e2, p));
          if y.Fail? then Fail(y.error) else Ok(BooleanT(x.value == y.value))
    else Arithmetic(e, Both(AsNumber(Eval(e.e1, p)), AsNumber(Eval(e.e2, p))))
  }

  /** GetRadius, GetX, GetY and TrueOrFalse, which yield a number. */
  function EvalNumber(e: Ex, p: Program): (r: Outcome<Val>)
    requires e.GetRadius? || e.GetX? || e.GetY? || e.TrueOrFalse?
    reads p, p.ship, Literals(e)
    ensures r.Ok? ==> r.value.DoubleT?
    decreases e, 0
  {
    match e
    case GetX(a) =>
      if !a.EntityLiteral? then Fail(ClassCast)
      else if a.entity == null then Fail(NullPointer)
      else assert a.entity in Literals(a); Ok(DoubleT(a.entity.x))
    case TrueOrFalse(c, a, b) =>
      var v := Eval(c, p);
      if v.Fail? then Fail(v.error)
      else if !v.value.BooleanT? then Fail(ClassCast)
      else
        var chosen := if v.value.b then AsNumber(Eval(a, p)) else AsNumber(Eval(b, p));
        if chosen.Fail? then Fail(chosen.error) else Ok(DoubleT(chosen.value))
    case GetRadius(a) => EntityField(e, Eval(a, p))
    case GetY(a) => EntityField(e, Eval(a, p))
  }

  /** The value of an expression has the holder class the expression declares. */
  lemma {:induction false} EvalHasDeclaredTag(e: Ex, p: Program)
    ensures Eval(e, p).Ok? ==> TagOf(Eval(e, p).value) == DeclaredTag(e)
  {
    if e.TrueOrFalse? {
      EvalHasDeclaredTag(e.cond, p);
    }
  }

  /** Add gives the same result whichever operand comes first, once it gives one. */
  lemma AddCommutes(a: Ex, b: Ex, p: Program)
    ensures Eval(Add(a, b), p).Ok? <==> Eval(Add(b, a), p).Ok?
    ensures Eval(Add(a, b), p).Ok? ==> Eval(Add(a, b), p) == Eval(Add(b, a), p)
  {
  }

  /** So does Multiplication. */
  lemma MultiplicationCommutes(a: Ex, b: Ex, p: Program)
    ensures Eval(Multiplication(a, b), p).Ok? <==> Eval(Multiplication(b, a), p).Ok?
    ensures Eval(Multiplication(a, b), p).Ok? ==> Eval(Multiplication(a, b), p) == Eval(Multiplication(b, a), p)
  {
    var x, y := AsNumber(Eval(a, p)), AsNumber(Eval(b, p));
    assert Eval(Multiplication(a, b), p) == Arithmetic(Multiplication(a, b), Both(x, y));
    assert Eval(Multiplication(b, a), p) == Arithmetic(Multiplication(b, a), Both(y, x));
    if x.Ok? && y.Ok? {
      var ab, ba := Eval(Multiplication(a, b), p), Eval(Multiplication(b, a), p);
      assert ab.value.d == x.value * y.value && ba.value.d == y.value * x.value;
      assert x.value * y.value == y.value * x.value;
    }
  }

  /** On the same operands GreaterThan fails exactly as LessThanOrEqualTo does, and otherwise negates it. */
  lemma GreaterThanNegatesLessThanOrEqualTo(a: Ex, b: Ex, p: Program)
    ensures Eval(GreaterThan(a, b), p).Ok? <==> Eval(LessThanOrEqualTo(a, b), p).Ok?
    ensures Eval(GreaterThan(a, b), p).Fail? ==> Eval(GreaterThan(a, b), p) == Eval(LessThanOrEqualTo(a, b), p)
    ensures Eval(GreaterThan(a, b), p).Ok? ==>
              && Eval(LessThanOrEqualTo(a, b), p).Ok? && Eval(LessThanOrEqualTo(a, b), p).value.BooleanT?
              && Eval(GreaterThan(a, b), p).value == BooleanT(!Eval(LessThanOrEqualTo(a, b), p).value.b)
  {
  }

  /** Equality is symmetric once it gives a result. */
  lemma EqualityIsSymmetric(a: Ex, b: Ex, p: Program)
    ensures Eval(Equality(a, b), p).Ok? <==> Eval(Equality(b, a), p).Ok?
    ensures Eval(Equality(a, b), p).Ok? ==> Eval(Equality(a, b), p) == Eval(Equality(b, a), p)
  {
  }

  /** So is Inequality. */
  lemma InequalityIsSymmetric(a: Ex, b: Ex, p: Program)
    ensures Eval(Inequality(a, b), p).Ok? <==> Eval(Inequality(b, a), p).Ok?
    ensures Eval(Inequality(a, b), p).Ok? ==> Eval(Inequality(a, b), p) == Eval(Inequality(b, a), p)
  {
  }

  /**
   * On two number expressions Inequality is the negation of Equality, and
   * both fail with the same error when either fails.
   */
  lemma InequalityNegatesEquality(a: Ex, b: Ex, p: Program)
    requires IsDoubleExpression(a) && IsDoubleExpression(b)
    ensures Eval(Inequality(a, b), p).Ok? <==> Eval(Equality(a, b), p).Ok?
    ensures Eval(Inequality(a, b), p).Fail? ==> Eval(Inequality(a, b), p) == Eval(Equality(a, b), p)
    ensures Eval(Inequality(a, b), p).Ok? ==>
              && Eval(Equality(a, b), p).Ok? && Eval(Equality(a, b), p).value.BooleanT?
              && Eval(Inequality(a, b), p).value == BooleanT(!Eval(Equality(a, b), p).value.b)
  {
    ExpressionClassesHaveTheirTag(a);
    ExpressionClassesHaveTheirTag(b);
    EvalHasDeclaredTag(a, p);
    EvalHasDeclaredTag(b, p);
  }

  /** GetDir reads the heading of a valid ship, which lies in [0, 2*pi]. */
  lemma GetDirIsInRange(p: Program)
    requires p.ship != null && p.ship.kind == ShipKind && p.ship.Valid()
    ensures Eval(GetDir, p).Ok? && Eval(GetDir, p).value.DoubleT?
    ensures Eval(GetDir, p).value.d == p.ship.angle && 0.0 <= Eval(GetDir, p).value.d <= TwoPi
  {
  }

  /**
   * A true condition gives the number of the first branch, and the second
   * branch is not evaluated: replacing it changes nothing.
   */
  lemma TrueOrFalseTakesFirstOnTrue(c: Ex, a: Ex, b: Ex, b2: Ex, p: Program)
    requires Eval(c, p) == Ok(BooleanT(true))
    ensures AsNumber(Eval(TrueOrFalse(c, a, b), p)) == AsNumber(Eval(a, p))
    ensures Eval(TrueOrFalse(c, a, b), p) == Eval(TrueOrFalse(c, a, b2), p)
  {
  }

  /** A false condition gives the number of the second branch, and the first is not evaluated. */
  lemma TrueOrFalseTakesSecondOnFalse(c: Ex, a: Ex, a2: Ex, b: Ex, p: Program)
    requires Eval(c, p) == Ok(BooleanT(false))
    ensures AsNumber(Eval(TrueOrFalse(c, a, b), p)) == AsNumber(Eval(b, p))
    ensures Eval(TrueOrFalse(c, a, b), p) == Eval(TrueOrFalse(c, a2, b), p)
  {
  }

  /**
   * The static reading of the casts: every operand has the holder class
   * its operator casts it to, GetX is applied to an entity literal and
   * Equality to number expressions.
   */
  predicate WellTyped(e: Ex)
  {
    match e
    case Add(a, b) => DeclaredTag(a) == DoubleTag && DeclaredTag(b) == DoubleTag && WellTyped(a) && WellTyped(b)
    case Substraction(a, b) => DeclaredTag(a) == DoubleTag && DeclaredTag(b) == DoubleTag && WellTyped(a) && WellTyped(b)
    case Multiplication(a, b) => DeclaredTag(a) == DoubleTag && DeclaredTag(b) == DoubleTag && WellTyped(a) && WellTyped(b)
    case Division(a, b) => DeclaredTag(a) == DoubleTag && DeclaredTag(b) == DoubleTag && WellTyped(a) && WellTyped(b)
    case GetRadius(a) => DeclaredTag(a) == EntityTag && WellTyped(a)
    case GetX(a) => a.EntityLiteral?
    case GetY(a) => DeclaredTag(a) == EntityTag && WellTyped(a)
    case LessThanOrEqualTo(a, b) => DeclaredTag(a) == DoubleTag && DeclaredTag(b) == DoubleTag && WellTyped(a) && WellTyped(b)
    case GreaterThan(a, b) => DeclaredTag(a) == DoubleTag && DeclaredTag(b) == DoubleTag && WellTyped(a) && WellTyped(b)
    case Inequality(a, b) => DeclaredTag(a) == DeclaredTag(b) && WellTyped(a) && WellTyped(b)
    case Equality(a, b) => IsDoubleExpression(a) && IsDoubleExpression(b) && WellTyped(a) && WellTyped(b)
    case TrueOrFalse(c, a, b) =>
      DeclaredTag(c) == BooleanTag && DeclaredTag(a) == DoubleTag && DeclaredTag(b) == DoubleTag
      && WellTyped(c) && WellTyped(a) && WellTyped(b)
    case _ => true
  }

  /** Every global holds a number, as Variable's cast demands. */
  predicate NumericGlobals(p: Program)
    reads p
  {
    forall x :: x in p.globals ==> p.globals[x].DoubleT?
  }

  /** A well-typed expression over numeric globals never fails a cast. */
  lemma {:induction false} WellTypedNeverFailsACast(e: Ex, p: Program)
    requires WellTyped(e) && NumericGlobals(p)
    ensures Eval(e, p) != Fail(ClassCast)
    decreases e, 1
  {
    match e
    case GetRadius(a) =>
      WellTypedNeverFailsACast(a, p);
      EvalHasDeclaredTag(a, p);
    case GetY(a) =>
      WellTypedNeverFailsACast(a, p);
      EvalHasDeclaredTag(a, p);
    case TrueOrFalse(c, a, b) =>
      OperandsNeverFailACast(c, a, p, e);
      WellTypedNeverFailsACast(b, p);
      EvalHasDeclaredTag(b, p);
    case Equality(a, b) =>
      ExpressionClassesHaveTheirTag(a);
      ExpressionClassesHaveTheirTag(b);
      OperandsNeverFailACast(a, b, p, e);
    case Add(a, b) => OperandsNeverFailACast(a, b, p, e);
    case Substraction(a, b) => OperandsNeverFailACast(a, b, p, e);
    case Multiplication(a, b) => OperandsNeverFailACast(a, b, p, e);
    case Division(a, b) => OperandsNeverFailACast(a, b, p, e);
    case LessThanOrEqualTo(a, b) => OperandsNeverFailACast(a, b, p, e);
    case GreaterThan(a, b) => OperandsNeverFailACast(a, b, p, e);
    case Inequality(a, b) => OperandsNeverFailACast(a, b, p, e);
    case _ =>
  }

  /** The induction hypothesis for two operands: neither fails a cast, and each value has its declared tag. */
  lemma {:induction false} OperandsNeverFailACast(a: Ex, b: Ex, p: Program, whole: Ex)
    requires a < whole && b < whole
    requires WellTyped(a) && WellTyped(b) && NumericGlobals(p)
    ensures Eval(a, p) != Fail(ClassCast) && Eval(b, p) != Fail(ClassCast)
    ensures Eval(a, p).Ok? ==> TagOf(Eval(a, p).value) == DeclaredTag(a)
    ensures Eval(b, p).Ok? ==> TagOf(Eval(b, p).value) == DeclaredTag(b)
    decreases whole, 0
  {
    WellTypedNeverFailsACast(a, p);
    WellTypedNeverFailsACast(b, p);
    EvalHasDeclaredTag(a, p);
    EvalHasDeclaredTag(b, p);
  }

  // ---------------------------------------------------------------------
  // Statements

  /** The members of the world of the program's ship: what a `fire` may change. */
  function Members(p: Program): seq<SpaceObject>
    reads p, p.ship, WorldOf(p.ship)
  {
    ObjectsOf(WorldOf(p.ship))
  }

  /** The program's ship, if any, followed by the members of its world. */
  function Crew(p: Program): seq<SpaceObject>
    reads p, p.ship, WorldOf(p.ship)
  {
    (if p.ship == null then [] else [p.ship]) + Members(p)
  }

  /**
   * What statements may rely on: a program's ship is a valid ship, and
   * when it is in a world, that world is valid and lists it.
   */
  predicate Runnable(p: Program)
    reads p, p.ship, WorldOf(p.ship), Members(p)
  {
    p.ship != null ==>
      && p.ship.kind == ShipKind && p.ship.Valid()
      && (p.ship.world != null ==> p.ship.world.Valid() && p.ship in p.ship.world.objects)
  }

  /** Everything a statement can change: the globals, the position, and the ship's world with its members. */
  datatype Scene = Scene(globals: map<string, Val>, position: int, ship: SpaceObject?, world: World?,
                         members: seq<SpaceObject>, bodies: seq<Body>, attrs: seq<Attrs>)

  function SceneOf(p: Program): Scene
    reads p, p.ship, WorldOf(p.ship), Members(p)
  {
    Scene(p.globals, p.executePosition, p.ship, WorldOf(p.ship), Members(p), Bodies(Crew(p)), AttrsOf(Crew(p)))
  }

  /**
   * What every statement keeps: the program's ship, its world and root
   * statement stay, the program stays runnable, and every member of the
   * world is an old one or a fresh one.
   */
  twostate predicate Keeps(p: Program)
    reads p, p.ship, WorldOf(p.ship), Members(p)
  {
    && p.ship == old(p.ship) && WorldOf(p.ship) == old(WorldOf(p.ship)) && p.statement == old(p.statement)
    && Runnable(p)
    && (forall i :: 0 <= i < |Members(p)| ==> Members(p)[i] in old(Members(p)) || fresh(Members(p)[i]))
    && (forall o :: o in Members(p) ==> o in old(Members(p)) || fresh(o))
  }

  /** The branch an If takes on a condition value. */
  function Branch(s: St, v: Val): Option<St>
    requires s.If?
  {
    if v.BooleanT? && v.b then s.thenBranch else s.elseBranch
  }

  /**
   * What executing statement s did to program p, by its class: each
   * class's effect is the predicate of its `execute` below.
   */
  twostate predicate Executed(s: St, p: Program, m: MathFns, new r: Outcome<()>)
    reads *
    decreases Size(s), 1
  {
    match s
    case Assignment(_, _, _) => Assigned(s, p, r)
    case If(_, _, _, _) => Branched(s, p, m, r)
    case While(_, _, _) => Looped(s, p, r)
    case For(_, _, _) => Repeated(s, p, r)
    case Sequence(_, ss) => Sequenced(ss, p, r.Ok?)
    case Turn(_, _) => Turned(s, p, r)
    case EnableThruster(_) => Thrusted(p, true, r)
    case DisableThruster(_) => Thrusted(p, false, r)
    case Fire(_) => Fired(p, m, r)
    case Skip(_) => r == Ok(()) && SceneOf(p) == old(SceneOf(p))
  }

  /**
   * `execute` of any statement, dispatched on its class. Fuel bounds the
   * iterations of While and of the statement loops; running out of it is
   * the Diverges failure.
   */
  method Exec(s: St, p: Program, m: MathFns, fuel: nat) returns (r: Outcome<()>)
    requires Runnable(p)
    modifies p, p.ship, WorldOf(p.ship), Members(p)
    ensures Keeps(p)
    ensures forall st :: st == s ==> Executed(st, p, m, r)
    ensures s.Skip? ==> r == Ok(()) && SceneOf(p) == old(SceneOf(p))
    decreases Size(s), 1
  {
    match s
    case Assignment(_, _, _) => r := ExecAssignment(s, p);
    case If(_, _, _, _) => r := ExecIf(s, p, m, fuel);
    case While(_, _, _) =>
      ghost var runs;
      r, runs := ExecWhile(s, p, m, fuel);
    case For(_, _, _) =>
      ghost var runs;
      r, runs := ExecFor(s, p, m, fuel);
    case Sequence(_, ss) =>
      var q := ExecSequence(ss, p, m, fuel);
      r := if q.Fail? then Fail(q.error) else Ok(());
    case Turn(_, _) => r := ExecTurn(s, p);
    case EnableThruster(_) => r := ExecThruster(p, true);
    case DisableThruster(_) => r := ExecThruster(p, false);
    case Fire(_) => r := ExecFire(p, m);
    case Skip(_) => r := Ok(());
  }

  /**
   * The effect of an Assignment: the global it names has the value of its
   * right-hand side, or, when that fails, the globals are the old ones;
   * the ship, the root statement and the position stay.
   */
  twostate predicate Assigned(s: St, p: Program, new r: Outcome<()>)
    requires s.Assignment?
    reads p
  {
    && (old(Eval(s.rhs, p)).Fail? ==> r == Fail(old(Eval(s.rhs, p)).error) && p.globals == old(p.globals))
    && (old(Eval(s.rhs, p)).Ok? ==> r == Ok(()) && p.globals == old(p.globals)[s.name := old(Eval(s.rhs, p)).value])
    && p.ship == old(p.ship) && p.statement == old(p.statement) && p.executePosition == old(p.executePosition)
  }

  /** `Assignment.execute`: the global named by the statement gets the value of its right-hand side. */
  method ExecAssignment(s: St, p: Program) returns (r: Outcome<()>)
    requires s.Assignment?
    modifies p
    ensures Assigned(s, p, r)
  {
    var v := Eval(s.rhs, p);
    if v.Fail? {
      return Fail(v.error);
    }
    p.globals := p.globals[s.name := v.value];
    return Ok(());
  }

  /**
   * The effect of a Turn: a bad angle fails, then a missing ship; a
   * failure changes nothing; otherwise the heading, and only the heading,
   * becomes the normalised sum of the old one and the angle.
   */
  twostate predicate Turned(s: St, p: Program, new r: Outcome<()>)
    requires s.Turn?
    reads p, p.ship
  {
    && p.ship == old(p.ship)
    && (AsNumber(old(Eval(s.angle, p))).Fail? ==> r == Fail(AsNumber(old(Eval(s.angle, p))).error))
    && (AsNumber(old(Eval(s.angle, p))).Ok? && p.ship == null ==> r == Fail(NullPointer))
    && (r.Fail? && p.ship != null ==> p.ship.Attributes() == old(p.ship.Attributes()))
    && (AsNumber(old(Eval(s.angle, p))).Ok? && p.ship != null ==>
          var a := AsNumber(old(Eval(s.angle, p))).value;
          && r == Ok(())
          && p.ship.Attributes() == old(p.ship.Attributes()).(angle := NormalAngle(old(p.ship.angle) + a))
          && 0.0 <= p.ship.angle <= TwoPi)
    && (p.ship != null ==> p.ship.AsBody() == old(p.ship.AsBody()))
  }

  /**
   * `Turn.execute`: the angle is cast to DoubleT before the ship is asked
   * for, so a bad angle fails first; then a missing ship is a
   * NullPointerException; then the ship turns.
   */
  method ExecTurn(s: St, p: Program) returns (r: Outcome<()>)
    requires s.Turn? && Runnable(p)
    modifies p.ship
    ensures Keeps(p)
    ensures Turned(s, p, r)
  {
    var a := AsNumber(Eval(s.angle, p));
    if a.Fail? {
      return Fail(a.error);
    }
    var ship := p.ship;
    if ship == null {
      return Fail(NullPointer);
    }
    ghost var turned := NormalAngle(ship.angle + a.value);
    ship.Turn(a.value);
    NormalAngleInRange(old(ship.angle) + a.value);
    r := Ok(());
  }

  /** The effect of EnableThruster (on) or DisableThruster: a missing ship fails, exactly then; otherwise only the flag is set. */
  twostate predicate Thrusted(p: Program, on: bool, new r: Outcome<()>)
    reads p, p.ship
  {
    && p.ship == old(p.ship)
    && (p.ship == null <==> r == Fail(NullPointer))
    && (p.ship != null ==>
          && r == Ok(())
          && p.ship.AsBody() == old(p.ship.AsBody())
          && p.ship.Attributes() == old(p.ship.Attributes()).(thrusterActive := on))
  }

  /**
   * `EnableThruster.execute` (on) and `DisableThruster.execute` (off):
   * a missing ship is a NullPointerException, otherwise the flag is set
   * whatever it was.
   */
  method ExecThruster(p: Program, on: bool) returns (r: Outcome<()>)
    requires Runnable(p)
    modifies p.ship
    ensures Keeps(p)
    ensures Thrusted(p, on, r)
  {
    var ship := p.ship;
    if ship == null {
      return Fail(NullPointer);
    }
    ship.SetThrusterActive(on);
    r := Ok(());
  }

  /**
   * The effect of a Fire: a missing ship fails; no object's body or
   * attributes change, and a ship that may not fire changes nothing. A
   * bullet touching its ship dies again, so the members stay the old
   * ones; a bullet apart from everything is appended; a first hit removes
   * its victim and fails.
   */
  twostate predicate Fired(p: Program, m: MathFns, new r: Outcome<()>)
    reads *
  {
    && (p.ship == null ==> r == Fail(NullPointer))
    && (old(p.ship) != null && !old(p.ship.MayFire()) ==> r == Ok(()) && Members(p) == old(Members(p)))
    && (old(p.ship) != null && old(p.ship.MayFire()) ==>
          var bb := SpawnedBullet(old(p.ship.AsBody()), m.cos(old(p.ship.angle)), m.sin(old(p.ship.angle)));
          FirstHit(bb, p.ship, old(Members(p))).None? && GapAtMostSigma(bb, old(p.ship.AsBody())) ==>
            r == Ok(()) && Members(p) == old(Members(p)))
    && (old(p.ship) != null && old(p.ship.MayFire()) ==>
          var bb := SpawnedBullet(old(p.ship.AsBody()), m.cos(old(p.ship.angle)), m.sin(old(p.ship.angle)));
          FirstHit(bb, p.ship, old(Members(p))).None? && !GapAtMostSigma(bb, old(p.ship.AsBody())) ==>
            && r == Ok(())
            && |Members(p)| == |old(Members(p))| + 1
            && Members(p)[..|old(Members(p))|] == old(Members(p))
            && Members(p)[|old(Members(p))|].AsBody() == bb)
    && (old(p.ship) != null && old(p.ship.MayFire()) ==>
          var bb := SpawnedBullet(old(p.ship.AsBody()), m.cos(old(p.ship.angle)), m.sin(old(p.ship.angle)));
          FirstHit(bb, p.ship, old(Members(p))).Some? ==>
            var k := FirstHit(bb, p.ship, old(Members(p))).value;
            && Members(p) == Without(old(Members(p)), old(Members(p))[k])
            && r == Fail(if k < |old(Members(p))| - 1 then ConcurrentModification else IllegalObject))
  }

  /**
   * `Fire.execute`: a missing ship is a NullPointerException, otherwise
   * the ship's `fireBullet` as written (FireBulletAsWritten). Nothing but
   * the world's membership changes, and a ship that may not fire changes
   * nothing. A bullet that touches its own ship, as every bullet fired
   * along a unit heading does (BulletTouchesSource), is resolved against
   * it and dies at once, so the members stay the old ones; only a bullet
   * apart from its ship (which takes a heading with cos^2 + sin^2 != 1)
   * stays.
   */
  method ExecFire(p: Program, m: MathFns) returns (r: Outcome<()>)
    requires Runnable(p)
    modifies WorldOf(p.ship), Members(p)
    ensures Keeps(p)
    ensures Fired(p, m, r)
    ensures forall i :: 0 <= i < |old(Crew(p))| ==>
              old(Crew(p))[i].AsBody() == old(Crew(p)[i].AsBody()) && old(Crew(p))[i].Attributes() == old(Crew(p)[i].Attributes())
  {
    var ship := p.ship;
    if ship == null {
      return Fail(NullPointer);
    }
    // the resolution of a bullet against its own ship draws no number
    r := ship.FireBulletAsWritten(m, 0.0);
  }

  /**
   * The effect of an If: a condition of a non-boolean class, a failing
   * condition and a missing branch fail and change nothing; otherwise
   * the effect is that of the branch the condition's value chooses, and
   * only of that branch.
   */
  twostate predicate Branched(s: St, p: Program, m: MathFns, new r: Outcome<()>)
    requires s.If?
    reads *
    decreases Size(s), 0
  {
    && (!IsBooleanExpression(s.cond) ==> r == Fail(ClassCast) && SceneOf(p) == old(SceneOf(p)))
    && (IsBooleanExpression(s.cond) && old(Eval(s.cond, p)).Fail? ==>
          r == Fail(old(Eval(s.cond, p)).error) && SceneOf(p) == old(SceneOf(p)))
    && (IsBooleanExpression(s.cond) && old(Eval(s.cond, p)).Ok? ==>
          match Branch(s, old(Eval(s.cond, p)).value)
          case None => r == Fail(NullPointer) && SceneOf(p) == old(SceneOf(p))
          case Some(b) => Executed(b, p, m, r))
  }

  /**
   * `If.execute`: the condition is cast to BooleanExpression (its class,
   * not its value, decides), evaluated, and the chosen branch executed; a
   * missing branch is a NullPointerException.
   */
  method ExecIf(s: St, p: Program, m: MathFns, fuel: nat) returns (r: Outcome<()>)
    requires s.If? && Runnable(p)
    modifies p, p.ship, WorldOf(p.ship), Members(p)
    ensures Keeps(p)
    ensures Branched(s, p, m, r)
    decreases Size(s), 0
  {
    if !IsBooleanExpression(s.cond) {
      return Fail(ClassCast);
    }
    var c := Eval(s.cond, p);
    if c.Fail? {
      return Fail(c.error);
    }
    var b := Branch(s, c.value);
    if b.None? {
      return Fail(NullPointer);
    }
    r := Exec(b.value, p, m, fuel);
  }

  /**
   * The effect of a Sequence of statements ss that succeeded (ok) or not:
   * an empty one succeeds and changes nothing; after a success the
   * position is the line of the first action, or else of the last
   * statement.
   */
  twostate predicate Sequenced(ss: seq<St>, p: Program, ok: bool)
    reads p, p.ship, WorldOf(p.ship), Members(p)
  {
    && (ss == [] ==> ok && SceneOf(p) == old(SceneOf(p)))
    && (ok && HasAction(ss) ==> p.executePosition == ss[FirstAction(ss).value].line)
    && (ok && !HasAction(ss) && ss != [] ==> p.executePosition == ss[|ss| - 1].line)
  }

  /**
   * `Sequence.execute`: the statements in order, each followed by setting
   * the execute position to its line, up to and including the first
   * action statement. The result says whether an action was executed,
   * which is what While asks of its body as `actionHasOccured`.
   */
  method ExecSequence(ss: seq<St>, p: Program, m: MathFns, fuel: nat) returns (r: Outcome<bool>)
    requires Runnable(p)
    modifies p, p.ship, WorldOf(p.ship), Members(p)
    ensures Keeps(p)
    ensures Sequenced(ss, p, r.Ok?)
    ensures ss == [] ==> r == Ok(false)
    ensures r.Ok? ==> (r.value <==> HasAction(ss))
    decreases SizeOfAll(ss), 2
  {
    if ss == [] {
      return Ok(false);
    }
    var i := 0;
    while i < |ss|
      invariant 0 <= i <= |ss|
      invariant forall j :: 0 <= j < i ==> !IsAction(ss[j])
      invariant i > 0 ==> p.executePosition == ss[i - 1].line
      invariant Keeps(p)
    {
      ElementIsSmaller(ss, i);
      var q := Exec(ss[i], p, m, fuel);
      if q.Fail? {
        return Fail(q.error);
      }
      p.executePosition := ss[i].line;
      if IsAction(ss[i]) {
        return Ok(true);
      }
      i := i + 1;
    }
    return Ok(false);
  }

  /**
   * The effect of a While: a failing condition, or one whose value is not
   * a BooleanT, fails; false does nothing. True succeeds only when the
   * body acts, and then leaves the position at the line of the body's
   * first action, or at 1 when that is past the body; a body without
   * actions never succeeds.
   */
  twostate predicate Looped(s: St, p: Program, new r: Outcome<()>)
    requires s.While?
    reads p, p.ship, WorldOf(p.ship), Members(p)
  {
    && (old(Eval(s.cond, p)).Fail? ==> r == Fail(old(Eval(s.cond, p)).error) && SceneOf(p) == old(SceneOf(p)))
    && (old(Eval(s.cond, p)).Ok? && !old(Eval(s.cond, p)).value.BooleanT? ==>
          r == Fail(ClassCast) && SceneOf(p) == old(SceneOf(p)))
    && (old(Eval(s.cond, p)) == Ok(BooleanT(false)) ==> r == Ok(()) && SceneOf(p) == old(SceneOf(p)))
    && (old(Eval(s.cond, p)) == Ok(BooleanT(true)) && r.Ok? ==>
          && HasAction(s.body)
          && var line := s.body[FirstAction(s.body).value].line;
             p.executePosition == (if line > |s.body| then 1 else line))
    && (old(Eval(s.cond, p)) == Ok(BooleanT(true)) && !HasAction(s.body) ==> r.Fail?)
  }

  /**
   * `While.execute`: the condition is evaluated and cast to BooleanT
   * once, before the loop, and never again; while it holds the body runs,
   * and an execute position past the body goes back to 1. The loop ends
   * only when a run of the body executed an action, so a true condition
   * over a body without actions runs until the fuel is spent.
   */
  method ExecWhile(s: St, p: Program, m: MathFns, fuel: nat) returns (r: Outcome<()>, ghost runs: nat)
    requires s.While? && Runnable(p)
    modifies p, p.ship, WorldOf(p.ship), Members(p)
    ensures Keeps(p)
    ensures Looped(s, p, r)
    ensures old(Eval(s.cond, p)) == Ok(BooleanT(false)) ==> runs == 0
    ensures old(Eval(s.cond, p)) == Ok(BooleanT(true)) ==> runs <= fuel && (HasAction(s.body) ==> runs <= 1)
    ensures old(Eval(s.cond, p)) == Ok(BooleanT(true)) && r.Ok? ==> runs == 1
    ensures old(Eval(s.cond, p)) == Ok(BooleanT(true)) && HasAction(s.body) && fuel > 0 ==> runs == 1
    decreases Size(s), 0
  {
    runs := 0;
    var c := Eval(s.cond, p);
    if c.Fail? {
      return Fail(c.error), 0;
    }
    if !c.value.BooleanT? {
      return Fail(ClassCast), 0;
    }
    if !c.value.b {
      return Ok(()), 0;
    }
    var n := 0;
    while n < fuel
      invariant n <= fuel && runs == n
      invariant HasAction(s.body) ==> n == 0
      invariant Keeps(p)
    {
      var acted := ExecSequence(s.body, p, m, fuel);
      n := n + 1;
      runs := n;
      if acted.Fail? {
        return Fail(acted.error), runs;
      }
      if p.executePosition > |s.body| {
        p.executePosition := 1;
      }
      if acted.value {
        return Ok(()), runs;
      }
    }
    r := Fail(Diverges);
  }

  /**
   * The effect of a For: a count that is no number fails and changes
   * nothing; a count of zero or less succeeds and changes nothing; only a
   * number succeeds.
   */
  twostate predicate Repeated(s: St, p: Program, new r: Outcome<()>)
    requires s.For?
    reads p, p.ship, WorldOf(p.ship), Members(p)
  {
    && (AsNumber(old(Eval(s.cond, p))).Fail? ==>
          r == Fail(AsNumber(old(Eval(s.cond, p))).error) && SceneOf(p) == old(SceneOf(p)))
    && (AsNumber(old(Eval(s.cond, p))).Ok? && RepetitionCount(AsNumber(old(Eval(s.cond, p))).value) <= 0 ==>
          r == Ok(()) && SceneOf(p) == old(SceneOf(p)))
    && (r.Ok? ==> AsNumber(old(Eval(s.cond, p))).Ok?)
  }

  /**
   * `For.execute`: the count is cast to DoubleT, rounded with
   * `Math.round` and truncated to an int, and the body runs that many
   * times (none for a count of zero or less).
   */
  method ExecFor(s: St, p: Program, m: MathFns, fuel: nat) returns (r: Outcome<()>, ghost runs: nat)
    requires s.For? && Runnable(p)
    modifies p, p.ship, WorldOf(p.ship), Members(p)
    ensures Keeps(p)
    ensures Repeated(s, p, r)
    ensures AsNumber(old(Eval(s.cond, p))).Fail? ==> runs == 0
    ensures AsNumber(old(Eval(s.cond, p))).Ok? && RepetitionCount(AsNumber(old(Eval(s.cond, p))).value) <= 0 ==> runs == 0
    ensures r.Ok? && RepetitionCount(AsNumber(old(Eval(s.cond, p))).value) > 0 ==>
              runs == RepetitionCount(AsNumber(old(Eval(s.cond, p))).value)
    decreases Size(s), 0
  {
    var c := AsNumber(Eval(s.cond, p));
    if c.Fail? {
      return Fail(c.error), 0;
    }
    var times := RepetitionCount(c.value);
    var index := 0;
    runs := 0;
    while index < times
      invariant 0 <= index && (times >= 0 ==> index <= times) && (times <= 0 ==> index == 0)
      invariant runs == index
      invariant index == 0 ==> SceneOf(p) == old(SceneOf(p))
      invariant Keeps(p)
    {
      var q := ExecSequence(s.body, p, m, fuel);
      if q.Fail? {
        return Fail(q.error), runs;
      }
      index := index + 1;
      runs := index;
    }
    r := Ok(());
  }

  /**
   * `Sequence.executeNextCommand(line)`: from the statement at the 1-based
   * line, the statements run in order, wrapping around at the end, until
   * an action statement has run; the execute position then names the
   * statement after it (wrapping too). A line outside the list fails the
   * first `get`; a list without actions never stops (here: until the fuel
   * is spent). `k` is the action's index and `steps` the number of
   * statements run before it.
   */
  method ExecuteNextCommand(ss: seq<St>, line: int, p: Program, m: MathFns, fuel: nat)
    returns (r: Outcome<()>, ghost k: nat, ghost steps: nat)
    requires Runnable(p)
    modifies p, p.ship, WorldOf(p.ship), Members(p)
    ensures Keeps(p)
    ensures ss == [] ==> r == Ok(()) && SceneOf(p) == old(SceneOf(p))
    ensures ss != [] && !(1 <= line <= |ss|) ==> r == Fail(IndexOutOfBounds) && SceneOf(p) == old(SceneOf(p))
    ensures r.Ok? && ss != [] ==>
              && 1 <= line <= |ss| && k < |ss| && IsAction(ss[k])
              && k == Cycle(line - 1, steps, |ss|)
              && p.executePosition == Cycle(k, 1, |ss|) + 1
    ensures ss != [] && 1 <= line <= |ss| ==> forall j :: 0 <= j < steps ==> !IsAction(Visited(ss, line, j))
    ensures ss != [] && 1 <= line <= |ss| && HasAction(ss) ==> steps < |ss|
    ensures ss != [] && !HasAction(ss) ==> r.Fail?
    ensures r == Fail(Diverges) && steps == fuel ==> !HasAction(ss) || fuel < |ss|
  {
    k, steps := 0, 0;
    if ss == [] {
      return Ok(()), 0, 0;
    }
    var i := line - 1;
    if i < 0 || i >= |ss| {
      return Fail(IndexOutOfBounds), 0, 0;
    }
    var n := 0;
    while n < fuel
      invariant 0 <= i < |ss| && i == Cycle(line - 1, n, |ss|)
      invariant steps == n <= fuel
      invariant forall j :: 0 <= j < n ==> !IsAction(Visited(ss, line, j))
      invariant HasAction(ss) ==> n < |ss|
      invariant Keeps(p)
    {
      var s := ss[i];
      r := Exec(s, p, m, fuel);
      if r.Fail? {
        return;
      }
      var next := (i + 1) % |ss|;
      NextIsCycle(i, |ss|);
      if IsAction(s) {
        p.executePosition := next + 1;
        k := i;
        return;
      }
      i, n := next, n + 1;
      steps := n;
      if HasAction(ss) && n >= |ss| {
        NoActionOnACycle(ss, line, n);
        assert false;
      }
    }
    r := Fail(Diverges);
  }

  /** The index `j` steps after index `l` round a list of length `len`: `line++` then `line % size`. */
  function Cycle(l: nat, j: nat, len: nat): (r: nat)
    requires l < len
    ensures r < len
  {
    if j == 0 then l
    else
      var before := Cycle(l, j - 1, len);
      if before + 1 == len then 0 else before + 1
  }

  /** The statement `j` steps round the list after the one at the 1-based `line`. */
  function Visited(ss: seq<St>, line: int, j: nat): St
    requires 1 <= line <= |ss|
  {
    ss[Cycle(line - 1, j, |ss|)]
  }

  lemma NextIsCycle(i: nat, len: nat)
    requires i < len
    ensures (i + 1) % len == Cycle(i, 1, len)
  {
  }

  /** Within one round, the step count is the distance, wrapping once. */
  lemma {:induction false} CycleWithinOneRound(l: nat, j: nat, len: nat)
    requires l < len && j < len
    ensures Cycle(l, j, len) == if l + j < len then l + j else l + j - len
  {
    if j > 0 {
      CycleWithinOneRound(l, j - 1, len);
    }
  }

  /** Going `n >= |ss|` steps round the list from `l` visits every statement. */
  lemma NoActionOnACycle(ss: seq<St>, line: int, n: nat)
    requires 1 <= line <= |ss| <= n
    requires forall j :: 0 <= j < n ==> !IsAction(Visited(ss, line, j))
    ensures !HasAction(ss)
  {
    var l := line - 1;
    forall i | 0 <= i < |ss|
      ensures !IsAction(ss[i])
    {
      var j := if i >= l then i - l else i - l + |ss|;
      CycleWithinOneRound(l, j, |ss|);
      assert Visited(ss, line, j) == ss[i];
    }
  }
}
