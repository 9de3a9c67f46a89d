/**
 * The objects of the asteroids model and the world that holds them
 * (asteroids.model.SpaceObject, Ship, Asteroid, Bullet, World and Program).
 *
 * Java's three subclasses of SpaceObject are one class here with a `kind`;
 * the fields a kind does not use are simply ignored for it. The world's
 * HashSet is a sequence whose order stands for the set's iteration order.
 * The state a method changes is named in its `modifies` clause, and its
 * `ensures` say what the new state is in terms of the functions of
 * module Physics.
 */
module Universe {
  import opened Numerics
  import opened Physics
  import opened Events
  import opened Angles
  import opened Programs

  datatype Kind = ShipKind | AsteroidKind | BulletKind

  /** `thrusterForce` of Ship, 1.1 * 10^18. */
  const ThrusterForce: real := 1100000000000000000.0
  /** The mass densities of Asteroid (2.65 * 10^12) and Bullet (7.8 * 10^12). */
  const AsteroidDensity: real := 2650000000000.0
  const BulletDensity: real := 7800000000000.0
  /** Bullet's `minimumRadius`, the radius of every bullet. */
  const BulletRadius: real := 3.0
  /** The speed `fireBullet` adds along the heading. */
  const BulletSpeed: real := 250.0
  /** Asteroids this large or larger split when they are terminated inside a world. */
  const SplitRadius: real := 30.0
  /** `fireBullet` does nothing while this many bullets of the ship are in its world. */
  const MaxBullets: nat := 3

  predicate Distinct(s: seq<SpaceObject>)
  {
    forall i, j :: 0 <= i < j < |s| ==> s[i] != s[j]
  }

  /** `Set.remove`: the sequence without `o`, in the same order. */
  function Without(s: seq<SpaceObject>, o: SpaceObject): (r: seq<SpaceObject>)
    ensures forall i :: 0 <= i < |r| ==> r[i] in s && r[i] != o
    ensures forall i :: 0 <= i < |s| && s[i] != o ==> s[i] in r
    ensures o !in s ==> r == s
    ensures Distinct(s) ==> Distinct(r)
  {
    if s == [] then []
    else
      var rest := Without(s[1..], o);
      WithoutStep(s, o, rest);
      if s[0] == o then rest else [s[0]] + rest
  }

  /** The step of `Without`: its properties carry over from the tail to the whole sequence. */
  lemma WithoutStep(s: seq<SpaceObject>, o: SpaceObject, rest: seq<SpaceObject>)
    requires |s| > 0
    requires forall i :: 0 <= i < |rest| ==> rest[i] in s[1..] && rest[i] != o
    requires forall i :: 0 <= i < |s[1..]| && s[1..][i] != o ==> s[1..][i] in rest
    requires o !in s[1..] ==> rest == s[1..]
    requires Distinct(s[1..]) ==> Distinct(rest)
    ensures var r := if s[0] == o then rest else [s[0]] + rest;
            && (forall i :: 0 <= i < |r| ==> r[i] in s && r[i] != o)
            && (forall i :: 0 <= i < |s| && s[i] != o ==> s[i] in r)
            && (o !in s ==> r == s)
            && (Distinct(s) ==> Distinct(r))
  {
    var t := s[1..];
    assert s == [s[0]] + t;
    assert forall i :: 1 <= i < |s| ==> s[i] == t[i - 1];
    assert forall x :: x in t ==> x in s;
    if Distinct(s) {
      DistinctTail(s);
    }
    if s[0] != o {
      var r := [s[0]] + rest;
      assert forall i :: 1 <= i < |r| ==> r[i] == rest[i - 1];
      if Distinct(s) {
        DistinctCons(s[0], rest);
      }
    }
  }

  lemma DistinctTail(s: seq<SpaceObject>)
    requires |s| > 0 && Distinct(s)
    ensures Distinct(s[1..]) && s[0] !in s[1..]
  {
    forall x | x in s[1..] ensures x != s[0] {
      var j :| 0 <= j < |s[1..]| && s[1..][j] == x;
      assert s[j + 1] == x;
    }
  }

  lemma DistinctCons(x: SpaceObject, s: seq<SpaceObject>)
    requires Distinct(s) && x !in s
    ensures Distinct([x] + s)
  {
    forall i, j | 0 <= i < j < |[x] + s| ensures ([x] + s)[i] != ([x] + s)[j] {
      assert ([x] + s)[j] == s[j - 1];
      if i > 0 { assert ([x] + s)[i] == s[i - 1]; }
    }
  }

  /** The snapshot of the listed objects' positions, velocities and radii, in order. */
  function Bodies(objs: seq<SpaceObject>): (r: seq<Body>)
    reads objs
    ensures |r| == |objs|
    ensures forall i :: 0 <= i < |objs| ==> r[i] == objs[i].AsBody()
  {
    seq(|objs|, i requires 0 <= i < |objs| reads objs => objs[i].AsBody())
  }

  /** The snapshot of the listed objects' other fields, in order. */
  function AttrsOf(objs: seq<SpaceObject>): (r: seq<Attrs>)
    reads objs
    ensures |r| == |objs|
    ensures forall i :: 0 <= i < |objs| ==> r[i] == objs[i].Attributes()
  {
    seq(|objs|, i requires 0 <= i < |objs| reads objs => objs[i].Attributes())
  }

  /**
   * The mass `getMass` reports for an object of kind k: a ship's own mass;
   * `(4/3) * pi * r^3 * density` for asteroids and bullets, where the Java
   * `4/3` is integer division and so 1.
   */
  function KindMass(k: Kind, shipMass: real, r: real): real
  {
    match k
    case ShipKind => shipMass
    case AsteroidKind => (4 / 3) as real * Pi * (r * r * r) * AsteroidDensity
    case BulletKind => (4 / 3) as real * Pi * BulletDensity * (r * r * r)
  }

  /** A `java.util.Random`. Only its identity is modelled; the numbers it draws are parameters. */
  class Random {
    constructor ()
    {
    }
  }

  /** The fields of an object other than its position, velocity and world. */
  datatype Attrs = Attrs(angle: real, thrusterActive: bool, program: Program?, random: Random?, bounces: int)

  class SpaceObject {
    const kind: Kind
    var x: real
    var y: real
    var vx: real
    var vy: real
    const radius: real
    var world: World?
    // Ship
    var angle: real
    const mass: real
    const acceleration: real
    var thrusterActive: bool
    var program: Program?
    // Asteroid
    var random: Random?
    // Bullet
    const source: SpaceObject?
    var bounces: int

    /**
     * The class invariants: a radius of at least `minimumRadius` (0); for a
     * ship a positive mass, the acceleration thrusterForce / mass and a
     * heading in [0, 2*pi]; for an asteroid a generator; for a bullet the
     * radius 3 and a bounce count that never goes below its start of 0.
     */
    predicate Valid()
      reads this
    {
      && radius >= 0.0
      && (kind == ShipKind ==> mass > 0.0 && acceleration == ThrusterForce / mass && 0.0 <= angle <= TwoPi)
      && (kind == AsteroidKind ==> random != null)
      && (kind == BulletKind ==> radius == BulletRadius && bounces >= 0)
    }

    function AsBody(): Body
      reads this
    {
      Body(x, y, vx, vy, radius)
    }

    function Attributes(): Attrs
      reads this
    {
      Attrs(angle, thrusterActive, program, random, bounces)
    }

    /**
     * `getMass`: a ship's own mass; pi * r^3 * density for an asteroid or
     * a bullet, the factor `(4/3)` being the integer 1; zero only for
     * radius zero.
     */
    function Mass(): (r: real)
      reads this
      ensures kind == ShipKind ==> r == mass
      ensures kind == AsteroidKind ==> r == Pi * (radius * radius * radius) * AsteroidDensity
      ensures kind == BulletKind ==> r == Pi * (radius * radius * radius) * BulletDensity
      ensures kind != ShipKind && radius >= 0.0 ==> r >= 0.0 && (r == 0.0 <==> radius == 0.0)
    {
      if radius >= 0.0 then CubeIsPositive(radius); KindMass(kind, mass, radius)
      else KindMass(kind, mass, radius)
    }

    /** `new Ship(...)` once its arguments have passed the checks of NewShip. */
    constructor Ship(x: real, y: real, vx: real, vy: real, radius: real, angle: real, mass: real)
      requires radius >= 0.0 && mass > 0.0
      ensures Valid() && kind == ShipKind && world == null
      ensures AsBody() == Body(x, y, vx, vy, radius)
      ensures this.angle == NormalAngle(angle) && this.mass == mass && acceleration == ThrusterForce / mass
      ensures !thrusterActive && program == null
    {
      var a := Normalise(angle);
      NormalAngleInRange(angle);
      kind := ShipKind;
      this.x, this.y, this.vx, this.vy, this.radius := x, y, vx, vy, radius;
      world := null;
      this.angle := a;
      this.mass := mass;
      acceleration := ThrusterForce / mass;
      thrusterActive := false;
      program := null;
      random := null;
      source := null;
      bounces := 0;
    }

    /** `new Asteroid(...)` once its arguments have passed the checks of NewAsteroid. */
    constructor Asteroid(x: real, y: real, vx: real, vy: real, radius: real, random: Random)
      requires radius >= 0.0
      ensures Valid() && kind == AsteroidKind && world == null
      ensures AsBody() == Body(x, y, vx, vy, radius) && this.random == random
    {
      kind := AsteroidKind;
      this.x, this.y, this.vx, this.vy, this.radius := x, y, vx, vy, radius;
      world := null;
      angle := 0.0;
      mass := 0.0;
      acceleration := 0.0;
      thrusterActive := false;
      program := null;
      this.random := random;
      source := null;
      bounces := 0;
    }

    /** `new Bullet(...)` once its coordinates have passed the checks of NewBullet. */
    constructor Bullet(x: real, y: real, vx: real, vy: real, source: SpaceObject?)
      ensures Valid() && kind == BulletKind && world == null
      ensures AsBody() == Body(x, y, vx, vy, BulletRadius) && this.source == source && bounces == 0
    {
      kind := BulletKind;
      this.x, this.y, this.vx, this.vy, this.radius := x, y, vx, vy, BulletRadius;
      world := null;
      angle := 0.0;
      mass := 0.0;
      acceleration := 0.0;
      thrusterActive := false;
      program := null;
      random := null;
      this.source := source;
      bounces := 0;
    }

    /**
     * The Ship constructor: a NaN coordinate, a NaN or negative radius and
     * a NaN or non-positive mass are IllegalArgumentExceptions; the heading
     * is normalised, the acceleration is thrusterForce / mass.
     */
    static method NewShip(x: Double, y: Double, vx: real, vy: real, radius: Double, angle: real, mass: Double)
      returns (r: Outcome<SpaceObject>)
      ensures r.Fail? <==> x.NaN? || y.NaN? || radius.NaN? || radius.val < 0.0 || mass.NaN? || mass.val <= 0.0
      ensures r.Fail? ==> r.error == IllegalArgument
      ensures r.Ok? ==> fresh(r.value) && r.value.Valid() && r.value.kind == ShipKind && r.value.world == null
      ensures r.Ok? ==> r.value.AsBody() == Body(x.val, y.val, vx, vy, radius.val)
      ensures r.Ok? ==> r.value.angle == NormalAngle(angle) && r.value.mass == mass.val
      ensures r.Ok? ==> r.value.acceleration == ThrusterForce / mass.val && !r.value.thrusterActive
    {
      if x.NaN? || y.NaN? || radius.NaN? || radius.val < 0.0 || mass.NaN? || mass.val <= 0.0 {
        return Fail(IllegalArgument);
      }
      var s := new SpaceObject.Ship(x.val, y.val, vx, vy, radius.val, angle, mass.val);
      return Ok(s);
    }

    /**
     * The Asteroid constructors: the coordinate and radius checks of
     * SpaceObject, and `setRandom`, which installs a fresh generator for null.
     */
    static method NewAsteroid(x: Double, y: Double, vx: real, vy: real, radius: Double, random: Random?)
      returns (r: Outcome<SpaceObject>)
      ensures r.Fail? <==> x.NaN? || y.NaN? || radius.NaN? || radius.val < 0.0
      ensures r.Fail? ==> r.error == IllegalArgument
      ensures r.Ok? ==> fresh(r.value) && r.value.Valid() && r.value.kind == AsteroidKind && r.value.world == null
      ensures r.Ok? ==> r.value.AsBody() == Body(x.val, y.val, vx, vy, radius.val)
      ensures r.Ok? && random != null ==> r.value.random == random
      ensures r.Ok? && random == null ==> fresh(r.value.random)
    {
      if x.NaN? || y.NaN? || radius.NaN? || radius.val < 0.0 {
        return Fail(IllegalArgument);
      }
      var g := random;
      if g == null {
        g := new Random();
      }
      var a := new SpaceObject.Asteroid(x.val, y.val, vx, vy, radius.val, g);
      return Ok(a);
    }

    /** The Bullet constructor: radius 3 whatever is asked, the source stored once. */
    static method NewBullet(x: Double, y: Double, vx: real, vy: real, source: SpaceObject?)
      returns (r: Outcome<SpaceObject>)
      ensures r.Fail? <==> x.NaN? || y.NaN?
      ensures r.Fail? ==> r.error == IllegalArgument
      ensures r.Ok? ==> fresh(r.value) && r.value.Valid() && r.value.kind == BulletKind && r.value.world == null
      ensures r.Ok? ==> r.value.AsBody() == Body(x.val, y.val, vx, vy, BulletRadius)
      ensures r.Ok? ==> r.value.source == source && r.value.bounces == 0
    {
      if x.NaN? || y.NaN? {
        return Fail(IllegalArgument);
      }
      var b := new SpaceObject.Bullet(x.val, y.val, vx, vy, source);
      return Ok(b);
    }

    /** `setXPos`: NaN is refused and changes nothing. */
    method SetX(v: Double) returns (r: Outcome<()>)
      modifies this
      ensures v.NaN? ==> r == Fail(IllegalArgument) && x == old(x)
      ensures v.Num? ==> r == Ok(()) && x == v.val
      ensures y == old(y) && vx == old(vx) && vy == old(vy) && world == old(world) && Attributes() == old(Attributes())
    {
      if v.NaN? {
        return Fail(IllegalArgument);
      }
      x := v.val;
      return Ok(());
    }

    /** `setYPos`: NaN is refused and changes nothing. */
    method SetY(v: Double) returns (r: Outcome<()>)
      modifies this
      ensures v.NaN? ==> r == Fail(IllegalArgument) && y == old(y)
      ensures v.Num? ==> r == Ok(()) && y == v.val
      ensures x == old(x) && vx == old(vx) && vy == old(vy) && world == old(world) && Attributes() == old(Attributes())
    {
      if v.NaN? {
        return Fail(IllegalArgument);
      }
      y := v.val;
      return Ok(());
    }

    /**
     * `thrust(dt)` applied to body `b`: with the thruster on, dt * acceleration
     * * cos(heading) is added to BOTH components (the Java code uses `cos`
     * for the y component as well).
     */
    function Thrusted(b: Body, dt: real, m: MathFns): (r: Body)
      reads this
      ensures r.x == b.x && r.y == b.y && r.radius == b.radius
      ensures !thrusterActive ==> r == b
    {
      if thrusterActive then
        b.(vx := b.vx + dt * acceleration * m.cos(angle), vy := b.vy + dt * acceleration * m.cos(angle))
      else b
    }

    /**
     * What `move(dt)` leaves: a ship moves (and then thrusts) only for a
     * positive dt; asteroids and bullets move by any dt and keep their velocity.
     */
    function AfterMove(dt: real, m: MathFns): Body
      reads this
    {
      if kind == ShipKind then
        if dt > 0.0 then Thrusted(Moved(AsBody(), dt), dt, m) else AsBody()
      else Moved(AsBody(), dt)
    }

    method Thrust(dt: real, m: MathFns)
      modifies this
      ensures AsBody() == old(Thrusted(AsBody(), dt, m))
      ensures world == old(world) && Attributes() == old(Attributes())
    {
      if thrusterActive {
        var c := m.cos(angle);
        vx, vy := vx + dt * acceleration * c, vy + dt * acceleration * c;
      }
    }

    method Move(dt: real, m: MathFns)
      modifies this
      ensures AsBody() == old(AfterMove(dt, m))
      ensures world == old(world) && Attributes() == old(Attributes())
    {
      if kind == ShipKind {
        if dt > 0.0 {
          x, y := x + vx * dt, y + vy * dt;
          Thrust(dt, m);
        }
      } else {
        x, y := x + vx * dt, y + vy * dt;
      }
    }

    /** `setThrusterActive`: sets exactly that flag. */
    method SetThrusterActive(on: bool)
      modifies this
      ensures thrusterActive == on
      ensures AsBody() == old(AsBody()) && world == old(world)
      ensures Attributes() == old(Attributes()).(thrusterActive := on)
    {
      thrusterActive := on;
    }

    /** `setAngle`: the two normalising loops. */
    method SetAngle(a: real)
      modifies this
      ensures angle == NormalAngle(a) && 0.0 <= angle <= TwoPi
      ensures AsBody() == old(AsBody()) && world == old(world)
      ensures Attributes() == old(Attributes()).(angle := NormalAngle(a))
    {
      angle := Normalise(a);
      NormalAngleInRange(a);
    }

    /** `turn(a)`: the heading becomes the normalised old heading plus a. */
    method Turn(a: real)
      modifies this
      ensures angle == NormalAngle(old(angle) + a)
      ensures AsBody() == old(AsBody()) && world == old(world)
      ensures Attributes() == old(Attributes()).(angle := NormalAngle(old(angle) + a))
    {
      SetAngle(angle + a);
    }

    /** `getTimeToCollision`: null is a NullPointerException. */
    function TimeToCollision(other: SpaceObject?, sqrt: real -> real): (r: Outcome<Time>)
      reads this, other
      ensures r.Fail? <==> other == null
      ensures r.Fail? ==> r.error == NullPointer
      ensures r.Ok? ==> r.value == CollisionTime(AsBody(), other.AsBody(), sqrt)
    {
      if other == null then Fail(NullPointer) else Ok(CollisionTime(AsBody(), other.AsBody(), sqrt))
    }

    /** `getTimeToBoundaryCollision`: an object outside every world is a NullPointerException. */
    function TimeToBoundaryCollision(): (r: Outcome<Time>)
      reads this, world
      ensures r.Fail? <==> world == null
      ensures r.Fail? ==> r.error == NullPointer
      ensures r.Ok? ==> r.value == BoundaryTime(AsBody(), world.width, world.height)
    {
      if world == null then Fail(NullPointer) else Ok(BoundaryTime(AsBody(), world.width, world.height))
    }

    /**
     * `overlap` as written, the test `isValidSpaceObject` applies: the gap
     * between the bodies is at most the sum of their radii (see
     * Physics.GapAtMostSigma; the documented test is Physics.Overlaps).
     */
    predicate Overlap(other: SpaceObject)
      reads this, other
    {
      GapAtMostSigma(AsBody(), other.AsBody())
    }

    /** The pair's masses and radii allow the impulse of `resolveCollision` without NaN. */
    predicate CanBounce(other: SpaceObject)
      reads this, other
    {
      Mass() > 0.0 && other.Mass() > 0.0 && Sigma(AsBody(), other.AsBody()) != 0.0
    }

    /**
     * `resolveCollision`: an elastic bounce that changes only the two
     * velocities. Null is a NullPointerException; a pair for which the
     * Java arithmetic would give NaN velocities is reported as such.
     */
    method ResolveCollision(other: SpaceObject?) returns (r: Outcome<()>)
      modifies this, other
      ensures other == null ==> r == Fail(NullPointer) && AsBody() == old(AsBody())
      ensures other != null && !old(CanBounce(other)) ==>
                r == Fail(NotANumber) && AsBody() == old(AsBody()) && other.AsBody() == old(other.AsBody())
      ensures other != null && old(CanBounce(other)) && other != this ==>
                r == Ok(())
                && AsBody() == Bounce(old(AsBody()), old(Mass()), old(other.AsBody()), old(other.Mass())).0
                && other.AsBody() == Bounce(old(AsBody()), old(Mass()), old(other.AsBody()), old(other.Mass())).1
      ensures other == this ==> AsBody() == old(AsBody())
      ensures world == old(world) && Attributes() == old(Attributes())
      ensures other != null ==> other.world == old(other.world) && other.Attributes() == old(other.Attributes())
    {
      if other == null {
        return Fail(NullPointer);
      }
      if !CanBounce(other) {
        return Fail(NotANumber);
      }
      var a, b := AsBody(), other.AsBody();
      var ma, mb := Mass(), other.Mass();
      var bounced := Bounce(a, ma, b, mb);
      if other == this {
        BounceOfItselfChangesNothing(a, ma);
      }
      vx, vy := bounced.0.vx, bounced.0.vy;
      other.vx, other.vy := bounced.1.vx, bounced.1.vy;
      return Ok(());
    }

    /** Whether `resolveBoundaryCollision` treats the object as touching a side wall. */
    predicate TouchesSideWall()
      reads this, world
      requires x == radius || world != null
    {
      x == radius || x == world.width - radius
    }

    /**
     * `Die`: an object in a world leaves it and forgets it; an object in no
     * world is left alone.
     */
    method Die()
      requires world != null ==> world.Valid()
      modifies this, world
      ensures world == null
      ensures old(world) != null ==> old(world).objects == Without(old(world.objects), this) && old(world).Valid()
      ensures old(world) != null ==> old(world).Valid() && this !in old(world).objects
      ensures old(world) != null ==> forall s :: s in old(world.objects) && s != this ==> s in old(world).objects
      ensures old(world) != null ==> forall s :: s in old(world).objects ==> s in old(world.objects) || fresh(s)
      ensures AsBody() == old(AsBody()) && Attributes() == old(Attributes())
    {
      if world != null {
        var _ := world.RemoveObject(this);
        world := null;
      }
    }

    /**
     * `resolveBoundaryCollision`. Every kind but a bullet negates vx when
     * the object touches the left or right wall and vy otherwise; the
     * test `x == radius` comes first, so only an object away from the left
     * wall and in no world raises NullPointerException. A bullet first
     * counts the bounce and dies on the second one.
     */
    method ResolveBoundaryCollision() returns (r: Outcome<()>)
      requires Valid()
      requires world != null ==> world.Valid()
      modifies this, world
      ensures Valid()
      ensures old(world) != null ==> old(world).Valid()
      ensures kind != BulletKind ==> world == old(world) && Attributes() == old(Attributes())
      ensures kind == BulletKind ==> Attributes() == old(Attributes()).(bounces := old(bounces) + 1)
      ensures kind == BulletKind && bounces == 2 ==>
                r == Ok(()) && world == null && AsBody() == old(AsBody())
                && (old(world) != null ==> old(world).objects == Without(old(world.objects), this) && old(world).Valid())
      ensures kind != BulletKind || bounces != 2 ==>
                world == old(world)
                && (old(x == radius || world != null) ==>
                      r == Ok(()) && AsBody() == Reflected(old(AsBody()), if old(world) != null then old(world.width) else radius))
                && (old(x != radius && world == null) ==> r == Fail(NullPointer) && AsBody() == old(AsBody()))
                && (old(world) != null ==> old(world).objects == old(world.objects))
    {
      if kind == BulletKind {
        bounces := bounces + 1;
        if bounces == 2 {
          Die();
          return Ok(());
        }
      }
      if x != radius && world == null {
        return Fail(NullPointer);
      }
      if TouchesSideWall() {
        vx := -vx;
      } else {
        vy := -vy;
      }
      return Ok(());
    }

    /** Whether `terminate` splits this object: an asteroid of radius 30 or more inside a world. */
    predicate SplitsOnTerminate()
      reads this
    {
      kind == AsteroidKind && world != null && radius >= SplitRadius
    }

    /** The children's speed: 1.5 times the norm of the parent's velocity. */
    function ChildSpeed(m: MathFns): real
      reads this
    {
      SplitSpeed(AsBody(), m)
    }

    /**
     * `terminate`. A ship, a bullet, or an asteroid in no world or smaller
     * than 30 dies. A larger asteroid in a world is removed from it (its
     * own world reference stays) and two children, each with a generator
     * of its own, are added in turn; the direction is pi * u for the
     * generator's draw u. A child overlapping a member is refused with
     * IllegalObjectException, which ends the termination; under `overlap`
     * as written the second child always overlaps the first, so for a
     * unit direction the second child is always refused: SecondChildIsBlocked
     * states that the second test below fails.
     */
    method Terminate(m: MathFns, u: real) returns (r: Outcome<()>)
      requires Valid()
      requires world != null ==> world.Valid()
      modifies this, world, ObjectsOf(world)
      ensures AsBody() == old(AsBody()) && Attributes() == old(Attributes())
      ensures forall s :: s in old(ObjectsOf(world)) ==> s.AsBody() == old(s.AsBody()) && s.Attributes() == old(s.Attributes())
      ensures old(world) != null ==> old(world).Valid() && this !in old(world).objects
      ensures old(world) != null ==> forall s :: s in old(world.objects) && s != this ==> s in old(world).objects
      ensures old(world) != null ==> forall s :: s in old(world).objects ==> s in old(world.objects) || fresh(s)
      ensures !old(SplitsOnTerminate()) ==>
                r == Ok(()) && world == null
                && (old(world) != null ==> old(world).objects == Without(old(world.objects), this) && old(world).Valid())
      ensures old(SplitsOnTerminate()) ==> world == old(world)
      ensures old(SplitsOnTerminate()) ==>
                world.Valid()
      ensures old(SplitsOnTerminate()) ==>
                var rest := Without(old(world.objects), this); |rest| <= |world.objects| <= |rest| + 2 && world.objects[..|rest|] == rest
      ensures old(SplitsOnTerminate()) ==>
                var rest := Without(old(world.objects), this);
                forall i :: |rest| <= i < |world.objects| ==> fresh(world.objects[i]) && world.objects[i].kind == AsteroidKind
      ensures old(SplitsOnTerminate()) ==>
                var rest := Without(old(world.objects), this);
                var c1 := ChildOne(AsBody(), ChildSpeed(m), m.cos(Pi * u), m.sin(Pi * u));
                var c2 := ChildTwo(AsBody(), ChildSpeed(m), m.cos(Pi * u), m.sin(Pi * u));
                r.Ok? <==> !BodyBlocked(c1, Bodies(rest)) && !BodyBlocked(c2, Bodies(rest) + [c1])
      ensures old(SplitsOnTerminate()) ==>
                var rest := Without(old(world.objects), this);
                var c1 := ChildOne(AsBody(), ChildSpeed(m), m.cos(Pi * u), m.sin(Pi * u));
                var c2 := ChildTwo(AsBody(), ChildSpeed(m), m.cos(Pi * u), m.sin(Pi * u));
                r.Ok? ==> |world.objects| == |rest| + 2 && world.objects[|rest|].AsBody() == c1 && world.objects[|rest| + 1].AsBody() == c2
      ensures old(SplitsOnTerminate()) ==>
                r.Fail? ==> r.error == IllegalObject
      ensures old(world) != null ==>
                old(world).Terminated(this, old(world.objects), old(AsBody()), old(SplitsOnTerminate()), m, u, r)
    {
      if !SplitsOnTerminate() {
        Die();
        return Ok(());
      }
      r := Split(m, u);
    }

    /** `new Asteroid(position, velocity, radius)` for a child, with a generator of its own. */
    static method NewChild(b: Body) returns (k: SpaceObject)
      requires b.radius >= 0.0
      ensures fresh(k) && fresh(k.random) && k.Valid() && k.kind == AsteroidKind && k.world == null && k.AsBody() == b
    {
      var g := new Random();
      k := new SpaceObject.Asteroid(b.x, b.y, b.vx, b.vy, b.radius, g);
    }

    /**
     * `resolve`, dispatched on this object's class: a bullet resolves on
     * its own; a ship or asteroid hit by a bullet forwards to
     * `bullet.resolve(this)`; two ships or two asteroids bounce; a ship
     * meeting an asteroid terminates, whichever of the two receives the call.
     * The effect on the world is the one `Reaction` tabulates; a split
     * asteroid's children are the only newcomers.
     */
    method Resolve(other: SpaceObject, m: MathFns, u: real) returns (r: Outcome<()>)
      requires Valid() && other.Valid() && this != other
      requires world != null && world.Valid() && this in world.objects && other in world.objects
      modifies this, other, world, world.objects
      ensures old(world).Valid()
      ensures Reaction(kind, other.kind, other.source == this, source == other).firstDies <==> this !in old(world).objects
      ensures Reaction(kind, other.kind, other.source == this, source == other).secondDies <==> other !in old(world).objects
      ensures forall s :: s in old(world.objects) && s != this && s != other ==> s in old(world).objects
      ensures forall s :: s in old(world).objects ==> s in old(world.objects) || fresh(s)
      ensures Reaction(kind, other.kind, other.source == this, source == other).bounce ==>
                && old(world).objects == old(world.objects)
                && (r.Ok? <==> old(CanBounce(other)))
                && (r.Ok? ==> AsBody() == Bounce(old(AsBody()), old(Mass()), old(other.AsBody()), old(other.Mass())).0
                              && other.AsBody() == Bounce(old(AsBody()), old(Mass()), old(other.AsBody()), old(other.Mass())).1)
                && (r.Fail? ==> r.error == NotANumber)
      ensures Reaction(kind, other.kind, other.source == this, source == other).bounce ==>
                forall s :: s in old(world.objects) && s != this && s != other ==> s.AsBody() == old(s.AsBody())
      ensures !Reaction(kind, other.kind, other.source == this, source == other).bounce ==>
                && (r.Fail? ==> r.error == IllegalObject)
                && (forall s :: s in old(world.objects) ==> s.AsBody() == old(s.AsBody()))
      ensures forall s :: s in old(world.objects) ==> s.Attributes() == old(s.Attributes())
      ensures var e := Reaction(kind, other.kind, other.source == this, source == other);
                !e.bounce && !(e.firstDies && e.secondDies) ==> r == Ok(())
      ensures var e := Reaction(kind, other.kind, other.source == this, source == other);
                !e.bounce && e.firstDies && !e.secondDies ==> old(world).objects == Without(old(world.objects), this)
      ensures var e := Reaction(kind, other.kind, other.source == this, source == other);
                !e.bounce && !e.firstDies && e.secondDies ==> old(world).objects == Without(old(world.objects), other)
      ensures var e := Reaction(kind, other.kind, other.source == this, source == other);
                !e.bounce && !e.firstDies && !e.secondDies ==> old(world).objects == old(world.objects)
      ensures var e := Reaction(kind, other.kind, other.source == this, source == other);
                e.firstDies && e.secondDies ==>
                  var (b, t) := if kind == BulletKind then (this, other) else (other, this);
                  old(world).Terminated(t, Without(old(world.objects), b), old(t.AsBody()), old(t.SplitsOnTerminate()), m, u, r)
    {
      if kind == BulletKind {
        r := ResolveAsBullet(other, m, u);
      } else if other.kind == BulletKind {
        r := other.ResolveAsBullet(this, m, u);
      } else if kind == other.kind {
        r := ResolveCollision(other);
      } else if kind == ShipKind {
        r := Terminate(m, u);
      } else {
        r := other.Terminate(m, u);
      }
    }

    /**
     * The collision of a bullet with `other`: nothing against another
     * bullet; against its own source only the bullet dies; against any
     * other ship or asteroid the bullet dies and then the other terminates.
     */
    method ResolveAsBullet(other: SpaceObject, m: MathFns, u: real) returns (r: Outcome<()>)
      requires kind == BulletKind
      requires Valid() && other.Valid() && this != other
      requires world != null && world.Valid() && this in world.objects && other in world.objects
      modifies this, other, world, world.objects
      ensures old(world).Valid()
      ensures Reaction(kind, other.kind, other.source == this, source == other).firstDies <==> this !in old(world).objects
      ensures Reaction(kind, other.kind, other.source == this, source == other).secondDies <==> other !in old(world).objects
      ensures forall s :: s in old(world.objects) && s != this && s != other ==> s in old(world).objects
      ensures forall s :: s in old(world).objects ==> s in old(world.objects) || fresh(s)
      ensures r.Fail? ==> r.error == IllegalObject
      ensures forall s :: s in old(world.objects) ==> s.AsBody() == old(s.AsBody()) && s.Attributes() == old(s.Attributes())
      ensures var e := Reaction(kind, other.kind, other.source == this, source == other);
                !(e.firstDies && e.secondDies) ==> r == Ok(())
      ensures var e := Reaction(kind, other.kind, other.source == this, source == other);
                e.firstDies && !e.secondDies ==> old(world).objects == Without(old(world.objects), this)
      ensures var e := Reaction(kind, other.kind, other.source == this, source == other);
                !e.firstDies && !e.secondDies ==> old(world).objects == old(world.objects)
      ensures var e := Reaction(kind, other.kind, other.source == this, source == other);
                e.firstDies && e.secondDies ==>
                  old(world).Terminated(other, Without(old(world.objects), this), old(other.AsBody()), old(other.SplitsOnTerminate()), m, u, r)
    {
      if other.kind == BulletKind {
        return Ok(());
      }
      var w := world;
      Die();
      assert other in w.objects;
      if other == source {
        return Ok(());
      }
      r := other.Terminate(m, u);
    }

    /** The split of a large asteroid inside a world (the second branch of `terminate`). */
    method Split(m: MathFns, u: real) returns (r: Outcome<()>)
      requires Valid() && SplitsOnTerminate() && world.Valid()
      modifies world, Without(world.objects, this)
      ensures world == old(world)
      ensures AsBody() == old(AsBody()) && Attributes() == old(Attributes())
      ensures forall s :: s in old(world.objects) ==> s.AsBody() == old(s.AsBody()) && s.Attributes() == old(s.Attributes())
      ensures old(world).Valid() && this !in old(world).objects
      ensures forall s :: s in old(world.objects) && s != this ==> s in old(world).objects
      ensures forall s :: s in old(world).objects ==> s in old(world.objects) || fresh(s)
      ensures world.Valid()
      ensures var rest := Without(old(world.objects), this); |rest| <= |world.objects| <= |rest| + 2 && world.objects[..|rest|] == rest
      ensures var rest := Without(old(world.objects), this);
                forall i :: |rest| <= i < |world.objects| ==> fresh(world.objects[i]) && world.objects[i].kind == AsteroidKind
      ensures var rest := Without(old(world.objects), this);
                var c1 := ChildOne(AsBody(), ChildSpeed(m), m.cos(Pi * u), m.sin(Pi * u));
                var c2 := ChildTwo(AsBody(), ChildSpeed(m), m.cos(Pi * u), m.sin(Pi * u));
                r.Ok? <==> !BodyBlocked(c1, Bodies(rest)) && !BodyBlocked(c2, Bodies(rest) + [c1])
      ensures var rest := Without(old(world.objects), this);
                var c1 := ChildOne(AsBody(), ChildSpeed(m), m.cos(Pi * u), m.sin(Pi * u));
                var c2 := ChildTwo(AsBody(), ChildSpeed(m), m.cos(Pi * u), m.sin(Pi * u));
                r.Ok? ==> |world.objects| == |rest| + 2 && world.objects[|rest|].AsBody() == c1 && world.objects[|rest| + 1].AsBody() == c2
      ensures r.Fail? ==> r.error == IllegalObject
    {
      var w := world;
      var p := AsBody();
      var speed := ChildSpeed(m);
      var c, s := m.cos(Pi * u), m.sin(Pi * u);
      var b1, b2 := ChildOne(p, speed, c, s), ChildTwo(p, speed, c, s);
      var _ := w.RemoveObject(this);
      ghost var rest := w.objects;
      assert rest == Without(old(world.objects), this);
      r := w.AddChildren(b1, b2);
    }

    /** Whether `fireBullet` gets past its guard: a world, and fewer than three own bullets in it. */
    predicate MayFire()
      reads this, world, ObjectsOf(world)
    {
      world != null && BulletsFrom(this, world.objects) < MaxBullets
    }

    /**
     * `fireBullet` as it should be: the guard, a new bullet 3 + r ahead of
     * the ship along its heading with 250 added to its velocity, and its
     * `addObject`. The search that follows for a member the new bullet
     * touches skips the ship itself, so it can find nothing: `addObject`
     * only admits a bullet that touches no member but its source.
     */
    method FireBullet(m: MathFns) returns (r: Outcome<()>)
      requires Valid() && kind == ShipKind
      requires world != null ==> world.Valid() && this in world.objects
      modifies world, ObjectsOf(world)
      ensures world == old(world)
      ensures forall s :: s in old(ObjectsOf(world)) ==> s.AsBody() == old(s.AsBody()) && s.Attributes() == old(s.Attributes())
      ensures world != null ==> world.Valid() && this in world.objects
      ensures world != null ==> forall s :: s in world.objects ==> s in old(world.objects) || fresh(s)
      ensures !old(MayFire()) ==> r == Ok(()) && (world != null ==> world.objects == old(world.objects))
      ensures old(MayFire()) ==>
                var bb := SpawnedBullet(old(AsBody()), m.cos(old(angle)), m.sin(old(angle)));
                FirstHit(bb, this, old(world.objects)).None? ==>
                  && r == Ok(())
                  && |world.objects| == |old(world.objects)| + 1
                  && world.objects[..|old(world.objects)|] == old(world.objects)
                  && fresh(world.objects[|old(world.objects)|])
                  && world.objects[|old(world.objects)|].kind == BulletKind
                  && world.objects[|old(world.objects)|].AsBody() == bb
                  && world.objects[|old(world.objects)|].source == this
      ensures old(MayFire()) ==>
                var bb := SpawnedBullet(old(AsBody()), m.cos(old(angle)), m.sin(old(angle)));
                FirstHit(bb, this, old(world.objects)).Some? ==>
                  var k := FirstHit(bb, this, old(world.objects)).value;
                  && world.objects == Without(old(world.objects), old(world.objects)[k])
                  && r == Fail(if k < |old(world.objects)| - 1 then ConcurrentModification else IllegalObject)
    {
      var b;
      r, b := LaunchBullet(m);
      if b == null {
        return;
      }
      var i := SearchOverlap(b, world.objects, this);
      if i < |world.objects| {
        assert false;
      }
    }

    /**
     * `fireBullet` as written: the search after `addObject` does not skip
     * the ship, so a bullet that touches its own ship (as every bullet
     * does, see BulletTouchesSource) is resolved against it and dies at once.
     */
    method FireBulletAsWritten(m: MathFns, u: real) returns (r: Outcome<()>)
      requires Valid() && kind == ShipKind
      requires world != null ==> world.Valid() && this in world.objects
      modifies world, ObjectsOf(world)
      ensures world == old(world)
      ensures forall s :: s in old(ObjectsOf(world)) ==> s.AsBody() == old(s.AsBody()) && s.Attributes() == old(s.Attributes())
      ensures world != null ==> world.Valid() && this in world.objects
      ensures world != null ==> forall s :: s in world.objects ==> s in old(world.objects) || fresh(s)
      ensures !old(MayFire()) ==> r == Ok(()) && (world != null ==> world.objects == old(world.objects))
      ensures old(MayFire()) ==>
                var bb := SpawnedBullet(old(AsBody()), m.cos(old(angle)), m.sin(old(angle)));
                FirstHit(bb, this, old(world.objects)).None? && GapAtMostSigma(bb, old(AsBody())) ==>
                  r == Ok(()) && world.objects == old(world.objects)
      ensures old(MayFire()) ==>
                var bb := SpawnedBullet(old(AsBody()), m.cos(old(angle)), m.sin(old(angle)));
                FirstHit(bb, this, old(world.objects)).None? && !GapAtMostSigma(bb, old(AsBody())) ==>
                  && r == Ok(())
                  && |world.objects| == |old(world.objects)| + 1
                  && world.objects[..|old(world.objects)|] == old(world.objects)
                  && world.objects[|old(world.objects)|].AsBody() == bb
      ensures old(MayFire()) ==>
                var bb := SpawnedBullet(old(AsBody()), m.cos(old(angle)), m.sin(old(angle)));
                FirstHit(bb, this, old(world.objects)).Some? ==>
                  var k := FirstHit(bb, this, old(world.objects)).value;
                  && world.objects == Without(old(world.objects), old(world.objects)[k])
                  && r == Fail(if k < |old(world.objects)| - 1 then ConcurrentModification else IllegalObject)
    {
      if !MayFire() {
        return Ok(());
      }
      ghost var objs := world.objects;
      ghost var bb := SpawnedBullet(AsBody(), m.cos(angle), m.sin(angle));
      var b;
      r, b := LaunchBullet(m);
      if b == null {
        return;
      }
      assert world.objects == objs + [b] && b.AsBody() == bb;
      assert world.objects[..|world.objects| - 1] == objs;
      assert b.Overlap(this) <==> GapAtMostSigma(bb, old(AsBody()));
      r := SearchAndResolveAsWritten(b, m, u);
    }

    /**
     * The loop of `fireBullet` as written, after the new bullet b has been
     * admitted as the last member: the first member b overlaps is the ship
     * itself when it touches it (no other member does), and b then dies.
     */
    method SearchAndResolveAsWritten(b: SpaceObject, m: MathFns, u: real) returns (r: Outcome<()>)
      requires Valid() && kind == ShipKind && b.Valid() && b.kind == BulletKind && b.source == this
      requires world != null && world.Valid() && this in world.objects
      requires |world.objects| > 0 && world.objects[|world.objects| - 1] == b
      requires FirstHit(b.AsBody(), this, world.objects[..|world.objects| - 1]).None?
      modifies world, world.objects
      ensures world == old(world) && r == Ok(())
      ensures forall s :: s in old(world.objects) ==> s.AsBody() == old(s.AsBody()) && s.Attributes() == old(s.Attributes())
      ensures world.Valid() && this in world.objects
      ensures old(b.Overlap(this)) ==> world.objects == old(world.objects)[..|old(world.objects)| - 1]
      ensures !old(b.Overlap(this)) ==> world.objects == old(world.objects)
    {
      var w := world;
      ghost var before := w.objects[..|w.objects| - 1];
      assert w.objects == before + [b];
      assert this in before;
      var i := SearchOverlap(b, w.objects, null);
      r := Ok(());
      if i < |w.objects| {
        assert w.objects[i] == this;
        r := ResolveOwnBullet(b, m, u);
        WithoutAppended(before, b);
      }
    }

    /** `bullet.resolve(ship)` for a bullet b this ship fired: the bullet terminates, nothing else changes. */
    method ResolveOwnBullet(b: SpaceObject, m: MathFns, u: real) returns (r: Outcome<()>)
      requires Valid() && kind == ShipKind && b.Valid() && b.kind == BulletKind && b.source == this && b != this
      requires world != null && world.Valid() && this in world.objects && b in world.objects
      modifies b, this, world, world.objects
      ensures world == old(world) && r == Ok(())
      ensures world.objects == Without(old(world.objects), b)
      ensures forall s :: s in old(world.objects) ==> s.AsBody() == old(s.AsBody()) && s.Attributes() == old(s.Attributes())
      ensures world.Valid() && this in world.objects
    {
      var w := world;
      assert Reaction(b.kind, kind, source == b, b.source == this) == Effect(false, true, false);
      r := b.Resolve(this, m, u);
      assert this in w.objects;
    }

    /**
     * The common part of both versions of `fireBullet`: the guard, the new
     * bullet, and its `addObject`. Returns the bullet when it was admitted.
     */
    method LaunchBullet(m: MathFns) returns (r: Outcome<()>, b: SpaceObject?)
      requires Valid() && kind == ShipKind
      requires world != null ==> world.Valid() && this in world.objects
      modifies world, ObjectsOf(world)
      ensures world == old(world)
      ensures forall s :: s in old(ObjectsOf(world)) ==> s.AsBody() == old(s.AsBody()) && s.Attributes() == old(s.Attributes())
      ensures world != null ==> world.Valid() && this in world.objects
      ensures world != null ==> forall s :: s in world.objects ==> s in old(world.objects) || fresh(s)
      ensures !old(MayFire()) ==> r == Ok(()) && b == null && (world != null ==> world.objects == old(world.objects))
      ensures old(MayFire()) ==>
                var bb := SpawnedBullet(old(AsBody()), m.cos(old(angle)), m.sin(old(angle)));
                FirstHit(bb, this, old(world.objects)).None? ==>
                  && r == Ok(()) && b != null && fresh(b)
                  && world.objects == old(world.objects) + [b]
                  && b.kind == BulletKind && b.AsBody() == bb && b.source == this && b.world == world
      ensures old(MayFire()) ==>
                var bb := SpawnedBullet(old(AsBody()), m.cos(old(angle)), m.sin(old(angle)));
                FirstHit(bb, this, old(world.objects)).Some? ==>
                  var k := FirstHit(bb, this, old(world.objects)).value;
                  && b == null
                  && world.objects == Without(old(world.objects), old(world.objects)[k])
                  && r == Fail(if k < |old(world.objects)| - 1 then ConcurrentModification else IllegalObject)
    {
      if !MayFire() {
        return Ok(()), null;
      }
      r, b := Launch(m);
    }

    /** LaunchBullet past its guard. */
    method Launch(m: MathFns) returns (r: Outcome<()>, b: SpaceObject?)
      requires Valid() && kind == ShipKind
      requires world != null && world.Valid() && this in world.objects
      modifies world, world.objects
      ensures world == old(world)
      ensures forall s :: s in old(world.objects) ==> s.AsBody() == old(s.AsBody()) && s.Attributes() == old(s.Attributes())
      ensures world.Valid() && this in world.objects
      ensures forall s :: s in world.objects ==> s in old(world.objects) || fresh(s)
      ensures var bb := SpawnedBullet(old(AsBody()), m.cos(old(angle)), m.sin(old(angle)));
              FirstHit(bb, this, old(world.objects)).None? ==>
                && r == Ok(()) && b != null && fresh(b)
                && world.objects == old(world.objects) + [b]
                && b.kind == BulletKind && b.AsBody() == bb && b.source == this && b.world == world
      ensures var bb := SpawnedBullet(old(AsBody()), m.cos(old(angle)), m.sin(old(angle)));
              FirstHit(bb, this, old(world.objects)).Some? ==>
                var k := FirstHit(bb, this, old(world.objects)).value;
                && b == null
                && world.objects == Without(old(world.objects), old(world.objects)[k])
                && r == Fail(if k < |old(world.objects)| - 1 then ConcurrentModification else IllegalObject)
    {
      var bb := SpawnedBullet(AsBody(), m.cos(angle), m.sin(angle));
      var w := world;
      ghost var objs := w.objects;
      ghost var hit := FirstHit(bb, this, objs);
      ghost var bodies := Bodies(objs);
      FirstHitIsOfBodies(bb, this, objs);
      var bullet := new SpaceObject.Bullet(bb.x, bb.y, bb.vx, bb.vy, this);
      assert bullet.AsBody() == bb && bullet.source == this;
      assert hit == FirstHit(bullet.AsBody(), bullet.source, w.objects);
      r := w.AddObject(bullet);
      assert Bodies(objs) == bodies;
      FirstHitIsOfBodies(bb, this, objs);
      if hit.Some? {
        assert r.Fail? && w.objects == Without(objs, objs[hit.value]);
      } else {
        assert r.Ok? && w.objects == objs + [bullet];
      }
      b := if r.Ok? then bullet else null;
    }

    /** `setProgram`: the field is set first; a null program then fails on `program.setShip(this)`. */
    method SetProgram(p: Program?) returns (r: Outcome<()>)
      modifies this, p
      ensures program == p
      ensures AsBody() == old(AsBody()) && world == old(world)
      ensures Attributes() == old(Attributes()).(program := p)
      ensures p == null ==> r == Fail(NullPointer)
      ensures p != null ==> r == Ok(()) && p.ship == this && p.globals == old(p.globals)
                            && p.statement == old(p.statement) && p.executePosition == old(p.executePosition)
    {
      program := p;
      if p == null {
        return Fail(NullPointer);
      }
      p.ship := this;
      return Ok(());
    }

    /** `setRandom`: null installs a fresh generator, anything else is kept. */
    method SetRandom(g: Random?)
      modifies this
      ensures g != null ==> random == g
      ensures g == null ==> fresh(random)
      ensures AsBody() == old(AsBody()) && world == old(world)
      ensures Attributes() == old(Attributes()).(random := random)
    {
      if g == null {
        random := new Random();
      } else {
        random := g;
      }
    }
  }

  /**
   * The loop of `fireBullet` over the world: the index of the first member
   * other than the bullet b (and other than `skip`) that b overlaps, or the
   * number of members when there is none.
   */
  method SearchOverlap(b: SpaceObject, objs: seq<SpaceObject>, skip: SpaceObject?) returns (i: nat)
    ensures i <= |objs|
    ensures i < |objs| ==> b.Overlap(objs[i]) && b != objs[i] && objs[i] != skip
    ensures forall j :: 0 <= j < i ==> !(b.Overlap(objs[j]) && b != objs[j] && objs[j] != skip)
  {
    i := 0;
    while i < |objs| && !(b.Overlap(objs[i]) && b != objs[i] && objs[i] != skip)
      invariant 0 <= i <= |objs|
      invariant forall j :: 0 <= j < i ==> !(b.Overlap(objs[j]) && b != objs[j] && objs[j] != skip)
    {
      i := i + 1;
    }
  }

  /** An object bouncing off itself (which the Java `assert` rules out) keeps its velocity. */
  lemma BounceOfItselfChangesNothing(a: Body, m: real)
    requires m > 0.0 && Sigma(a, a) != 0.0
    ensures Bounce(a, m, a, m) == (a, a)
  {
    assert DvDr(a, a) == 0.0;
    assert Impulse(a, m, a, m) == 0.0;
  }

  lemma CubeIsPositive(r: real)
    requires r >= 0.0
    ensures r * r * r >= 0.0 && (r * r * r == 0.0 <==> r == 0.0)
  {
    if r > 0.0 {
      assert r * r > 0.0;
      assert (r * r) * r > 0.0;
    }
  }

  class World {
    const width: real
    const height: real
    var objects: seq<SpaceObject>

    /** Every member belongs to this world, is valid, and appears once. */
    predicate Valid()
      reads this, objects
    {
      Distinct(objects) && forall o :: o in objects ==> o.world == this && o.Valid()
    }

    constructor(width: real, height: real)
      ensures this.width == width && this.height == height && objects == [] && Valid()
    {
      this.width, this.height := width, height;
      objects := [];
    }

    /**
     * `isValidCoordinate`, the test both size setters apply: a number no
     * larger than Double.MAX_VALUE. Negative sizes pass.
     */
    static predicate IsValidSize(d: Double)
    {
      d.Num? && d.val <= MaxDouble
    }

    /** `new World(width, height)`: an invalid size is an IllegalArgumentException. */
    static method NewWorld(width: Double, height: Double) returns (r: Outcome<World>)
      ensures r.Fail? <==> !IsValidSize(width) || !IsValidSize(height)
      ensures r.Fail? ==> r.error == IllegalArgument
      ensures r.Ok? ==> fresh(r.value) && r.value.Valid() && r.value.objects == []
      ensures r.Ok? ==> r.value.width == width.val && r.value.height == height.val
    {
      if !IsValidSize(width) || !IsValidSize(height) {
        return Fail(IllegalArgument);
      }
      var w := new World(width.val, height.val);
      return Ok(w);
    }

    /**
     * `removeObject`: null is a NullPointerException; the object's own
     * world reference is not cleared here (Die does that).
     */
    method RemoveObject(o: SpaceObject?) returns (r: Outcome<()>)
      requires Valid()
      modifies this
      ensures o == null ==> r == Fail(NullPointer) && objects == old(objects)
      ensures o != null ==> r == Ok(()) && objects == Without(old(objects), o)
      ensures Valid()
    {
      if o == null {
        return Fail(NullPointer);
      }
      objects := Without(objects, o);
      return Ok(());
    }

    /**
     * `addObject`: null is a NullPointerException. A ship or asteroid that
     * overlaps a member is refused with IllegalObjectException and nothing
     * changes. A bullet may overlap its own source; the first other member
     * it overlaps dies, and so does the bullet (which is in no world yet,
     * so that does nothing). The Java loop then goes on iterating the set
     * it has just changed: unless the victim was the last element visited,
     * the next step throws ConcurrentModificationException, otherwise the
     * add ends in IllegalObjectException. An accepted object joins the
     * members and knows its world.
     */
    method AddObject(o: SpaceObject?) returns (r: Outcome<()>)
      requires Valid()
      requires o != null ==> o.Valid() && o.world == null
      modifies this, objects, o
      ensures Valid()
      ensures o == null ==> r == Fail(NullPointer) && objects == old(objects)
      ensures o != null && o.kind != BulletKind && old(Blocked(o, objects)) ==>
                r == Fail(IllegalObject) && objects == old(objects) && o.world == null
      ensures o != null && o.kind == BulletKind && old(FirstHit(o.AsBody(), o.source, objects)).Some? ==>
                var k := old(FirstHit(o.AsBody(), o.source, objects)).value;
                && objects == Without(old(objects), old(objects)[k])
                && old(objects)[k].world == null && o.world == null
                && r == Fail(if k < |old(objects)| - 1 then ConcurrentModification else IllegalObject)
      ensures o != null && old(Admits(o, objects)) ==>
                r == Ok(()) && objects == old(objects) + [o] && o.world == this
      ensures forall s :: s in old(objects) ==> s.AsBody() == old(s.AsBody()) && s.Attributes() == old(s.Attributes())
      ensures o != null ==> o.AsBody() == old(o.AsBody()) && o.Attributes() == old(o.Attributes())
    {
      if o == null {
        return Fail(NullPointer);
      }
      var i := 0;
      var valid := true;
      while i < |objects| && !(o.kind == BulletKind && Hits(o.AsBody(), o.source, objects[i]))
        invariant 0 <= i <= |objects|
        invariant forall j :: 0 <= j < i ==> !(o.kind == BulletKind && Hits(o.AsBody(), o.source, objects[j]))
        invariant o.kind != BulletKind ==> (valid <==> forall j :: 0 <= j < i ==> !o.Overlap(objects[j]))
        invariant o.kind == BulletKind ==> valid
      {
        if o.kind != BulletKind && o.Overlap(objects[i]) {
          valid := false;
        }
        i := i + 1;
      }
      if i < |objects| {
        // the bullet hits objects[i]
        assert FirstHit(o.AsBody(), o.source, objects) == Some(i);
        var victim, last := objects[i], i == |objects| - 1;
        victim.Die();
        o.Die();
        return Fail(if last then IllegalObject else ConcurrentModification);
      }
      if !valid {
        return Fail(IllegalObject);
      }
      o.world := this;
      objects := objects + [o];
      return Ok(());
    }

    /**
     * The two `addObject` calls of a split: new asteroids with bodies b1
     * and then b2, the second only when the first is admitted.
     */
    method AddChildren(b1: Body, b2: Body) returns (r: Outcome<()>)
      requires Valid() && b1.radius >= 0.0 && b2.radius >= 0.0
      modifies this, objects
      ensures Valid()
      ensures r.Ok? <==> !BodyBlocked(b1, old(Bodies(objects))) && !BodyBlocked(b2, old(Bodies(objects)) + [b1])
      ensures r.Fail? ==> r.error == IllegalObject
      ensures |old(objects)| <= |objects| <= |old(objects)| + 2 && objects[..|old(objects)|] == old(objects)
      ensures forall i :: |old(objects)| <= i < |objects| ==> fresh(objects[i]) && objects[i].kind == AsteroidKind
      ensures r.Ok? ==> |objects| == |old(objects)| + 2 && objects[|old(objects)|].AsBody() == b1 && objects[|old(objects)| + 1].AsBody() == b2
      ensures forall s :: s in old(objects) ==> s.AsBody() == old(s.AsBody()) && s.Attributes() == old(s.Attributes())
      ensures Bodies(old(objects)) == old(Bodies(objects))
      ensures forall s :: s in old(objects) ==> s in objects
      ensures forall s :: s in objects ==> s in old(objects) || fresh(s)
    {
      ghost var objs, bs := objects, Bodies(objects);
      r := AddChild(b1);
      if r.Fail? {
        return;
      }
      ghost var c1 := objects[|objs|];
      assert Bodies(objects) == bs + [b1];
      r := AddChild(b2);
      if r.Ok? {
        assert objects == objs + [c1, objects[|objs| + 1]];
      }
    }

    /** One `addObject` of a new asteroid with body b. */
    method AddChild(b: Body) returns (r: Outcome<()>)
      requires Valid() && b.radius >= 0.0
      modifies this, objects
      ensures Valid()
      ensures r.Ok? <==> !BodyBlocked(b, old(Bodies(objects)))
      ensures r.Fail? ==> r.error == IllegalObject && objects == old(objects)
      ensures r.Ok? ==> |objects| == |old(objects)| + 1 && objects == old(objects) + [objects[|old(objects)|]]
                        && fresh(objects[|old(objects)|]) && objects[|old(objects)|].kind == AsteroidKind
                        && objects[|old(objects)|].AsBody() == b
      ensures forall s :: s in old(objects) ==> s.AsBody() == old(s.AsBody()) && s.Attributes() == old(s.Attributes())
      ensures Bodies(old(objects)) == old(Bodies(objects))
    {
      var k := SpaceObject.NewChild(b);
      assert Blocked(k, objects) <==> BodyBlocked(b, Bodies(objects));
      r := AddObject(k);
    }

    /** `getShips`, `getAsteroids` and `getBullets`: exactly the members of one kind. */
    method MembersOfKind(k: Kind) returns (r: set<SpaceObject>)
      ensures forall s :: s in r <==> s in objects && s.kind == k
    {
      r := {};
      for i := 0 to |objects|
        invariant forall s :: s in r <==> s in objects[..i] && s.kind == k
      {
        assert objects[..i + 1] == objects[..i] + [objects[i]];
        if objects[i].kind == k {
          r := r + {objects[i]};
        }
      }
      assert objects[..|objects|] == objects;
    }

    /** `isValidEvolveArgument`: a number above zero. */
    static predicate IsValidEvolveArgument(dt: Double)
    {
      dt.Num? && dt.val > 0.0
    }

    /** The loop `for (SpaceObject o : Objects) o.move(dt)`. */
    method MoveAll(dt: real, m: MathFns)
      requires Valid()
      modifies objects
      ensures objects == old(objects) && Valid()
      ensures Bodies(objects) == old(MovedAll(objects, dt, m))
      ensures forall s :: s in objects ==> s.Attributes() == old(s.Attributes())
    {
      ghost var moved := MovedAll(objects, dt, m);
      ghost var objs := objects;
      ghost var attrs := seq(|objs|, k requires 0 <= k < |objs| reads objs => objs[k].Attributes());
      for i := 0 to |objects|
        invariant forall k :: 0 <= k < i ==> objects[k].AsBody() == moved[k]
        invariant forall k :: i <= k < |objects| ==> objects[k].AfterMove(dt, m) == moved[k]
        invariant forall k :: 0 <= k < |objects| ==> objects[k].Attributes() == attrs[k] && objects[k].world == this
      {
        objects[i].Move(dt, m);
      }
    }

    /**
     * The two nested loops of `evolve` that find the first event, run on
     * the members' bodies; a pair (i, j) with i == j is skipped, which for
     * distinct members is the test `!spaceobject1.equals(spaceobject2)`.
     */
    method FindFirstEvent(sqrt: real -> real) returns (p: Pick)
      ensures p == FirstEvent(Bodies(objects), width, height, sqrt)
    {
      p := SearchFirstEvent(Bodies(objects), width, height, sqrt);
    }

    /**
     * What resolving event e did to the members objs, whose bodies and
     * attributes before it were bs and ats: a wall event is WallResolved,
     * a collision PairResolved. Members the event does not name keep their
     * bodies.
     */
    predicate Resolved(e: Event, objs: seq<SpaceObject>, bs: seq<Body>, ats: seq<Attrs>, m: MathFns, u: real, r: Outcome<()>)
      reads this, objects, objs
    {
      && |bs| == |objs| && |ats| == |objs|
      && (forall k :: 0 <= k < |objs| && k != e.i && (e.Collide? ==> k != e.j) ==> objs[k].AsBody() == bs[k])
      && match e
         case Wall(i) => WallResolved(i, objs, bs, ats, r)
         case Collide(i, j) => PairResolved(i, j, objs, bs, ats, m, u, r)
    }

    /**
     * A wall event of member i is its `resolveBoundaryCollision` inside
     * this world: a bullet counts the bounce and on its second one leaves
     * the world unmoved; any other object is reflected at the wall and
     * stays.
     */
    predicate WallResolved(i: nat, objs: seq<SpaceObject>, bs: seq<Body>, ats: seq<Attrs>, r: Outcome<()>)
      requires |bs| == |objs| && |ats| == |objs|
      reads this, objects, objs
    {
      && i < |objs|
      && (objs[i].kind == BulletKind ==> objs[i].Attributes() == ats[i].(bounces := ats[i].bounces + 1))
      && (objs[i].kind != BulletKind ==> objs[i].Attributes() == ats[i])
      && r == Ok(())
      && if objs[i].kind == BulletKind && ats[i].bounces == 1 then
           objects == Without(objs, objs[i]) && objs[i].world == null && objs[i].AsBody() == bs[i]
         else
           objects == objs && objs[i].AsBody() == Reflected(bs[i], width)
    }

    /**
     * A collision of members i and j is member i's `resolve` against
     * member j: each of the two leaves the world as `Reaction` says; a
     * bounce keeps the members and gives the pair the bodies of `Bounce`,
     * or fails with NaN exactly when the masses and radii fail the test of
     * CanBounce (they never change); otherwise no body changes, and no
     * attribute changes in either case.
     */
    predicate PairResolved(i: nat, j: nat, objs: seq<SpaceObject>, bs: seq<Body>, ats: seq<Attrs>, m: MathFns, u: real, r: Outcome<()>)
      requires |bs| == |objs| && |ats| == |objs|
      reads this, objects, objs
    {
      && i < |objs| && j < |objs|
      && (forall k :: 0 <= k < |objs| ==> objs[k].Attributes() == ats[k])
      && (forall s :: s in objs && s != objs[i] && s != objs[j] ==> s in objects)
      && var eff := Reaction(objs[i].kind, objs[j].kind, objs[j].source == objs[i], objs[i].source == objs[j]);
         && (eff.firstDies <==> objs[i] !in objects)
         && (eff.secondDies <==> objs[j] !in objects)
         && (eff.bounce ==>
               && objects == objs
               && (r.Ok? <==> objs[i].Mass() > 0.0 && objs[j].Mass() > 0.0 && Sigma(bs[i], bs[j]) != 0.0)
               && (r.Ok? ==> objs[i].AsBody() == Bounce(bs[i], objs[i].Mass(), bs[j], objs[j].Mass()).0
                             && objs[j].AsBody() == Bounce(bs[i], objs[i].Mass(), bs[j], objs[j].Mass()).1)
               && (r.Fail? ==> r.error == NotANumber))
         && (!eff.bounce ==>
               && (r.Fail? ==> r.error == IllegalObject)
               && objs[i].AsBody() == bs[i] && objs[j].AsBody() == bs[j])
         && (!eff.bounce && !(eff.firstDies && eff.secondDies) ==> r == Ok(()))
         && (!eff.bounce && eff.firstDies && !eff.secondDies ==> objects == Without(objs, objs[i]))
         && (!eff.bounce && !eff.firstDies && eff.secondDies ==> objects == Without(objs, objs[j]))
         && (!eff.bounce && !eff.firstDies && !eff.secondDies ==> objects == objs)
         && (eff.firstDies && eff.secondDies ==>
               var (b, t) := if objs[i].kind == BulletKind then (i, j) else (j, i);
               Terminated(objs[t], Without(objs, objs[b]), bs[t], objs[t].kind == AsteroidKind && bs[t].radius >= SplitRadius, m, u, r))
    }

    /**
     * What `terminate` of member t did when the members were before and
     * t's body was tb: t left the members. Unless it split (splits), that
     * is all and it succeeded. A split appended asteroids only, at most
     * the two children of tb for the direction pi * u, in that order, and
     * succeeded exactly when neither child overlaps the members it meets.
     */
    predicate Terminated(t: SpaceObject, before: seq<SpaceObject>, tb: Body, splits: bool, m: MathFns, u: real, r: Outcome<()>)
      reads this, objects, before
    {
      var rest := Without(before, t);
      var c1 := ChildOne(tb, SplitSpeed(tb, m), m.cos(Pi * u), m.sin(Pi * u));
      var c2 := ChildTwo(tb, SplitSpeed(tb, m), m.cos(Pi * u), m.sin(Pi * u));
      if !splits then
        r == Ok(()) && objects == rest
      else
        && |rest| <= |objects| <= |rest| + 2 && objects[..|rest|] == rest
        && (forall k :: |rest| <= k < |objects| ==> objects[k].kind == AsteroidKind)
        && (r.Ok? <==> !BodyBlocked(c1, Bodies(rest)) && !BodyBlocked(c2, Bodies(rest) + [c1]))
        && (r.Ok? ==> |objects| == |rest| + 2 && objects[|rest|].AsBody() == c1 && objects[|rest| + 1].AsBody() == c2)
        && (r.Fail? ==> r.error == IllegalObject)
    }

    /**
     * Under `overlap` as written, a termination that splits fails for
     * every unit direction: the second child is refused (SecondChildIsBlocked).
     */
    lemma SplitIsRefused(t: SpaceObject, before: seq<SpaceObject>, tb: Body, m: MathFns, u: real, r: Outcome<()>)
      requires Terminated(t, before, tb, true, m, u, r)
      requires tb.radius >= SplitRadius
      requires m.cos(Pi * u) * m.cos(Pi * u) + m.sin(Pi * u) * m.sin(Pi * u) == 1.0
      ensures r == Fail(IllegalObject)
    {
      SecondChildIsBlocked(tb, SplitSpeed(tb, m), m.cos(Pi * u), m.sin(Pi * u), Bodies(Without(before, t)));
    }

    /**
     * Resolving the chosen event: `resolveBoundaryCollision` of member i for
     * a wall event, `resolve` of member i against member j for a collision.
     * (Here and in Advance and Pass, `Resolved` is stated for every ev equal
     * to the event, so that callers only unfold it when they ask about it.)
     */
    method ResolveEvent(e: Event, m: MathFns, u: real) returns (r: Outcome<()>)
      requires Valid()
      requires e.Collide? ==> e.i < |objects| && e.j < |objects| && e.i != e.j
      requires e.Wall? ==> e.i < |objects|
      modifies this, objects
      ensures Valid()
      ensures forall s :: s in objects ==> s in old(objects) || fresh(s)
      ensures forall ev :: ev == e ==> Resolved(ev, old(objects), old(Bodies(objects)), old(AttrsOf(objects)), m, u, r)
      ensures r.Fail? ==> r.error == NotANumber || r.error == IllegalObject
    {
      ghost var objs, bs, ats := objects, Bodies(objects), AttrsOf(objects);
      if e.Wall? {
        r := ResolveWall(e.i);
        assert WallResolved(e.i, objs, bs, ats, r);
      } else {
        r := ResolvePair(e.i, e.j, m, u);
        assert PairResolved(e.i, e.j, objs, bs, ats, m, u, r);
      }
      assert Resolved(e, objs, bs, ats, m, u, r);
    }

    /** The wall event of member i: its `resolveBoundaryCollision`. */
    method ResolveWall(i: nat) returns (r: Outcome<()>)
      requires Valid()
      requires i < |objects|
      modifies this, objects
      ensures Valid()
      ensures forall s :: s in objects ==> s in old(objects)
      ensures forall k :: 0 <= k < |old(objects)| && k != i ==> old(objects)[k].AsBody() == old(Bodies(objects))[k]
      ensures WallResolved(i, old(objects), old(Bodies(objects)), old(AttrsOf(objects)), r)
    {
      var a := objects[i];
      r := a.ResolveBoundaryCollision();
    }

    /** The collision of members i and j: `resolve` of i against j. */
    method ResolvePair(i: nat, j: nat, m: MathFns, u: real) returns (r: Outcome<()>)
      requires Valid()
      requires i < |objects| && j < |objects| && i != j
      modifies this, objects
      ensures Valid()
      ensures forall s :: s in objects ==> s in old(objects) || fresh(s)
      ensures forall k :: 0 <= k < |old(objects)| && k != i && k != j ==> old(objects)[k].AsBody() == old(Bodies(objects))[k]
      ensures PairResolved(i, j, old(objects), old(Bodies(objects)), old(AttrsOf(objects)), m, u, r)
      ensures r.Fail? ==> r.error == NotANumber || r.error == IllegalObject
    {
      var a := objects[i];
      var b := objects[j];
      r := a.Resolve(b, m, u);
    }

    /**
     * The rest of one pass of the `while (true)` loop of `evolve`, for an
     * event e at time t that does not come after the time left: every
     * member moves by t and the event is resolved.
     */
    method Advance(t: real, e: Event, m: MathFns, u: real) returns (r: Outcome<()>)
      requires Valid()
      requires e.Collide? ==> e.i < |objects| && e.j < |objects| && e.i != e.j
      requires e.Wall? ==> e.i < |objects|
      modifies this, objects
      ensures Valid()
      ensures forall s :: s in objects ==> s in old(objects) || fresh(s)
      ensures forall ev :: ev == e ==> Resolved(ev, old(objects), old(MovedAll(objects, t, m)), old(AttrsOf(objects)), m, u, r)
      ensures r.Fail? ==> r.error == NotANumber || r.error == IllegalObject
    {
      ghost var ats := AttrsOf(objects);
      MoveAll(t, m);
      assert AttrsOf(objects) == ats;
      r := ResolveEvent(e, m, u);
    }

    /**
     * One pass of the loop of `evolve`: find the first event; when it lies
     * beyond the time left, move every member by the time left and stop
     * (done); otherwise move every member to the event and resolve it.
     * `step` is the duration the members were moved by.
     */
    method Pass(left: real, m: MathFns, u: real) returns (r: Outcome<()>, step: real, done: bool)
      requires Valid()
      modifies this, objects
      ensures Valid()
      ensures forall s :: s in objects ==> s in old(objects) || fresh(s)
      ensures forall i :: 0 <= i < |objects| ==> objects[i] in old(objects) || fresh(objects[i])
      ensures done <==> old(Exceeds(FirstEvent(Bodies(objects), width, height, m.sqrt).t, left))
      ensures done ==> r == Ok(()) && step == left && objects == old(objects) && Bodies(objects) == old(MovedAll(objects, left, m))
      ensures !done ==> old(FirstEvent(Bodies(objects), width, height, m.sqrt)).t == Finite(step)
      ensures !done ==>
                old(FirstEvent(Bodies(objects), width, height, m.sqrt)).e.Some?
                && forall ev :: ev == old(FirstEvent(Bodies(objects), width, height, m.sqrt)).e.value ==>
                     Resolved(ev, old(objects), old(MovedAll(objects, step, m)), old(AttrsOf(objects)), m, u, r)
      ensures r.Fail? ==> r.error == NotANumber || r.error == IllegalObject
    {
      var p := FindFirstEvent(m.sqrt);
      if Exceeds(p.t, left) {
        MoveAll(left, m);
        return Ok(()), left, true;
      }
      FirstEventIsACandidate(Bodies(objects), width, height, m.sqrt);
      step, done := p.t.t, false;
      ghost var objs, bs, ats := objects, MovedAll(objects, step, m), AttrsOf(objects);
      r := Advance(step, p.e.value, m, u);
      assert objs == old(objects) && bs == old(MovedAll(objects, step, m)) && ats == old(AttrsOf(objects));
    }

    /**
     * A Pass as the loop of Evolve uses it: whether it was the last one,
     * and by how much it moved the members (what the pass resolved is
     * Pass's own contract, which the loop does not need).
     */
    method TimedPass(left: real, m: MathFns, u: real) returns (r: Outcome<()>, step: real, done: bool)
      requires Valid()
      modifies this, objects
      ensures Valid()
      ensures forall s :: s in objects ==> s in old(objects) || fresh(s)
      ensures forall i :: 0 <= i < |objects| ==> objects[i] in old(objects) || fresh(objects[i])
      ensures done <==> old(Exceeds(FirstEvent(Bodies(objects), width, height, m.sqrt).t, left))
      ensures done ==> r == Ok(()) && step == left && objects == old(objects) && Bodies(objects) == old(MovedAll(objects, left, m))
      ensures !done ==> old(FirstEvent(Bodies(objects), width, height, m.sqrt)).t == Finite(step)
      ensures r.Fail? ==> r.error == NotANumber || r.error == IllegalObject
    {
      r, step, done := Pass(left, m, u);
    }

    /**
     * Each of the passes recorded has moved the members by the time of the
     * first event of the bodies they had at its start.
     */
    ghost predicate TimedPasses(trace: seq<seq<Body>>, moves: seq<real>, sqrt: real -> real)
    {
      |trace| == |moves| && forall j :: 0 <= j < |moves| ==> FirstEvent(trace[j], width, height, sqrt).t == Finite(moves[j])
    }

    /** A pass that moved bodies bs by the time of their first event extends the record. */
    lemma TimedPassesGrow(trace: seq<seq<Body>>, moves: seq<real>, bs: seq<Body>, step: real, sqrt: real -> real)
      requires TimedPasses(trace, moves, sqrt) && FirstEvent(bs, width, height, sqrt).t == Finite(step)
      ensures TimedPasses(trace + [bs], moves + [step], sqrt)
    {
    }

    /**
     * `evolve(dt)` as it should end: passes until the first event lies
     * beyond the time left, then every member moves by the time left.
     * The numbers the splits of asteroids draw come from `draw`, one per
     * pass; after `fuel` passes the loop is given up (Diverges). The ghost
     * `moves` are the durations the members were moved by, in order, and
     * `trace` the members' bodies at the start of each of those passes:
     * every pass but a successful last one moves by the time of the first
     * event of its bodies (and Pass says how that event is resolved); the
     * last pass of a successful evolve moves by the time left, which its
     * first event lies beyond.
     */
    method Evolve(dt: Double, m: MathFns, draw: nat -> real, fuel: nat)
      returns (r: Outcome<()>, ghost moves: seq<real>, ghost trace: seq<seq<Body>>)
      requires Valid()
      modifies this, objects
      ensures Valid()
      ensures |trace| == |moves|
      ensures |trace| > 0 ==> trace[0] == old(Bodies(objects))
      ensures forall k :: 0 <= k < |moves| && !(r.Ok? && k == |moves| - 1) ==>
                FirstEvent(trace[k], width, height, m.sqrt).t == Finite(moves[k])
      ensures r.Ok? ==> |moves| > 0 && Exceeds(FirstEvent(trace[|moves| - 1], width, height, m.sqrt).t, moves[|moves| - 1])
      ensures forall s :: s in objects ==> s in old(objects) || fresh(s)
      ensures !IsValidEvolveArgument(dt) ==> r == Fail(IllegalArgument) && objects == old(objects) && Bodies(objects) == old(Bodies(objects))
      ensures IsValidEvolveArgument(dt) && fuel > 0 && Exceeds(old(FirstEvent(Bodies(objects), width, height, m.sqrt)).t, dt.val) ==>
                r == Ok(()) && objects == old(objects) && Bodies(objects) == old(MovedAll(objects, dt.val, m))
      ensures r.Ok? ==> Sum(moves) == dt.val
      ensures r.Fail? && IsValidEvolveArgument(dt) ==> r.error in {NotANumber, IllegalObject, Diverges}
    {
      if !IsValidEvolveArgument(dt) {
        return Fail(IllegalArgument), [], [];
      }
      var left := dt.val;
      moves, trace := [], [];
      if fuel == 0 {
        return Fail(Diverges), moves, trace;
      }
      // The first pass is written out, so that its outcome is stated in
      // terms of the bodies the members have on entry.
      var step, done;
      ghost var before := Bodies(objects);
      r, step, done := TimedPass(left, m, draw(0));
      if r.Fail? {
        return;
      }
      if done {
        return Ok(()), [step], [before];
      }
      moves, trace := [step], [before];
      left := left - step;
      ghost var objs0 := old(objects);
      var k := 1;
      while k < fuel
        invariant Valid()
        invariant |trace| == |moves| == k
        invariant trace[0] == old(Bodies(objects))
        invariant TimedPasses(trace, moves, m.sqrt)
        invariant forall s :: s in objects ==> s in objs0 || fresh(s)
        invariant forall i :: 0 <= i < |objects| ==> objects[i] in objs0 || fresh(objects[i])
        invariant Sum(moves) + left == dt.val
      {
        before := Bodies(objects);
        r, step, done := TimedPass(left, m, draw(k));
        if r.Fail? {
          return;
        }
        SumAppend(moves, step);
        if done {
          assert Exceeds(FirstEvent(before, width, height, m.sqrt).t, step);
          return Ok(()), moves + [step], trace + [before];
        }
        TimedPassesGrow(trace, moves, before, step, m.sqrt);
        moves, trace := moves + [step], trace + [before];
        left := left - step;
        k := k + 1;
      }
      return Fail(Diverges), moves, trace;
    }

    /**
     * `evolve(dt)` as written: after the loop breaks, every member moves by
     * the time of the event found last, which lies beyond the time left,
     * instead of by the time left. When no event lies ahead that time is
     * infinite and the positions become infinite or NaN (NotANumber here).
     */
    method EvolveAsWritten(dt: Double, m: MathFns, draw: nat -> real, fuel: nat) returns (r: Outcome<()>)
      requires Valid()
      modifies this, objects
      ensures Valid()
      ensures forall s :: s in objects ==> s in old(objects) || fresh(s)
      ensures !IsValidEvolveArgument(dt) ==> r == Fail(IllegalArgument) && objects == old(objects) && Bodies(objects) == old(Bodies(objects))
      ensures IsValidEvolveArgument(dt) && fuel > 0 ==>
                var first := old(FirstEvent(Bodies(objects), width, height, m.sqrt)).t;
                first.Finite? && first.t > dt.val ==>
                  r == Ok(()) && objects == old(objects) && Bodies(objects) == old(MovedAll(objects, first.t, m))
      ensures IsValidEvolveArgument(dt) && fuel > 0 && old(FirstEvent(Bodies(objects), width, height, m.sqrt)).t == Infinite ==>
                r == Fail(NotANumber) && objects == old(objects)
      ensures r.Fail? && IsValidEvolveArgument(dt) ==> r.error in {NotANumber, IllegalObject, Diverges}
    {
      if !IsValidEvolveArgument(dt) {
        return Fail(IllegalArgument);
      }
      var left := dt.val;
      var k := 0;
      while k < fuel
        invariant Valid()
        invariant forall s :: s in objects ==> s in old(objects) || fresh(s)
        invariant forall i :: 0 <= i < |objects| ==> objects[i] in old(objects) || fresh(objects[i])
        invariant k == 0 ==> objects == old(objects) && Bodies(objects) == old(Bodies(objects)) && left == dt.val
                             && forall d :: MovedAll(objects, d, m) == old(MovedAll(objects, d, m))
        invariant k > 0 ==> !Exceeds(old(FirstEvent(Bodies(objects), width, height, m.sqrt)).t, dt.val)
      {
        var p := FindFirstEvent(m.sqrt);
        if Exceeds(p.t, left) {
          if p.t.Infinite? {
            return Fail(NotANumber);
          }
          MoveAll(p.t.t, m);
          return Ok(());
        }
        FirstEventIsACandidate(Bodies(objects), width, height, m.sqrt);
        r := Advance(p.t.t, p.e.value, m, draw(k));
        if r.Fail? {
          return;
        }
        left := left - p.t.t;
        k := k + 1;
      }
      return Fail(Diverges);
    }
  }

  /** The bodies the members objs have after each of them moved by dt. */
  function MovedAll(objs: seq<SpaceObject>, dt: real, m: MathFns): (r: seq<Body>)
    reads objs
    ensures |r| == |objs|
    ensures forall i :: 0 <= i < |objs| ==> r[i] == objs[i].AfterMove(dt, m)
  {
    seq(|objs|, i requires 0 <= i < |objs| reads objs => objs[i].AfterMove(dt, m))
  }

  /**
   * An asteroid alone at the centre of a 1000 x 1000 world, moving right at
   * 10: the first event is its wall collision at time 49. Evolving by 1
   * should leave it at x = 510; `evolve` as written moves it by 49, to the wall.
   */
  lemma EvolveOvershootExample()
    ensures var b := Body(500.0, 500.0, 10.0, 0.0, 10.0);
            && FirstEvent([b], 1000.0, 1000.0, x => x) == Pick(Finite(49.0), Some(Wall(0)))
            && Exceeds(Finite(49.0), 1.0)
            && Moved(b, 1.0).x == 510.0
            && Moved(b, 49.0).x == 990.0 && Moved(b, 49.0).x == 1000.0 - b.radius
  {
    var b := Body(500.0, 500.0, 10.0, 0.0, 10.0);
    assert Schedule(1) == [Wall(0)] by {
      assert PairRow(0, 1) == PairRow(0, 0) == [];
      assert Row(1, 0) == [Wall(0)];
      assert Rows(1, 1) == Rows(1, 0) + Row(1, 0);
    }
    assert AxisTime(b.y, b.vy, b.radius, 1000.0) == Infinite;
    assert AxisTime(b.x, b.vx, b.radius, 1000.0) == Finite(49.0) by {
      assert 490.0 / 10.0 == 49.0;
    }
    assert BoundaryTime(b, 1000.0, 1000.0) == Finite(49.0);
    assert EventTime([b], 1000.0, 1000.0, x => x, Wall(0)) == Finite(49.0);
    assert Scan([b], 1000.0, 1000.0, x => x, [Wall(0)]) == Pick(Finite(49.0), Some(Wall(0))) by {
      assert [Wall(0)][..0] == [];
      assert Scan([b], 1000.0, 1000.0, x => x, []) == Pick(Infinite, None);
    }
  }

  /** The sum of a sequence of durations. */
  function Sum(s: seq<real>): real
  {
    if s == [] then 0.0 else Sum(s[..|s| - 1]) + s[|s| - 1]
  }

  /** Appending a duration adds it to the sum. */
  lemma SumAppend(s: seq<real>, x: real)
    ensures Sum(s + [x]) == Sum(s) + x
  {
    assert (s + [x])[..|s|] == s;
  }

  /** A bullet with body b fired by src hits s when they overlap (as `overlap` is written) and s is not src. */
  predicate Hits(b: Body, src: SpaceObject?, s: SpaceObject)
    reads s
  {
    GapAtMostSigma(b, s.AsBody()) && src != s
  }

  /** The index of the first member a bullet with body b fired by src hits, in iteration order. */
  function FirstHit(b: Body, src: SpaceObject?, objs: seq<SpaceObject>): (r: Option<nat>)
    reads objs
    ensures r.Some? ==> r.value < |objs| && Hits(b, src, objs[r.value])
    ensures r.Some? ==> forall i :: 0 <= i < r.value ==> !Hits(b, src, objs[i])
    ensures r.None? ==> forall i :: 0 <= i < |objs| ==> !Hits(b, src, objs[i])
  {
    if objs == [] then None
    else if Hits(b, src, objs[0]) then Some(0)
    else match FirstHit(b, src, objs[1..])
      case None => None
      case Some(k) => Some(k + 1)
  }

  /** FirstHit computed from bodies bs given for the members objs. */
  function FirstHitOf(b: Body, src: SpaceObject?, objs: seq<SpaceObject>, bs: seq<Body>): Option<nat>
    requires |bs| == |objs|
  {
    if objs == [] then None
    else if GapAtMostSigma(b, bs[0]) && src != objs[0] then Some(0)
    else match FirstHitOf(b, src, objs[1..], bs[1..])
      case None => None
      case Some(k) => Some(k + 1)
  }

  /** FirstHit only looks at the members' bodies, so it stays while they do. */
  lemma {:induction false} FirstHitIsOfBodies(b: Body, src: SpaceObject?, objs: seq<SpaceObject>)
    ensures FirstHit(b, src, objs) == FirstHitOf(b, src, objs, Bodies(objs))
  {
    if objs != [] {
      assert Bodies(objs)[1..] == Bodies(objs[1..]);
      FirstHitIsOfBodies(b, src, objs[1..]);
    }
  }

  /** A ship or asteroid o overlaps some member. */
  predicate Blocked(o: SpaceObject, objs: seq<SpaceObject>)
    reads o, objs
  {
    exists i :: 0 <= i < |objs| && o.Overlap(objs[i])
  }

  /** `isValidSpaceObject` holds for o. */
  predicate Admits(o: SpaceObject, objs: seq<SpaceObject>)
    reads o, objs
  {
    if o.kind == BulletKind then FirstHit(o.AsBody(), o.source, objs).None? else !Blocked(o, objs)
  }

  /** The world of a possibly absent object. */
  function WorldOf(s: SpaceObject?): World?
    reads s
  {
    if s == null then null else s.world
  }

  /** The members of w, or none for no world. */
  function ObjectsOf(w: World?): seq<SpaceObject>
    reads w
  {
    if w == null then [] else w.objects
  }

  /** `getNrOfBulletsFrom`: how many members are bullets fired by `ship`. */
  function BulletsFrom(ship: SpaceObject, objs: seq<SpaceObject>): (n: nat)
    reads objs
    ensures n <= |objs|
    ensures n == 0 <==> forall i :: 0 <= i < |objs| ==> !(objs[i].kind == BulletKind && objs[i].source == ship)
  {
    if objs == [] then 0
    else (if objs[0].kind == BulletKind && objs[0].source == ship then 1 else 0) + BulletsFrom(ship, objs[1..])
  }

  /** Some body of bs overlaps b, as `overlap` is written. */
  predicate BodyBlocked(b: Body, bs: seq<Body>)
  {
    exists i :: 0 <= i < |bs| && GapAtMostSigma(b, bs[i])
  }

  /** The radius of both halves of a split asteroid. */
  function ChildRadius(p: Body): real
  {
    p.radius / 2.0
  }

  /**
   * The first child of a split: radius r/2, its centre r/2 + EPSILON
   * along the drawn direction (c, s) = (cos, sin) from the parent's,
   * moving along that direction at `speed`.
   */
  function ChildOne(p: Body, speed: real, c: real, s: real): Body
  {
    Body(p.x + (ChildRadius(p) + Epsilon) * c, p.y + (ChildRadius(p) + Epsilon) * s,
         speed * c, speed * s, ChildRadius(p))
  }

  /** The speed of both children of a parent with body p: 1.5 times the norm of its velocity. */
  function SplitSpeed(p: Body, m: MathFns): real
  {
    1.5 * m.sqrt(p.vx * p.vx + p.vy * p.vy)
  }

  /** The second child: r/2 behind the parent's centre, with the first child's velocity negated. */
  function ChildTwo(p: Body, speed: real, c: real, s: real): Body
  {
    Body(p.x - ChildRadius(p) * c, p.y - ChildRadius(p) * s,
         -1.0 * (speed * c), -1.0 * (speed * s), ChildRadius(p))
  }

  /**
   * The two children of a split: both of half the parent's radius, with
   * opposite velocities, their centres on opposite sides of the parent's
   * along the drawn direction, and (for a unit direction) 2h + EPSILON
   * apart for the child radius h: far enough apart not to overlap under
   * the documented test, Physics.Overlaps, though not under the test the
   * world applies (SecondChildIsBlocked).
   */
  lemma {:induction false} SplitChildrenAreOpposite(p: Body, speed: real, c: real, s: real)
    requires p.radius >= 0.0 && c * c + s * s == 1.0
    ensures ChildOne(p, speed, c, s).radius == ChildTwo(p, speed, c, s).radius == p.radius / 2.0
    ensures ChildTwo(p, speed, c, s).vx == -ChildOne(p, speed, c, s).vx
    ensures ChildTwo(p, speed, c, s).vy == -ChildOne(p, speed, c, s).vy
    ensures (ChildOne(p, speed, c, s).x - p.x) * ChildRadius(p) == -(ChildTwo(p, speed, c, s).x - p.x) * (ChildRadius(p) + Epsilon)
    ensures (ChildOne(p, speed, c, s).y - p.y) * ChildRadius(p) == -(ChildTwo(p, speed, c, s).y - p.y) * (ChildRadius(p) + Epsilon)
    ensures !Overlaps(ChildOne(p, speed, c, s), ChildTwo(p, speed, c, s))
  {
    var c1, c2 := ChildOne(p, speed, c, s), ChildTwo(p, speed, c, s);
    var h := ChildRadius(p);
    var d := h + Epsilon + h;
    assert c2.x - c1.x == -(c * d);
    assert c2.y - c1.y == -(s * d);
    ScaledSquares(c, s, d);
    assert DrDr(c1, c2) == d * d;
    assert Sigma(c1, c2) == h + h;
    assert (h + h) * (h + h) < d * d by {
      SquareIsStrictlyMonotone(h + h, d);
    }
  }

  /**
   * Under `overlap` as written the children of a split always overlap:
   * their gap EPSILON is at most the sum 2h of their radii. So once the
   * first child is a member, `addObject` refuses the second, whatever the
   * other members (for any parent of radius at least EPSILON).
   */
  lemma {:induction false} SecondChildIsBlocked(p: Body, speed: real, c: real, s: real, bs: seq<Body>)
    requires p.radius >= Epsilon && c * c + s * s == 1.0
    ensures GapAtMostSigma(ChildTwo(p, speed, c, s), ChildOne(p, speed, c, s))
    ensures BodyBlocked(ChildTwo(p, speed, c, s), bs + [ChildOne(p, speed, c, s)])
  {
    var c1, c2 := ChildOne(p, speed, c, s), ChildTwo(p, speed, c, s);
    var h := ChildRadius(p);
    ChildrenApart(p, speed, c, s);
    PairQuantitiesAreSymmetric(c1, c2);
    assert 2.0 * Sigma(c2, c1) == 4.0 * h;
    GapIsAtMostTwiceTheRadii(h);
    assert (bs + [c1])[|bs|] == c1;
  }

  /** The centres of the children of a split lie r/2 + EPSILON + r/2 apart. */
  lemma ChildrenApart(p: Body, speed: real, c: real, s: real)
    requires c * c + s * s == 1.0
    ensures var h := ChildRadius(p);
      DrDr(ChildOne(p, speed, c, s), ChildTwo(p, speed, c, s)) == (h + Epsilon + h) * (h + Epsilon + h)
  {
    var c1, c2 := ChildOne(p, speed, c, s), ChildTwo(p, speed, c, s);
    var h := ChildRadius(p);
    var d := h + Epsilon + h;
    assert c2.x - c1.x == -(c * d);
    assert c2.y - c1.y == -(s * d);
    ScaledSquares(c, s, d);
  }

  /** For radii h of at least EPSILON / 2 the gap h + EPSILON + h is at most 4h. */
  lemma GapIsAtMostTwiceTheRadii(h: real)
    requires h >= Epsilon / 2.0
    ensures (h + Epsilon + h) * (h + Epsilon + h) <= (4.0 * h) * (4.0 * h)
  {
    SquareIsMonotone(h + Epsilon + h, 4.0 * h);
  }

  /**
   * The body of the bullet `fireBullet` creates for a ship with body p and
   * heading (c, s) = (cos, sin): its centre r + 3 ahead of the ship's along
   * the heading, its velocity the ship's plus 250 along the heading.
   */
  function SpawnedBullet(p: Body, c: real, s: real): Body
  {
    Body(p.x + c * (p.radius + BulletRadius), p.y + s * (p.radius + BulletRadius),
         p.vx + c * BulletSpeed, p.vy + s * BulletSpeed, BulletRadius)
  }

  /**
   * A new bullet touches the ship that fired it: its centre lies exactly
   * the sum of the two radii away (for a heading with cos^2 + sin^2 = 1).
   */
  lemma BulletTouchesSource(p: Body, c: real, s: real)
    requires p.radius >= 0.0 && c * c + s * s == 1.0
    ensures Overlaps(SpawnedBullet(p, c, s), p)
    ensures GapAtMostSigma(SpawnedBullet(p, c, s), p)
    ensures DrDr(SpawnedBullet(p, c, s), p) == Sigma(SpawnedBullet(p, c, s), p) * Sigma(SpawnedBullet(p, c, s), p)
  {
    var b := SpawnedBullet(p, c, s);
    var k := p.radius + BulletRadius;
    assert Sigma(b, p) == k;
    assert p.x - b.x == -(c * k) && p.y - b.y == -(s * k);
    ScaledSquares(c, s, k);
    OverlapsIsGapAtMostSigma(b, p);
  }

  lemma ScaledSquares(c: real, s: real, k: real)
    requires c * c + s * s == 1.0
    ensures (-(c * k)) * (-(c * k)) + (-(s * k)) * (-(s * k)) == k * k
  {
    calc {
      (-(c * k)) * (-(c * k)) + (-(s * k)) * (-(s * k));
      (c * c + s * s) * (k * k);
      k * k;
    }
  }

  /** Appending an object that is not yet a member and removing it again changes nothing. */
  lemma {:induction false} WithoutAppended(s: seq<SpaceObject>, o: SpaceObject)
    requires o !in s
    ensures Without(s + [o], o) == s
  {
    if s != [] {
      assert (s + [o])[1..] == s[1..] + [o];
      WithoutAppended(s[1..], o);
    }
  }

  /** What one `resolve` call does: the two objects bounce, or some of them terminate. */
  datatype Effect = Effect(bounce: bool, firstDies: bool, secondDies: bool)

  /**
   * The table of the `resolve` methods for a first object of kind k1 and
   * a second of kind k2; `firstIsSource` says the first fired the second,
   * `secondIsSource` the reverse.
   */
  function Reaction(k1: Kind, k2: Kind, firstIsSource: bool, secondIsSource: bool): Effect
  {
    match (k1, k2)
    case (ShipKind, ShipKind) => Effect(true, false, false)
    case (AsteroidKind, AsteroidKind) => Effect(true, false, false)
    case (ShipKind, AsteroidKind) => Effect(false, true, false)
    case (AsteroidKind, ShipKind) => Effect(false, false, true)
    case (BulletKind, BulletKind) => Effect(false, false, false)
    case (BulletKind, _) => Effect(false, true, !secondIsSource)
    case (_, BulletKind) => Effect(false, !firstIsSource, true)
  }

  /**
   * A ship program: its global variables, its root statement and the ship
   * it steers. `executePosition` is the 1-based index, within the root
   * Sequence, of the statement the next step starts from; Program.java
   * declares no such field (Sequence calls a setter of it that it lacks),
   * so here it is a field of its own that starts at the first statement.
   */
  class Program {
    var globals: map<string, Value<SpaceObject?>>
    var statement: Option<Stmt<SpaceObject?>>
    var ship: SpaceObject?
    var executePosition: int

    constructor (globals: map<string, Value<SpaceObject?>>, statement: Option<Stmt<SpaceObject?>>)
      ensures this.globals == globals && this.statement == statement
      ensures ship == null && executePosition == 1
    {
      this.globals, this.statement := globals, statement;
      ship, executePosition := null, 1;
    }

    /**
     * `new Program(globals, statement)`: the globals are copied into a new
     * map, so a null map is a NullPointerException.
     */
    static method NewProgram(globals: Option<map<string, Value<SpaceObject?>>>, statement: Option<Stmt<SpaceObject?>>)
      returns (r: Outcome<Program>)
      ensures globals.None? <==> r.Fail?
      ensures r.Fail? ==> r.error == NullPointer
      ensures r.Ok? ==> fresh(r.value) && r.value.globals == globals.value && r.value.statement == statement
                        && r.value.ship == null && r.value.executePosition == 1
    {
      if globals.None? {
        return Fail(NullPointer);
      }
      var p := new Program(globals.value, statement);
      return Ok(p);
    }

    /**
     * `new Program()` as written: it calls `setGlobals(null)`, whose copy of
     * a null map throws, so it never returns a program.
     */
    static method NewEmptyProgramAsWritten() returns (r: Outcome<Program>)
      ensures r == Fail(NullPointer)
    {
      r := NewProgram(None, None);
    }

    /** `new Program()` as intended: no globals and no statement. */
    static method NewEmptyProgram() returns (r: Outcome<Program>)
      ensures r.Ok? && fresh(r.value)
      ensures r.Ok? ==> r.value.globals == map[] && r.value.statement == None && r.value.ship == null
    {
      r := NewProgram(Some(map[]), None);
    }

    /** `setGlobals`: a copy of the map; null is a NullPointerException and changes nothing. */
    method SetGlobals(g: Option<map<string, Value<SpaceObject?>>>) returns (r: Outcome<()>)
      modifies this
      ensures g.None? ==> r == Fail(NullPointer) && globals == old(globals)
      ensures g.Some? ==> r == Ok(()) && globals == g.value
      ensures statement == old(statement) && ship == old(ship) && executePosition == old(executePosition)
    {
      if g.None? {
        return Fail(NullPointer);
      }
      globals := g.value;
      return Ok(());
    }

    /** `setStatement`: stores the statement, null included. */
    method SetStatement(s: Option<Stmt<SpaceObject?>>)
      modifies this
      ensures statement == s
      ensures globals == old(globals) && ship == old(ship) && executePosition == old(executePosition)
    {
      statement := s;
    }

    /** `setShip`: stores the ship, null included. */
    method SetShip(s: SpaceObject?)
      modifies this
      ensures ship == s
      ensures globals == old(globals) && statement == old(statement) && executePosition == old(executePosition)
    {
      ship := s;
    }
  }
}
