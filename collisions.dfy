/**
 * A pending collision (asteroids.model.Collision): the time left until it
 * happens and its participants, one for a collision with the boundary,
 * two for a collision between space objects. The time is a Java double,
 * so it may be infinite or NaN; only a negative number is refused.
 */
module Collisions {
  import opened Numerics
  import opened Physics
  import opened Universe

  /** What `setCollisionTime` accepts: anything but a negative number (NaN and infinity pass `< 0`). */
  predicate IsValidCollisionTime(t: Time)
  {
    !(t.Finite? && t.t < 0.0)
  }

  /** Java's `dt > collisionTime`: false against infinity and against NaN. */
  predicate Overshoots(dt: real, t: Time)
  {
    t.Finite? && dt > t.t
  }

  /** Java's `collisionTime - dt` for a finite dt. */
  function Minus(t: Time, dt: real): Time
  {
    match t
    case Finite(s) => Finite(s - dt)
    case Infinite => Infinite
    case Undefined => Undefined
  }

  /**
   * The time `evolve(dt)` leaves, or its RuntimeException: an overshoot
   * is refused, anything else lowers a finite time by exactly dt.
   */
  function Countdown(t: Time, dt: real): (r: Outcome<Time>)
    ensures r.Fail? <==> Overshoots(dt, t)
    ensures r.Fail? ==> r.error == Runtime
    ensures r.Ok? ==> IsValidCollisionTime(r.value)
    ensures r.Ok? && t.Finite? ==> r.value == Finite(t.t - dt)
    ensures r.Ok? && !t.Finite? ==> r.value == t
  {
    if Overshoots(dt, t) then Fail(Runtime) else Ok(Minus(t, dt))
  }

  /** Two countdowns that both succeed are one countdown by the sum. */
  lemma CountdownsAdd(t: Time, a: real, b: real)
    requires Countdown(t, a).Ok? && Countdown(Countdown(t, a).value, b).Ok?
    ensures Countdown(t, a + b) == Countdown(Countdown(t, a).value, b)
  {
  }

  class Collision {
    var time: Time
    var first: SpaceObject?
    var second: SpaceObject?

    /** The class invariant the setter keeps: the time is never a negative number. */
    predicate Valid()
      reads this
    {
      IsValidCollisionTime(time)
    }

    constructor (time: Time, first: SpaceObject?, second: SpaceObject?)
      requires IsValidCollisionTime(time)
      ensures Valid()
      ensures this.time == time && this.first == first && this.second == second
    {
      this.time, this.first, this.second := time, first, second;
    }

    /** `new Collision(time, object)`: a boundary collision; a negative time is an IllegalArgumentException. */
    static method NewBoundaryCollision(t: Time, o: SpaceObject?) returns (r: Outcome<Collision>)
      ensures r.Fail? <==> !IsValidCollisionTime(t)
      ensures r.Fail? ==> r.error == IllegalArgument
      ensures r.Ok? ==> fresh(r.value) && r.value.Valid()
                        && r.value.time == t && r.value.first == o && r.value.second == null
    {
      if !IsValidCollisionTime(t) {
        return Fail(IllegalArgument);
      }
      var c := new Collision(t, o, null);
      return Ok(c);
    }

    /** `new Collision(time, object1, object2)`: a collision of two objects, the same time check. */
    static method NewPairCollision(t: Time, a: SpaceObject?, b: SpaceObject?) returns (r: Outcome<Collision>)
      ensures r.Fail? <==> !IsValidCollisionTime(t)
      ensures r.Fail? ==> r.error == IllegalArgument
      ensures r.Ok? ==> fresh(r.value) && r.value.Valid()
                        && r.value.time == t && r.value.first == a && r.value.second == b
      ensures r.Ok? && a != null ==> r.value.Attached(a) == Ok(true)
      ensures r.Ok? && b != null ==> r.value.Attached(b) == Ok(true)
    {
      if !IsValidCollisionTime(t) {
        return Fail(IllegalArgument);
      }
      var c := new Collision(t, a, b);
      return Ok(c);
    }

    /** `setCollisionTime`: a negative number is an IllegalArgumentException and changes nothing. */
    method SetCollisionTime(t: Time) returns (r: Outcome<()>)
      modifies this
      ensures !IsValidCollisionTime(t) ==> r == Fail(IllegalArgument) && time == old(time)
      ensures IsValidCollisionTime(t) ==> r == Ok(()) && time == t && Valid()
      ensures first == old(first) && second == old(second)
    {
      if !IsValidCollisionTime(t) {
        return Fail(IllegalArgument);
      }
      time := t;
      return Ok(());
    }

    /**
     * `attachedSpaceObject(o)`: `o.equals(...)`, so a null argument is a
     * NullPointerException; otherwise whether o is the first participant,
     * or the second when there is one.
     */
    function Attached(o: SpaceObject?): (r: Outcome<bool>)
      reads this
      ensures r.Fail? <==> o == null
      ensures r.Fail? ==> r.error == NullPointer
      ensures r.Ok? ==> (r.value <==> o == first || (second != null && o == second))
    {
      if o == null then Fail(NullPointer)
      else if second == null then Ok(o == first)
      else Ok(o == first || o == second)
    }

    /**
     * `evolve(dt)`: an overshoot is a RuntimeException that leaves the
     * time alone; otherwise `setCollisionTime(time - dt)`, which can no
     * longer refuse.
     */
    method Evolve(dt: real) returns (r: Outcome<()>)
      modifies this
      ensures Countdown(old(time), dt).Fail? ==> r == Fail(Runtime) && time == old(time)
      ensures Countdown(old(time), dt).Ok? ==> r == Ok(()) && time == Countdown(old(time), dt).value
      ensures r.Ok? ==> Valid()
      ensures first == old(first) && second == old(second)
    {
      if Overshoots(dt, time) {
        return Fail(Runtime);
      }
      r := SetCollisionTime(Minus(time, dt));
    }

    /**
     * `resolve`: a boundary collision is the first participant's
     * `resolveBoundaryCollision` (a bullet counts the bounce and dies on
     * the second; any other object is reflected, and one in no world away
     * from the left wall is a NullPointerException), a pair collision
     * `first.resolve(second)` (the `Reaction` table and the `Bounce`
     * bodies); a missing first participant is a NullPointerException.
     */
    method Resolve(m: MathFns, u: real) returns (r: Outcome<()>)
      requires first != null ==> first.Valid() && (first.world != null ==> first.world.Valid())
      requires first != null && second != null ==>
                 && second.Valid() && first != second
                 && first.world != null && first in first.world.objects && second in first.world.objects
      modifies first, second, WorldOf(first), ObjectsOf(WorldOf(first))
      ensures first == old(first) && second == old(second) && time == old(time)
      ensures first == null ==> r == Fail(NullPointer)
      ensures first != null && second == null && first.kind != BulletKind ==>
                first.world == old(first.world) && first.Attributes() == old(first.Attributes())
      ensures first != null && second == null && first.kind == BulletKind ==>
                first.Attributes() == old(first.Attributes()).(bounces := old(first.bounces) + 1)
      ensures first != null && second == null && first.kind == BulletKind && old(first.bounces) == 1 ==>
                && r == Ok(()) && first.world == null && first.AsBody() == old(first.AsBody())
                && (old(first.world) != null ==> old(first.world).objects == Without(old(first.world.objects), first))
      ensures first != null && second == null && !(first.kind == BulletKind && old(first.bounces) == 1) ==>
                && first.world == old(first.world)
                && (old(first.x == first.radius || first.world != null) ==>
                      r == Ok(()) && first.AsBody() == Reflected(old(first.AsBody()), if old(first.world) != null then old(first.world.width) else first.radius))
                && (old(first.x != first.radius && first.world == null) ==>
                      r == Fail(NullPointer) && first.AsBody() == old(first.AsBody()))
                && (old(first.world) != null ==> old(first.world).objects == old(first.world.objects))
      ensures first != null && second != null ==>
                var e := Reaction(first.kind, second.kind, second.source == first, first.source == second);
                && (e.firstDies <==> first !in old(first.world).objects)
                && (e.secondDies <==> second !in old(first.world).objects)
                && (forall s :: s in old(first.world.objects) && s != first && s != second ==> s in old(first.world).objects)
                && first.Attributes() == old(first.Attributes()) && second.Attributes() == old(second.Attributes())
      ensures first != null && second != null ==>
                var e := Reaction(first.kind, second.kind, second.source == first, first.source == second);
                e.bounce ==>
                  && old(first.world).objects == old(first.world.objects)
                  && (r.Ok? <==> old(first.CanBounce(second)))
                  && (r.Ok? ==> first.AsBody() == Bounce(old(first.AsBody()), old(first.Mass()), old(second.AsBody()), old(second.Mass())).0
                                && second.AsBody() == Bounce(old(first.AsBody()), old(first.Mass()), old(second.AsBody()), old(second.Mass())).1)
                  && (r.Fail? ==> r.error == NotANumber)
      ensures first != null && second != null ==>
                var e := Reaction(first.kind, second.kind, second.source == first, first.source == second);
                !e.bounce ==>
                  && (r.Fail? ==> r.error == IllegalObject)
                  && first.AsBody() == old(first.AsBody()) && second.AsBody() == old(second.AsBody())
      ensures first != null && second != null ==>
                var e := Reaction(first.kind, second.kind, second.source == first, first.source == second);
                && (!e.bounce && !(e.firstDies && e.secondDies) ==> r == Ok(()))
                && (!e.bounce && e.firstDies && !e.secondDies ==> old(first.world).objects == Without(old(first.world.objects), first))
                && (!e.bounce && !e.firstDies && e.secondDies ==> old(first.world).objects == Without(old(first.world.objects), second))
                && (!e.bounce && !e.firstDies && !e.secondDies ==> old(first.world).objects == old(first.world.objects))
      ensures first != null && second != null ==>
                var e := Reaction(first.kind, second.kind, second.source == first, first.source == second);
                e.firstDies && e.secondDies ==>
                  var (b, t) := if first.kind == BulletKind then (first, second) else (second, first);
                  old(first.world).Terminated(t, Without(old(first.world.objects), b), old(t.AsBody()), old(t.SplitsOnTerminate()), m, u, r)
    {
      var a, b := first, second;
      if a == null {
        return Fail(NullPointer);
      }
      if b == null {
        r := a.ResolveBoundaryCollision();
      } else {
        r := a.Resolve(b, m, u);
      }
    }
  }
}
