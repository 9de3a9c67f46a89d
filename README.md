# Asteroids model

This project models the core of a 2-D asteroids simulation written in Java, and proves properties of the model. The simulation has three layers.

- **Value types.** `Vector` is a NaN-guarded pair with `add`, `subtract`, the dot product, scaling and `equals`. `Velocity` holds a speed limit that never exceeds the speed of light and checks each component against it. `Collision` is a pending event: a countdown time with one participant (a wall collision) or two.
- **Space objects and the world.** `SpaceObject` and its kinds (`Ship`, `Asteroid`, `Bullet`) move, predict the time to a collision with another object or with a wall, exchange an elastic impulse, reflect at a wall and die. The ship has a heading normalised into [0, 2π], a positive mass, a thruster and a bullet cap of three. An asteroid of radius 30 or more splits in two when it is terminated. A bullet dies on its second wall bounce. A `World` admits a ship or asteroid only when it overlaps no member, where `overlap` is the test as written: a gap of up to the sum of the radii counts as overlap. So the second child of a split is always refused. Its `evolve` repeatedly picks the earliest pair or wall event, moves everything to it, resolves it, and lowers the time left. The older standalone ship of `src/main/Ship.java` is modelled as well.
- **The ship-program interpreter.** It has tagged values (`DoubleT`, `BooleanT`, `EntityT`), typed expressions whose wrong-tag casts are errors, and statements. A `Sequence` flattens nested sequences and stops after its first action statement. `executeNextCommand` resumes from a 1-based line and wraps around.

Module layout:

- `numerics.dfy` (module `Numerics`): Java doubles that may be NaN, collision times that may be infinite or NaN, exceptions, and constants. `sqrt`, `cos` and `sin` are parameters here, not computed.
- `vectors.dfy` and `velocities.dfy`: the value types.
- `physics.dfy` (module `Physics`): the kinematics of round bodies as pure functions, with the algebra proved about them.
- `events.dfy` (module `Events`): the scan of `World.evolve` that picks the first event.
- `universe.dfy` (module `Universe`): the classes `SpaceObject`, `World` and `Program`. Their methods change fields in place and say what the new state is.
- `collisions.dfy` (module `Collisions`): the `Collision` class.
- `legacy_ship.dfy` (module `LegacyShips`): the older ship.
- `ast.dfy` (module `Programs`): the program syntax, the flattening of `Sequence`, and the `For` repetition count.
- `interpreter.dfy` (module `Interpreter`): evaluation, a function, and execution, methods over the program, its ship and the ship's world.

Modelling choices:

- Java doubles are Dafny reals. Where the source guards against NaN, the input is a `Double` that may be `NaN`. A time is `Finite`, `Infinite` or `Undefined` (Java's NaN from 0/0).
- Fuzzy comparisons are exact.
- `Math.sqrt`, `Math.cos` and `Math.sin` are function parameters. Lemmas that need a true root say so in a `requires`.
- `java.util.Random` draws, and the per-pass draws of `evolve`, are parameters.
- A `HashSet` is a sequence. Its order stands for the set's iteration order.
- Java's three subclasses of `SpaceObject` are one class with a `kind`.
- A Java exception is a `Fail` outcome naming it.

Where the documentation and the code disagree, the model follows the code. A defect listed under Findings has an as-written member and a corrected member. Where one operation calls another, the caller uses the as-written one: the world's admission and hit tests, and `Fire.execute`. Other points where the model follows the code:

- `thrust` of `asteroids.model.Ship` adds `cos` of the heading to the y component too.
- The asteroid and bullet masses use the integer `4/3`, which is 1.
- Negative world sizes are accepted.
- `getTotalVelocity` ignores its arguments.

## Model

| member | source | states |
|---|---|---|
| Numerics.Min | src/asteroids/model/SpaceObject.java:502-504 | `Math.min` of two times is NaN exactly when either is; otherwise it is one of them and not above either. |
| Vectors.Make | src/asteroids/model/Vector.java:39-49 | A NaN component is an IllegalArgumentException, exactly then; otherwise both components are stored as given. |
| Vectors.OriginIsMakeOfZeroes | src/asteroids/model/Vector.java:57-59 | The no-argument vector is the one built from (0, 0). |
| Vectors.Add | src/asteroids/model/Vector.java:150-161 | A null argument gives back the receiver. |
| Vectors.AddCommutes | src/asteroids/model/Vector.java:150-161 | Adding is commutative. |
| Vectors.Subtract | src/asteroids/model/Vector.java:167-172 | A null argument gives back the receiver; otherwise it is `add` of the negated argument. |
| Vectors.SubtractThenAdd | src/asteroids/model/Vector.java:167-172 | `a.subtract(b).add(b)` is `a`. |
| Vectors.Dot | src/asteroids/model/Vector.java:178-189 | A null argument is an IllegalArgumentException, exactly then. |
| Vectors.DotIsSymmetric | src/asteroids/model/Vector.java:178-189 | The dot product of two vectors succeeds and is symmetric. |
| Vectors.Scale | src/asteroids/model/Vector.java:195-200 | A NaN factor gives back the receiver. |
| Vectors.DotOfScaled | src/asteroids/model/Vector.java:195-200 | Scaling by k scales the dot product by k. |
| Vectors.EqualsIsReflexive | src/asteroids/model/Vector.java:221-226 | A vector equals itself. |
| Vectors.EqualsIsSymmetric | src/asteroids/model/Vector.java:221-226 | `equals` is symmetric. |
| Vectors.EqualsIsValueEquality | src/asteroids/model/Vector.java:221-226 | With exact comparisons, `equals` on vectors holds exactly for equal components. |
| Vectors.Vector.constructor | src/asteroids/model/Vector.java:39-49 | A vector object holds the given value. |
| Vectors.Vector.SetVector | src/asteroids/model/Vector.java:121-130 | Both coordinates are copied from the argument; null is an IllegalArgumentException and changes nothing. |
| Velocities.EffectiveMax | src/asteroids/model/Velocity.java:53-65 | The stored limit is at most the speed of light; a requested limit up to it is kept; NaN becomes the speed of light. |
| Velocities.Velocity.constructor | src/asteroids/model/Velocity.java:53-65 | The components are stored exactly; the limit is the effective maximum. |
| Velocities.Velocity.AtLightSpeed | src/asteroids/model/Velocity.java:80-82 | The two-argument constructor uses the speed of light as limit. |
| Velocities.Velocity.TotalVelocity | src/asteroids/model/Velocity.java:127-131 | The total is NaN exactly when a stored component is NaN. |
| Velocities.TotalVelocityIgnoresArguments | src/asteroids/model/Velocity.java:127-131 | The result does not depend on the two arguments. |
| Velocities.Velocity.SetVelocity | src/asteroids/model/Velocity.java:195-204 | Each component is replaced only when it is valid on its own; a valid component stays valid. |
| Velocities.AcceptedComponentIsBelowLight | src/asteroids/model/Velocity.java:151-157 | A component `isValidVelocity` accepts is within the speed of light. |
| Velocities.NegativeLimitAcceptsNothing | src/asteroids/model/Velocity.java:151-157 | With a negative limit no component is valid. |
| Physics.Moved | src/asteroids/model/SpaceObject.java:153-164 | Moving keeps velocity and radius. |
| Physics.MovedComposes | src/asteroids/model/SpaceObject.java:153-164 | Moving for s and then for t is moving for s + t. |
| Physics.CollisionTime | src/asteroids/model/SpaceObject.java:386-404 | Infinite when the bodies are not approaching or the discriminant is not positive; never NaN. |
| Physics.CollisionTimeIsSymmetric | src/asteroids/model/SpaceObject.java:386-404 | The predicted time is the same whichever body asks. |
| Physics.CollisionTimeIsContact | src/asteroids/model/SpaceObject.java:386-404 | At a finite predicted time the centres are exactly the sum of the radii apart. |
| Physics.CollisionTimeIsNotInThePast | src/asteroids/model/SpaceObject.java:386-404 | For bodies that do not overlap now, a finite predicted time is not negative. |
| Physics.OverlapsIsGapAtMostZero | src/asteroids/model/SpaceObject.java:350-355 | The documented overlap test holds exactly when the gap `getDistanceBetween` returns is at most zero. |
| Physics.GapAtMostSigmaIsAsWritten | src/asteroids/model/SpaceObject.java:350-375 | For a true root, the root-free test the world uses is `overlap` as written: the gap is at most the sum of the radii. |
| Physics.OverlapsIsGapAtMostSigma | src/asteroids/model/SpaceObject.java:364-375 | Every pair the documented test reports, the written test reports too. |
| Physics.OverlapsIsReflexive | src/asteroids/model/SpaceObject.java:364-375 | A body overlaps itself. |
| Physics.OverlapsIsSymmetric | src/asteroids/model/SpaceObject.java:364-375 | Overlap is symmetric. |
| Physics.OverlapsAsWrittenReportsSeparatedBodies | src/asteroids/model/SpaceObject.java:364-375 | The written test reports two bodies 10 apart as overlapping; the documented one does not. |
| Physics.AxisTime | src/asteroids/model/SpaceObject.java:472-506 | A coordinate at rest never reaches a wall at a finite time. |
| Physics.AxisTimeReachesWall | src/asteroids/model/SpaceObject.java:472-506 | A moving coordinate inside its walls reaches the wall it moves toward at the predicted, non-negative time. |
| Physics.Reflected | src/asteroids/model/SpaceObject.java:508-520 | Exactly one component of the velocity is negated: x at a side wall, y otherwise; the position is kept. |
| Physics.ReflectedIsAnInvolution | src/asteroids/model/SpaceObject.java:508-520 | Reflecting twice at the same wall restores the body. |
| Physics.ReflectedKeepsSpeed | src/asteroids/model/SpaceObject.java:508-520 | Reflection keeps the speed. |
| Physics.Bounce | src/asteroids/model/SpaceObject.java:433-456 | The exchange never moves a body. |
| Physics.BounceConservesMomentum | src/asteroids/model/SpaceObject.java:446-452 | Momentum is conserved in x and in y. |
| Physics.BounceChangesVelocities | src/asteroids/model/SpaceObject.java:446-452 | The velocities change by the impulse components divided by the masses, with opposite signs. |
| Physics.BounceActsAlongCentreLine | src/asteroids/model/SpaceObject.java:446-452 | Both velocity changes are parallel to the line through the centres. |
| Physics.BounceConservesEnergy | src/asteroids/model/SpaceObject.java:446-452 | Bodies that touch keep their total kinetic energy. |
| Events.Consider | src/asteroids/model/World.java:235-240 | A candidate replaces the best so far exactly when its time is strictly smaller. |
| Events.SearchFirstEvent | src/asteroids/model/World.java:227-250 | The two nested loops compute the scan over the schedule of candidates. |
| Events.SearchPairs | src/asteroids/model/World.java:229-242 | The inner loop extends the scan by one object's pair candidates, in order. |
| Events.ScanIsMinimal | src/asteroids/model/World.java:235-249 | No candidate is strictly earlier than the kept one. |
| Events.ScanPicksACandidate | src/asteroids/model/World.java:223-249 | The scan keeps a finite-time candidate of the list, or none with an infinite time. |
| Events.ScanKeepsFirstOfTies | src/asteroids/model/World.java:235-249 | On a tie the candidate visited first stays. |
| Events.ScheduleIsComplete | src/asteroids/model/World.java:227-250 | Every ordered pair of distinct objects and every wall is a candidate, and nothing else. |
| Events.FirstEventIsEarliest | src/asteroids/model/World.java:221-250 | The picked time is not later than any pair collision or wall collision. |
| Events.FirstEventIsACandidate | src/asteroids/model/World.java:221-250 | The picked event names existing objects, two distinct ones for a pair, and has a finite time. |
| Universe.Without | src/asteroids/model/World.java:172-176 | Removal keeps every other member and adds none, and leaves a list without the object unchanged. |
| Universe.Bodies | src/asteroids/model/World.java:227-250 | The snapshot has one body per member, in order. |
| Universe.SpaceObject.Mass | src/asteroids/model/Asteroid.java:74-79 | A ship's mass is its own. An asteroid's is π·r³·2.65·10¹² and a bullet's π·r³·7.8·10¹², because the Java `4/3` is the integer 1. For radius r ≥ 0 these are zero only for r = 0. |
| Universe.SpaceObject.Ship | src/asteroids/model/Ship.java:54-60 | A new ship is valid, in no world, with the normalised heading, its mass, the acceleration thrusterForce / mass and the thruster off. |
| Universe.SpaceObject.Asteroid | src/asteroids/model/Asteroid.java:48-53 | A new asteroid has the given body and generator. |
| Universe.SpaceObject.Bullet | src/asteroids/model/Bullet.java:34-39 | A new bullet has radius 3, the given source and no bounces. |
| Universe.SpaceObject.NewShip | src/asteroids/model/Ship.java:224-241 | A NaN coordinate, a NaN or negative radius, or a NaN or non-positive mass is an IllegalArgumentException, exactly then. |
| Universe.SpaceObject.NewAsteroid | src/asteroids/model/Asteroid.java:64-67 | The coordinate and radius checks; a null generator is replaced by a fresh one. |
| Universe.SpaceObject.NewBullet | src/asteroids/model/Bullet.java:34-39 | Only a NaN coordinate is refused; the radius is 3 whatever is asked. |
| Universe.SpaceObject.SetX | src/asteroids/model/SpaceObject.java:102-105 | NaN is refused and changes nothing; otherwise only x changes. |
| Universe.SpaceObject.SetY | src/asteroids/model/SpaceObject.java:115-118 | NaN is refused and changes nothing; otherwise only y changes. |
| Universe.SpaceObject.Thrusted | src/asteroids/model/Ship.java:152-161 | Thrust never changes the position or radius, and does nothing with the thruster off. |
| Universe.SpaceObject.Thrust | src/asteroids/model/Ship.java:152-161 | The body becomes the thrusted body; nothing else changes. |
| Universe.SpaceObject.Move | src/asteroids/model/Ship.java:96-105 | A ship moves and then thrusts only for a positive dt; other kinds move by any dt. |
| Universe.SpaceObject.SetThrusterActive | src/asteroids/model/Ship.java:123-126 | Only the thruster flag changes. |
| Universe.SpaceObject.SetAngle | src/asteroids/model/Ship.java:194-202 | Only the heading changes, to the normalised angle in [0, 2π]. |
| Universe.SpaceObject.Turn | src/asteroids/model/Ship.java:182-186 | Only the heading changes, to the normalised old heading plus a. |
| Universe.SpaceObject.TimeToCollision | src/asteroids/model/SpaceObject.java:386-404 | Null is a NullPointerException, exactly then; otherwise the predicted time of the two bodies. |
| Universe.SpaceObject.TimeToBoundaryCollision | src/asteroids/model/SpaceObject.java:472-506 | An object in no world is a NullPointerException, exactly then; otherwise the earlier wall time. |
| Universe.SpaceObject.ResolveCollision | src/asteroids/model/SpaceObject.java:433-456 | Null is a NullPointerException; for two objects the new bodies are the elastic bounce; a NaN case is reported; nothing else changes. |
| Universe.SpaceObject.Die | src/asteroids/model/SpaceObject.java:462-470 | An object in a world leaves it and forgets it, and every other member stays; otherwise nothing happens. |
| Universe.SpaceObject.ResolveBoundaryCollision | src/asteroids/model/Bullet.java:120-134 | A bullet counts one bounce and dies on the second; otherwise the body is reflected at the wall; an object away from the left wall and in no world is a NullPointerException. |
| Universe.SpaceObject.Terminate | src/asteroids/model/Asteroid.java:113-150 | A small asteroid, an asteroid in no world, or an object of another kind dies. A large asteroid in a world is replaced by up to two fresh children with the split bodies. Each child is admitted exactly when it overlaps no member under the written test; a refusal is an IllegalObjectException. The world's new state is `World.Terminated` of the old members: the others stay, in order, and the children come after them. |
| Universe.World.SplitIsRefused | src/asteroids/model/Asteroid.java:123-148 | When a large asteroid in a world terminates with a unit direction, the result is always an IllegalObjectException, because the second child is refused under the written test (SecondChildIsBlocked). |
| Universe.SpaceObject.NewChild | src/asteroids/model/Asteroid.java:136-144 | A child is a fresh valid asteroid in no world with its own generator and the given body. |
| Universe.SecondChildIsBlocked | src/asteroids/model/Asteroid.java:123-148 | For a unit direction and a parent radius of at least EPSILON, the second child overlaps the first under `overlap` as written, so `addObject` refuses it whatever the other members. |
| Universe.SplitChildrenAreOpposite | src/asteroids/model/Asteroid.java:123-144 | For a unit direction, both children have half the radius and opposite velocities, and their centres lie on opposite sides of the parent. Under the documented overlap test they do not overlap each other. |
| Universe.SpaceObject.Split | src/asteroids/model/Asteroid.java:123-148 | The parent leaves the world, and each child is added in turn exactly when it overlaps no member under the written test; a refusal is an IllegalObjectException. SecondChildIsBlocked shows that the second child's test fails for every unit direction. |
| Universe.SpaceObject.Resolve | src/asteroids/model/Ship.java:294-305 | Which objects leave the world is exactly the `Reaction` table. Ships or asteroids of one kind bounce; a ship meeting an asteroid dies, whichever receives the call (`Asteroid.resolve` too); a bullet forwards. When one side alone dies the call succeeds and only it leaves. When a bullet takes a ship or asteroid along, the bullet leaves and the other terminates as `World.Terminated` states: a large asteroid splits into its two children, admitted or refused. |
| Universe.SpaceObject.ResolveAsBullet | src/asteroids/model/Ship.java:302-303 | A bullet dies against any ship or asteroid and takes it along unless it is its source; against another bullet nothing happens. When both die, the bullet leaves first and the other then terminates as `World.Terminated` states, so a large asteroid splits. |
| Universe.SpaceObject.FireBullet | src/asteroids/model/Ship.java:255-276 | The corrected `fireBullet`. With no world, or with three own bullets, nothing happens. Otherwise the new bullet, 3 + r ahead with 250 added along the heading, is the one new member, or it destroys the first member it hits under the written overlap test. |
| Universe.SpaceObject.FireBulletAsWritten | src/asteroids/model/Ship.java:255-276 | `fireBullet` as written. The guard and the admission are as in FireBullet. A bullet touching its own ship under the written test is then resolved against it, so the members stay the old ones. Only a bullet apart from its ship stays. |
| Universe.SpaceObject.SearchAndResolveAsWritten | src/asteroids/model/Ship.java:267-274 | After the add, a bullet touching its ship is removed again and nothing else changes. |
| Universe.SpaceObject.ResolveOwnBullet | src/asteroids/model/Ship.java:302-303 | A bullet meeting its source dies and nothing else changes. |
| Universe.SpaceObject.LaunchBullet | src/asteroids/model/Ship.java:257-266 | The fire guard, the spawned bullet's body and its admission or the kill it causes. |
| Universe.SpaceObject.Launch | src/asteroids/model/Ship.java:259-266 | Past the guard the bullet is appended or destroys the first member it hits. |
| Universe.SpaceObject.SetProgram | src/asteroids/model/Ship.java:321-324 | The field is set first; null is then a NullPointerException; otherwise the program's ship becomes this ship. |
| Universe.SpaceObject.SetRandom | src/asteroids/model/Asteroid.java:167-172 | Null installs a fresh generator; anything else is kept. |
| Universe.SearchOverlap | src/asteroids/model/Ship.java:267-274 | The index of the first member, other than the bullet and the skipped one, that the bullet overlaps, or the end. |
| Universe.BounceOfItselfChangesNothing | src/asteroids/model/SpaceObject.java:433-456 | A body bouncing off itself keeps its velocity. |
| Universe.World.constructor | src/asteroids/model/World.java:40-46 | A new world is empty and valid, with the given size. |
| Universe.World.NewWorld | src/asteroids/model/World.java:66-81 | A NaN size or one above Double.MAX_VALUE is an IllegalArgumentException, exactly then; negative sizes pass. |
| Universe.World.RemoveObject | src/asteroids/model/World.java:172-176 | Null is a NullPointerException; otherwise the members are the old ones without the object. |
| Universe.World.AddObject | src/asteroids/model/World.java:155-200 | Null is a NullPointerException. A blocked ship or asteroid changes nothing. A bullet hitting a member other than its source kills it and fails. An admitted object is appended and knows its world. |
| Universe.World.AddChildren | src/asteroids/model/World.java:155-165 | The second child is added only after the first. It succeeds exactly when neither child overlaps under the written test. |
| Universe.World.AddChild | src/asteroids/model/World.java:155-165 | A new asteroid is appended exactly when it overlaps no member under the written test. |
| Universe.World.MembersOfKind | src/asteroids/model/World.java:99-137 | Exactly the members of one kind. |
| Universe.World.MoveAll | src/asteroids/model/World.java:257-260 | Every member moves by dt; the membership is unchanged. |
| Universe.World.FindFirstEvent | src/asteroids/model/World.java:221-250 | The first event of the members' bodies. |
| Universe.World.ResolveEvent | src/asteroids/model/World.java:262-274 | The effect `Resolved` states. A wall event cannot fail: a bullet's bounce is counted and the bullet leaves the world unmoved on its second bounce; any other object is reflected at the wall. A pair follows the `Reaction` table, with the split of a large asteroid a bullet hits; a bounce gives the `Bounce` bodies, or NotANumber exactly when CanBounce fails. Members the event does not name keep their bodies. |
| Universe.World.ResolveWall | src/asteroids/model/World.java:266-269 | The wall event of one member, as `WallResolved` states: a bullet counts the bounce and leaves the world unmoved on its second one; any other object is reflected and stays. No other member changes body. |
| Universe.World.ResolvePair | src/asteroids/model/World.java:271-274 | The collision of two members, as `PairResolved` states: each leaves the world as `Reaction` says; a bounce gives the `Bounce` bodies or NotANumber exactly when CanBounce fails. When one dies alone it leaves with the call succeeding, and when neither dies nothing changes. When a bullet and a target both die, the target terminates as `Terminated` states, splitting a large asteroid. No attribute changes. |
| Universe.World.Advance | src/asteroids/model/World.java:257-276 | All members move by t; then the event is resolved as `Resolved` states, starting from the moved bodies. The world stays valid; a failure is NotANumber or IllegalObject. |
| Universe.World.Pass | src/asteroids/model/World.java:221-276 | One pass of the loop. It stops exactly when the first event lies beyond the time left, and then every member has moved by the time left. Otherwise the step is the first event's time, the members move by it, and that event is resolved as `Resolved` states. |
| Universe.World.TimedPass | src/asteroids/model/World.java:221-276 | A pass as the loop counts it: done exactly when the first event lies beyond the time left, then every member has moved by it; otherwise the step is the first event's time. |
| Universe.World.Evolve | src/asteroids/model/World.java:213-285 | A NaN or non-positive dt is an IllegalArgumentException before anything changes. Each recorded pass but a successful last one moves by the first-event time of the bodies at its start. The last pass of a successful run moves by the time left, and its first event lies beyond that. The moves add up to dt. A first event beyond dt just moves every member by dt. |
| Universe.World.EvolveAsWritten | src/asteroids/model/World.java:279-282 | The final move goes by the time of the first event beyond dt, not by the time left; with no event ahead it moves by infinity, reported as NotANumber. |
| Universe.MovedAll | src/asteroids/model/World.java:279-282 | The bodies of all members after each moved by dt. |
| Universe.EvolveOvershootExample | src/asteroids/model/World.java:279-282 | A lone asteroid evolved by 1 should reach x = 510, but the written final move takes it to the wall. |
| Universe.FirstHit | src/asteroids/model/World.java:181-190 | The first member in order that a bullet overlaps under the written test, other than its source, or none. |
| Universe.FirstHitIsOfBodies | src/asteroids/model/World.java:181-190 | The first hit depends only on the members' bodies and identities: it is the first index whose body the bullet reaches under the written test, other than the source. |
| Universe.BulletsFrom | src/asteroids/model/Ship.java:257 | The count is zero exactly when the world holds no bullet from the ship. |
| Universe.BulletTouchesSource | src/asteroids/model/Ship.java:259-265 | A new bullet lies exactly the sum of the radii from its ship, so the two overlap under both tests. |
| Universe.WithoutAppended | src/asteroids/model/World.java:172-176 | Appending a non-member and removing it again changes nothing. |
| Universe.Program.constructor | src/asteroids/model/Program.java:14-18 | Stores the globals and the statement. |
| Universe.Program.NewProgram | src/asteroids/model/Program.java:14-18 | A null globals map is a NullPointerException, exactly then; otherwise a copy is stored. |
| Universe.Program.NewEmptyProgramAsWritten | src/asteroids/model/Program.java:8-12 | `new Program()` always fails on `setGlobals(null)`. |
| Universe.Program.NewEmptyProgram | src/asteroids/model/Program.java:8-12 | The intended empty program: no globals, no statement, no ship. |
| Universe.Program.SetGlobals | src/asteroids/model/Program.java:24-26 | A copy of the map; null fails and changes nothing. |
| Universe.Program.SetStatement | src/asteroids/model/Program.java:34-36 | Only the statement changes. |
| Universe.Program.SetShip | src/asteroids/model/Program.java:44-46 | Only the ship changes. |
| Collisions.Countdown | src/asteroids/model/Collision.java:135-140 | An overshoot is a RuntimeException, exactly then; otherwise a finite time drops by exactly dt and stays valid. |
| Collisions.CountdownsAdd | src/asteroids/model/Collision.java:135-140 | Two countdowns that both succeed are one countdown by the sum. |
| Collisions.Collision.constructor | src/asteroids/model/Collision.java:47-52 | Stores the time and both participants. |
| Collisions.Collision.NewBoundaryCollision | src/asteroids/model/Collision.java:24-28 | A negative time is an IllegalArgumentException, exactly then; the second participant is null. |
| Collisions.Collision.NewPairCollision | src/asteroids/model/Collision.java:47-52 | The same time check; both participants are stored and attached. |
| Collisions.Collision.SetCollisionTime | src/asteroids/model/Collision.java:66-70 | A negative time fails and changes nothing; otherwise it is stored. |
| Collisions.Collision.Attached | src/asteroids/model/Collision.java:123-129 | Null is a NullPointerException; otherwise true exactly for participant 1, or participant 2 when there is one. |
| Collisions.Collision.Evolve | src/asteroids/model/Collision.java:135-140 | The new time is the countdown; an overshoot changes nothing; the participants stay. |
| Collisions.Collision.Resolve | src/asteroids/model/Collision.java:146-152 | A missing first participant is a NullPointerException. A wall collision counts a bullet's bounce, and the bullet leaves its world on the second. Any other object is reflected at its world's wall; one in no world away from the left wall is a NullPointerException. A pair collision is `first.resolve(second)`: the `Reaction` effect, the `Bounce` bodies or NotANumber; a lone death succeeds and removes only that participant; when a bullet takes its target along, the target terminates as `World.Terminated` states. |
| LegacyShips.LegacyShip.constructor | src/main/Ship.java:51-65 | The body is stored and the heading normalised. |
| LegacyShips.LegacyShip.NewLegacyShip | src/main/Ship.java:51-65 | A NaN coordinate, or a NaN radius or one below 10, is an IllegalArgumentException, exactly then. |
| LegacyShips.LegacyShip.NewDefaultLegacyShip | src/main/Ship.java:36-39 | The default ship is (0, 0, 0, 0, 10) with heading 0. |
| LegacyShips.LegacyShip.Move | src/main/Ship.java:99-114 | A NaN or non-positive dt is an IllegalArgumentException and changes nothing; otherwise the centre advances by velocity · dt. |
| LegacyShips.MoveTestNormalCase | src/test/ShipTest.java:67-72 | (50, 2000) at (10, 5) for 10.135 ends at (151.35, 2050.675). |
| LegacyShips.LegacyShip.Thrust | src/main/Ship.java:201-214 | Nothing for da ≤ 0; otherwise da along the heading is added to the velocity. |
| LegacyShips.LegacyShip.Turn | src/main/Ship.java:321-335 | The heading becomes the normalised old heading plus a, in [0, 2π]. |
| LegacyShips.LegacyShip.TimeToCollision | src/main/Ship.java:384-400 | Null is an IllegalArgumentException; infinite when separating or the discriminant is not positive. |
| LegacyShips.LegacyShip.CollisionPosition | src/main/Ship.java:407-420 | Null fails; no collision gives none; otherwise this ship's centre after the collision time. |
| LegacyShips.PositionAfter | src/main/Ship.java:407-420 | None exactly after an infinite time. |
| LegacyShips.CollisionPositionIsContact | src/main/Ship.java:407-420 | At the collision position the two ships touch. |
| LegacyShips.NormalAngleIsZeroAtZero | src/main/Ship.java:327-335 | Heading 0 is already normal. |
| Angles.NormalAngleInRange | src/asteroids/model/Ship.java:194-202 | The stored heading lies in [0, 2π]. |
| Angles.NormalAngleIsIdempotent | src/asteroids/model/Ship.java:194-202 | Normalising twice is normalising once. |
| Angles.Normalise | src/asteroids/model/Ship.java:194-202 | The two loops leave the normal angle. |
| Angles.AddTurns | src/asteroids/model/Ship.java:196-197 | The first loop brings a negative angle to the normal angle. |
| Angles.SubtractTurns | src/asteroids/model/Ship.java:198-199 | The second loop brings an angle above 2π to the normal angle. |
| Angles.TurnOneAndOne | src/asteroids/test/ShipTest.java:124-133 | Turning by 1 from 1 gives 2. |
| Angles.TurnThreeAndSix | src/asteroids/test/ShipTest.java:124-133 | Turning by 6 from 3 gives 9 − 2π, about 2.71681. |
| Programs.DefaultOf | src/asteroids/model/programs/DoubleT.java:5-22 | The default holders: 0.0, false, and the null entity. |
| Programs.ExpressionClassesHaveTheirTag | src/asteroids/model/programs/Expression/DoubleLiteral.java:7-10 | Every double expression declares a number, every boolean expression a boolean. |
| Programs.FirstAction | src/asteroids/model/programs/Statement/standardStatement/Sequence.java:64-73 | The index of the first action statement exists exactly when the list has one. |
| Programs.SetStatements | src/asteroids/model/programs/Statement/standardStatement/Sequence.java:24-40 | The loop builds the flattened list. |
| Programs.NewSequence | src/asteroids/model/programs/Statement/standardStatement/Sequence.java:24-40 | A new sequence stores the flattened list. |
| Programs.FlattenDistributes | src/asteroids/model/programs/Statement/standardStatement/Sequence.java:28-38 | Flattening keeps the order: it distributes over concatenation. |
| Programs.FlattenKeepsPlainLists | src/asteroids/model/programs/Statement/standardStatement/Sequence.java:28-38 | A list without nulls or sequences is stored as it is. |
| Programs.FlattenIsFlat | src/asteroids/model/programs/Statement/standardStatement/Sequence.java:30-33 | Splicing flat sequences gives a flat list. |
| Programs.FlattenDropsNulls | src/asteroids/model/programs/Statement/standardStatement/Sequence.java:29 | Every stored statement comes from a non-null entry. |
| Programs.FlattenKeepsStatements | src/asteroids/model/programs/Statement/standardStatement/Sequence.java:34-36 | Every non-null, non-sequence entry is stored. |
| Programs.BodyOf | src/asteroids/model/programs/Statement/ComplexStatement.java:30-36 | A sequence body is kept as it is; anything else becomes an empty sequence. |
| Programs.NewWhile | src/asteroids/model/programs/Statement/standardStatement/While.java:10-12 | The condition and the body rule of `setBody`. |
| Programs.NewFor | src/asteroids/model/programs/Statement/standardStatement/For.java:9-11 | The counter and the body rule of `setBody`. |
| Programs.RoundToLong | src/asteroids/model/programs/Statement/standardStatement/For.java:21 | `Math.round` stays within the range of long. |
| Programs.ToInt | src/asteroids/model/programs/Statement/standardStatement/For.java:21 | The `(int)` cast stays within int and agrees with its argument modulo 2^32. |
| Programs.RepetitionCountIsRounded | src/asteroids/model/programs/Statement/standardStatement/For.java:21 | For counters within the range of int, the count is the rounded counter. |
| Programs.RepetitionCountWraps | src/asteroids/model/programs/Statement/standardStatement/For.java:21 | A counter of 2^32 wraps to a count of zero. |
| Interpreter.Eval | src/asteroids/model/programs/Expression/Self.java:11-13 | An entity value is the program's ship or a literal of the expression. |
| Interpreter.EvalBinary | src/asteroids/model/programs/Expression/doubleExpression/Add.java:13-16 | The two-operand operators never yield an entity. |
| Interpreter.EvalNumber | src/asteroids/model/programs/Expression/doubleExpression/GetRadius.java:17-20 | GetRadius, GetX, GetY and TrueOrFalse yield numbers. |
| Interpreter.EvalHasDeclaredTag | src/asteroids/model/programs/Expression/DoubleLiteral.java:14-16 | A value has the holder class its expression declares. |
| Interpreter.AddCommutes | src/asteroids/model/programs/Expression/doubleExpression/Add.java:13-16 | Add is commutative once it succeeds, and succeeds on swapped operands exactly then. |
| Interpreter.MultiplicationCommutes | src/asteroids/model/programs/Expression/doubleExpression/Multiplication.java:14-17 | So is Multiplication. |
| Interpreter.GreaterThanNegatesLessThanOrEqualTo | src/asteroids/model/programs/Expression/booleanExpression/GreaterThan.java:13-16 | On the same operands it fails as LessThanOrEqualTo does, and otherwise negates it. |
| Interpreter.EqualityIsSymmetric | src/asteroids/model/programs/Expression/booleanExpression/Equality.java:11-14 | Equality is symmetric. |
| Interpreter.InequalityIsSymmetric | src/asteroids/model/programs/Expression/booleanExpression/Inequality.java:16-36 | Inequality is symmetric. |
| Interpreter.InequalityNegatesEquality | src/asteroids/model/programs/Expression/booleanExpression/Inequality.java:16-36 | On number expressions Inequality is the negation of Equality, with the same failures. |
| Interpreter.GetDirIsInRange | src/asteroids/model/programs/Expression/doubleExpression/GetDir.java:12-16 | GetDir of a valid ship is its heading, in [0, 2π]. |
| Interpreter.TrueOrFalseTakesFirstOnTrue | src/asteroids/model/programs/Expression/booleanExpression/TrueOrFalse.java:24-36 | A true condition gives the first branch's number; the second is not evaluated. |
| Interpreter.TrueOrFalseTakesSecondOnFalse | src/asteroids/model/programs/Expression/booleanExpression/TrueOrFalse.java:24-36 | A false condition gives the second branch's number; the first is not evaluated. |
| Interpreter.WellTypedNeverFailsACast | src/asteroids/model/programs/Expression/Variable.java:14-17 | A well-typed expression over numeric globals never fails a cast. |
| Interpreter.Exec | src/asteroids/model/programs/Statement/Statement.java:11 | Every statement keeps the ship, its world and the program runnable. Each kind of statement has the effect its own class gives it (`Executed`): an assignment, a turn, a thruster switch, a shot, an if, a sequence, a while or a for, as in their rows. Skip changes nothing. |
| Interpreter.ExecAssignment | src/asteroids/model/programs/Statement/standardStatement/Assignment.java:35-40 | The named global gets the right-hand side's value; a failure leaves the globals. |
| Interpreter.ExecTurn | src/asteroids/model/programs/Statement/actionStatement/Turn.java:17-21 | A bad angle fails first, then a missing ship; otherwise only the heading changes, to the normalised sum. |
| Interpreter.ExecThruster | src/asteroids/model/programs/Statement/actionStatement/EnableThruster.java:12-17 | A missing ship is a NullPointerException, exactly then; otherwise only the thruster flag is set (DisableThruster likewise). |
| Interpreter.ExecFire | src/asteroids/model/programs/Statement/actionStatement/Fire.java:12-17 | A missing ship fails. `fireBullet` as written: no object's body or attributes change, and a ship that may not fire changes nothing. When the bullet touches its ship (for every unit heading, by BulletTouchesSource) it dies again and the members stay the old ones. A hit removes its victim and fails. |
| Interpreter.ExecIf | src/asteroids/model/programs/Statement/standardStatement/If.java:47-52 | A non-boolean condition class is a ClassCastException; a failing condition or a missing branch changes nothing. Otherwise the branch the condition picks runs, with the effect `Executed` gives that statement. |
| Interpreter.ExecSequence | src/asteroids/model/programs/Statement/standardStatement/Sequence.java:60-74 | An empty list does nothing. It reports an action exactly when the list has one. The position is the line of the first action, or else of the last statement. |
| Interpreter.ExecWhile | src/asteroids/model/programs/Statement/standardStatement/While.java:16-26 | The condition is evaluated once. False runs nothing. True runs the body once when it acts, and then the cursor is the line of its first action, reset to 1 when it lies past the end of the body; a body without an action never ends. |
| Interpreter.ExecFor | src/asteroids/model/programs/Statement/standardStatement/For.java:19-28 | The counter must be a number; a count ≤ 0 runs nothing; otherwise the body runs exactly count times. |
| Interpreter.ExecuteNextCommand | src/asteroids/model/programs/Statement/standardStatement/Sequence.java:76-97 | Starting from the 1-based line it wraps around. It stops right after the first action and stores the next position; a line outside the list fails; a list without an action never stops. |
| Interpreter.NextIsCycle | src/asteroids/model/programs/Statement/standardStatement/Sequence.java:87-88 | `line++` then `% size` is one step round the list. |
| Interpreter.NoActionOnACycle | src/asteroids/model/programs/Statement/standardStatement/Sequence.java:81-96 | A full round without an action means the list has none. |

## Left out

- Interpreter.ExecWhile, Interpreter.ExecuteNextCommand: a loop that never ends in Java ends when a `fuel` bound is spent, with the failure `Diverges`.
- Universe.World.Evolve: also bounded by `fuel` passes. The loop ends in Java only when the first event lies beyond the time left.
- Floating point: reals throughout; rounding, overflow to infinity and NaN arithmetic are not modelled, except where a NaN input or an infinite time is a documented case. A division by zero in an expression and a bounce whose arithmetic would give NaN are the failure `NotANumber`.
- `Math.sqrt`, `cos`, `sin`, `atan2` and `java.util.Random` are parameters, so no property depends on their values beyond what a lemma requires.
- `makeVelocityValid` in SpaceObject and Velocity and the speed clamp at the end of `resolveCollision` use `atan2` and are left out. They include the swapped arguments and the second object clamped with the first object's velocity. Velocities are stored as computed.
- LegacyShips.LegacyShip.constructor: `makeVelocityValid`, which src/main/Ship.java:59 calls when the speed exceeds `speedLimit`, uses `atan2` and is not modelled. The velocity is stored unclamped.
- LegacyShips.LegacyShip.NewLegacyShip: the same; a velocity above the speed of light is stored unclamped.
- LegacyShips.LegacyShip.Thrust: the same clamp at src/main/Ship.java:209-212 is not modelled; the thrusted velocity is stored unclamped.
- The setter of a value holder (`setValue` of DoubleT, BooleanT and EntityT) is not modelled: holders are immutable values.
- `Sequence.setProgram`, `getProgram` and the `program` field of every statement are not modelled: each statement runs against the program passed to it.
- `Ship.execute` and `Program.execute` are not modelled: Program.java declares no `execute`.
- Program.java also lacks `getGlobal`, `setGlobal` and `setExecutePosition`, and Sequence.java lacks `actionHasOccured`. Inequality.java:18 calls `checkBool`, which no class above it defines (neither Inequality, ComposedBoolean, BooleanExpression nor Expression). The model gives them the evident meaning. The execute position is a field of the program, starting at 1. `actionHasOccured` is the result of the sequence run.
- Universe.SpaceObject.ResolveAsBullet: `Bullet.resolve` is not in Bullet.java; it follows the documented table of the other `resolve` methods.
- `SpaceObject.terminate` is not in SpaceObject.java; it is modelled as `Die`.
- `World.getNrOfBulletsFrom` is not in World.java; it is modelled as the count of the ship's bullets.
- Universe.World.AddObject: `isValidSpaceObject` removes members while iterating the set. The model iterates a snapshot and reports the `ConcurrentModificationException` that the next step would throw.
- Collisions.Collision.Resolve: for a pair it requires two distinct participants in one valid world, the precondition of `SpaceObject.resolve` in this model; other calls are not covered.
- Universe.SpaceObject.ResolveCollision: the Java `assert` that the objects differ becomes a case that changes nothing.
- The legacy ship's `overlap` and `getDistanceBetween`, the `Position` class, `Print`, the `Sqrt` expressions, the second untyped expression hierarchy, `SpaceStation`, the parser factory and the `Facade` classes are not part of this model.
- `Universe.Random` models only the identity of a generator.

## Findings

| source | as written | input that shows it | evidently intended | confidence | as-written member | corrected member |
|---|---|---|---|---|---|---|
| src/asteroids/model/SpaceObject.java:364-375 | `overlap` compares `getDistanceBetween`, which already subtracts the sum of the radii, with that sum again | two radius-10 bodies with centres 30 apart (gap 10) are reported as overlapping | overlap when the gap is at most zero | high; not executed | Physics.OverlapsAsWrittenReportsSeparatedBodies | Physics.OverlapsIsGapAtMostZero |
| src/asteroids/model/World.java:279-282 | after the loop every object moves by `timeToFirstCollision`, the time of an event beyond the time left | a lone asteroid at (500, 500) moving at 10 in a 1000 × 1000 world evolved by 1 moves by 49 to the wall, not to x = 510; with no event ahead it moves by infinity | move by the time left | high; not executed | Universe.EvolveOvershootExample | Universe.World.Evolve |
| src/asteroids/model/Ship.java:255-276 | the search after `addObject` does not skip the firing ship, and a new bullet always touches it | any ship that may fire: its bullet is resolved against the ship and dies at once | skip the bullet's own source, as `isValidSpaceObject` does | medium; not executed | Universe.BulletTouchesSource | Universe.SpaceObject.FireBullet |
| src/asteroids/model/Program.java:8-12 | `new Program()` calls `setGlobals(null)`, whose `new HashMap<>(null)` throws | `new Program()` | an empty program | high; not executed | Universe.Program.NewEmptyProgramAsWritten | Universe.Program.NewEmptyProgram |
| src/asteroids/model/Asteroid.java:123-148 | the children of a split are placed 2h + EPSILON apart, for the child radius h; under `overlap` as written their gap EPSILON counts as overlap, so `addObject(Child2)` always throws | any asteroid of radius 30 or more in a world, terminated with a unit direction | both children join the world | high; not executed | Universe.SecondChildIsBlocked | Universe.SplitChildrenAreOpposite |
