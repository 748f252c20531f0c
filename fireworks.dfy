/** The rising projectile: the `Firework` class, its constructor and its
    per-frame `update`, with its arrival test. */
module Fireworks {
  import opened Geometry
  import opened Randomness

  const TrailLength: nat := 3
  const InitialSpeed: real := 2.0
  const Acceleration: real := 1.05
  /** The pulsing target marker grows by `RadiusStep` while below `RadiusCap`. */
  const RadiusStep: real := 0.3
  const RadiusCap: real := 8.0

  /** The fields of a `Firework` object at one moment. */
  datatype FireworkState = FireworkState(
    x: real, y: real,
    sx: real, sy: real,
    tx: real, ty: real,
    distanceToTarget: real,
    distanceTraveled: real,
    coordinates: seq<Point>,
    angle: real,
    speed: real,
    acceleration: real,
    brightness: real,
    targetRadius: real)

  /** What every live firework satisfies. */
  ghost predicate Inv(s: FireworkState)
  {
    && |s.coordinates| == TrailLength
    && 1.0 <= s.targetRadius < RadiusCap + RadiusStep
    && s.acceleration == Acceleration
    && s.speed >= InitialSpeed
    && 50.0 <= s.brightness < 70.0
  }

  /** The object the constructor builds from a launch point, a target point and
      the sampled brightness. */
  function Launch(sx: real, sy: real, tx: real, ty: real, brightness: real, host: Host): (s: FireworkState)
    ensures 50.0 <= brightness < 70.0 ==> Inv(s)
    ensures s.x == sx && s.y == sy && s.tx == tx && s.ty == ty
    ensures s.sx == sx && s.sy == sy && s.brightness == brightness
    ensures s.coordinates == Repeat(Point(sx, sy), TrailLength)
    ensures s.speed == InitialSpeed && s.acceleration == Acceleration
    ensures s.distanceTraveled == 0.0 && s.targetRadius == 1.0
  {
    FireworkState(
      sx, sy, sx, sy, tx, ty,
      host.calculateDistance(sx, sy, tx, ty), 0.0,
      Repeat(Point(sx, sy), TrailLength),
      host.atan2(ty - sy, tx - sx),
      InitialSpeed, Acceleration, brightness, 1.0)
  }

  /** The sawtooth of the target marker: add 0.3 while below 8, else back to 1. */
  function NextRadius(r: real): (r': real)
    ensures 1.0 <= r < RadiusCap + RadiusStep ==> 1.0 <= r' < RadiusCap + RadiusStep
    ensures r < RadiusCap ==> r' > r
    ensures r >= RadiusCap ==> r' == 1.0
  {
    if r < RadiusCap then r + RadiusStep else 1.0
  }

  /** The displacement `(vx, vy)` of one update, at the already accelerated speed. */
  function Velocity(s: FireworkState, host: Host): Point
  {
    var speed := s.speed * s.acceleration;
    Point(host.cos(s.angle) * speed, host.sin(s.angle) * speed)
  }

  /** The candidate position `(x + vx, y + vy)`. */
  function Candidate(s: FireworkState, host: Host): Point
  {
    var v := Velocity(s, host);
    Point(s.x + v.x, s.y + v.y)
  }

  /** The arrival test of `update`: the candidate position is at least as far
      from the launch point as the target is. */
  predicate Arrives(s: FireworkState, host: Host)
  {
    var c := Candidate(s, host);
    host.calculateDistance(s.sx, s.sy, c.x, c.y) >= s.distanceToTarget
  }

  /** One `update`: shift the trail, pulse the marker, accelerate, measure the
      candidate position, and move there unless the firework arrives. */
  function Step(s: FireworkState, host: Host): (r: FireworkState)
    ensures Inv(s) ==> Inv(r)
  {
    var c := Candidate(s, host);
    var traveled := host.calculateDistance(s.sx, s.sy, c.x, c.y);
    var arrived := traveled >= s.distanceToTarget;
    s.(
      coordinates := Shift(s.coordinates, Position(s)),
      targetRadius := NextRadius(s.targetRadius),
      speed := s.speed * s.acceleration,
      distanceTraveled := traveled,
      x := if arrived then s.x else c.x,
      y := if arrived then s.y else c.y)
  }

  /** What one update does to the position and the travelled distance: on
      arrival the position stays, otherwise it advances by the velocity; in
      both cases the travelled distance is that of the candidate position. */
  lemma StepMoves(s: FireworkState, host: Host)
    ensures var r := Step(s, host); var c := Candidate(s, host);
      && r.distanceTraveled == host.calculateDistance(s.sx, s.sy, c.x, c.y)
      && (Arrives(s, host) <==> r.distanceTraveled >= r.distanceToTarget)
      && (Arrives(s, host) ==> r.x == s.x && r.y == s.y)
      && (!Arrives(s, host) ==> r.x == s.x + Velocity(s, host).x && r.y == s.y + Velocity(s, host).y)
      && r.sx == s.sx && r.sy == s.sy && r.tx == s.tx && r.ty == s.ty
      && r.distanceToTarget == s.distanceToTarget && r.angle == s.angle
  {
  }

  /** What one update does to the trail and the speed, arrived or not. */
  lemma StepShiftsAndAccelerates(s: FireworkState, host: Host)
    ensures Step(s, host).coordinates == Shift(s.coordinates, Point(s.x, s.y))
    ensures Step(s, host).speed == s.speed * s.acceleration
    ensures Step(s, host).acceleration == s.acceleration
  {
  }

  /** Entry `j` of the trail after one update: the position before it, or
      the entry before it in the old trail. */
  lemma StepShifts(s: FireworkState, j: nat, host: Host)
    requires j < |s.coordinates|
    ensures |Step(s, host).coordinates| == |s.coordinates|
    ensures Step(s, host).coordinates[j] == if j == 0 then Position(s) else s.coordinates[j - 1]
  {
  }

  /** `k` successive updates (the removal after arrival is the caller's). */
  function StepN(s: FireworkState, k: nat, host: Host): FireworkState
  {
    if k == 0 then s else Step(StepN(s, k - 1, host), host)
  }

  /** Where the firework is, as a trail entry. */
  function Position(s: FireworkState): Point
  {
    Point(s.x, s.y)
  }

  /** Every update keeps a firework valid: trail of three, marker radius in
      [1, 8.3), speed at least 2. */
  lemma {:induction false} StepNKeepsInv(s: FireworkState, k: nat, host: Host)
    requires Inv(s)
    ensures Inv(StepN(s, k, host))
  {
    if k > 0 {
      StepNKeepsInv(s, k - 1, host);
    }
  }

  /** `v` accelerated `k` times. */
  function Accelerated(v: real, k: nat): real
  {
    if k == 0 then v else Accelerated(v, k - 1) * Acceleration
  }

  /** Accelerating `k` times multiplies by 1.05^k, and keeps a positive speed
      positive. */
  lemma {:induction false} AcceleratedIsPow(v: real, k: nat)
    ensures Accelerated(v, k) == v * Pow(Acceleration, k)
    ensures v > 0.0 ==> Accelerated(v, k) > 0.0
  {
    if k > 0 {
      AcceleratedIsPow(v, k - 1);
      assert v * Pow(Acceleration, k) == (v * Pow(Acceleration, k - 1)) * Acceleration;
    }
  }

  /** After `k` updates the speed is the speed before them accelerated `k`
      times. */
  lemma {:induction false} SpeedAfter(s: FireworkState, k: nat, host: Host)
    requires s.acceleration == Acceleration
    ensures StepN(s, k, host).acceleration == Acceleration
    ensures StepN(s, k, host).speed == Accelerated(s.speed, k)
  {
    if k > 0 {
      SpeedAfter(s, k - 1, host);
      StepShiftsAndAccelerates(StepN(s, k - 1, host), host);
    }
  }

  /** A launched firework moves at 2 * 1.05^k after `k` updates, and every
      update makes it strictly faster. */
  lemma LaunchSpeed(sx: real, sy: real, tx: real, ty: real, brightness: real, k: nat, host: Host)
    ensures StepN(Launch(sx, sy, tx, ty, brightness, host), k, host).speed == InitialSpeed * Pow(Acceleration, k)
    ensures StepN(Launch(sx, sy, tx, ty, brightness, host), k + 1, host).speed >
            StepN(Launch(sx, sy, tx, ty, brightness, host), k, host).speed
  {
    var s := Launch(sx, sy, tx, ty, brightness, host);
    SpeedAfter(s, k, host);
    SpeedAfter(s, k + 1, host);
    AcceleratedIsPow(InitialSpeed, k);
  }

  /** The length of the path flown in `k` updates by a firework that starts
      at speed `v`: the sum of its speeds after each acceleration. */
  function Path(v: real, k: nat): real
  {
    if k == 0 then 0.0 else Path(v, k - 1) + Accelerated(v, k)
  }

  /** For a positive starting speed the path length is non-negative and
      grows strictly with every update. */
  lemma {:induction false} PathGrows(v: real, k: nat)
    requires v > 0.0
    ensures 0.0 <= Path(v, k) < Path(v, k + 1)
  {
    AcceleratedIsPow(v, k + 1);
    if k > 0 {
      PathGrows(v, k - 1);
    }
  }

  /** None of the first `k` updates of `s` arrives. */
  ghost predicate Flies(s: FireworkState, k: nat, host: Host)
  {
    k == 0 || (Flies(s, k - 1, host) && !Arrives(StepN(s, k - 1, host), host))
  }

  /** The point `t` along the ray from `p` at angle `a`. */
  function RayPoint(p: Point, a: real, t: real, host: Host): Point
  {
    Point(p.x + host.cos(a) * t, p.y + host.sin(a) * t)
  }

  /** Going `dt` further from the point `t` along a ray reaches the point
      `t + dt` along it. */
  lemma RayStep(p: Point, a: real, t: real, dt: real, t': real, q: Point, host: Host)
    requires q == RayPoint(p, a, t, host) && t' == t + dt
    ensures RayPoint(q, a, dt, host) == RayPoint(p, a, t', host)
  {
    var c, d := host.cos(a), host.sin(a);
    Distributes(c, t, dt, t');
    Distributes(d, t, dt, t');
    assert q.x == p.x + c * t && q.y == p.y + d * t;
    var r, r' := RayPoint(q, a, dt, host), RayPoint(p, a, t', host);
    assert r.x == q.x + c * dt && r'.x == p.x + c * t';
    assert r.y == q.y + d * dt && r'.y == p.y + d * t';
    assert r.x == r'.x && r.y == r'.y;
  }

  lemma Distributes(c: real, t: real, dt: real, t': real)
    requires t' == t + dt
    ensures c * t + c * dt == c * t'
  {
  }

  /** The candidate position is the accelerated speed along the angle. */
  lemma CandidateOnRay(b: FireworkState, host: Host)
    ensures Candidate(b, host) == RayPoint(Position(b), b.angle, b.speed * b.acceleration, host)
  {
  }

  /** One update that does not arrive moves the firework to its candidate
      position, and keeps its heading, launch point and target distance. */
  lemma StepAlong(b: FireworkState, host: Host)
    requires !Arrives(b, host)
    ensures Position(Step(b, host)) == RayPoint(Position(b), b.angle, b.speed * b.acceleration, host)
    ensures Step(b, host).angle == b.angle && Step(b, host).speed == b.speed * b.acceleration
    ensures Step(b, host).acceleration == b.acceleration
    ensures Step(b, host).sx == b.sx && Step(b, host).sy == b.sy
    ensures Step(b, host).distanceToTarget == b.distanceToTarget
  {
    CandidateOnRay(b, host);
  }

  /** A firework that has not arrived in `k` updates has moved along the ray
      from its position in the direction of its angle, by `Path(speed, k)`. */
  lemma {:induction false} FliesOnRay(s: FireworkState, k: nat, host: Host)
    requires s.acceleration == Acceleration && Flies(s, k, host)
    ensures StepN(s, k, host).angle == s.angle && StepN(s, k, host).acceleration == Acceleration
    ensures StepN(s, k, host).speed == Accelerated(s.speed, k)
    ensures StepN(s, k, host).sx == s.sx && StepN(s, k, host).sy == s.sy
    ensures StepN(s, k, host).distanceToTarget == s.distanceToTarget
    ensures Position(StepN(s, k, host)) == RayPoint(Position(s), s.angle, Path(s.speed, k), host)
  {
    if k > 0 {
      var b := StepN(s, k - 1, host);
      FliesOnRay(s, k - 1, host);
      StepAlong(b, host);
      RayStep(Position(s), s.angle, Path(s.speed, k - 1), b.speed * b.acceleration, Path(s.speed, k), Position(b), host);
    } else {
      assert Position(s) == RayPoint(Position(s), s.angle, 0.0, host);
    }
  }

  /** A firework that has not arrived in `k` updates measures, in update
      `k + 1`, its travelled distance from its launch point to the candidate
      position, which lies `Path(speed, k + 1)` along the ray from where it
      started. */
  lemma FliesMeasures(s: FireworkState, k: nat, host: Host)
    requires s.acceleration == Acceleration && Flies(s, k, host)
    ensures var c := Candidate(StepN(s, k, host), host);
      && StepN(s, k + 1, host).distanceTraveled == host.calculateDistance(s.sx, s.sy, c.x, c.y)
      && c == RayPoint(Position(s), s.angle, Path(s.speed, k + 1), host)
  {
    var b := StepN(s, k, host);
    FliesOnRay(s, k, host);
    CandidateOnRay(b, host);
    RayStep(Position(s), s.angle, Path(s.speed, k), b.speed * b.acceleration, Path(s.speed, k + 1), Position(b), host);
    StepMoves(b, host);
  }

  /** Until it arrives, a launched firework measures its travelled distance
      from the launch point to its candidate position. That position lies on
      the ray from the launch point at the angle `atan2(ty - sy, tx - sx)`,
      at a ray parameter that grows strictly with every update. That is all a
      growing travelled distance needs from `calculateDistance`. */
  lemma LaunchRay(sx: real, sy: real, tx: real, ty: real, brightness: real, k: nat, host: Host)
    requires Flies(Launch(sx, sy, tx, ty, brightness, host), k, host)
    ensures var s := Launch(sx, sy, tx, ty, brightness, host);
      var c := Candidate(StepN(s, k, host), host);
      && StepN(s, k + 1, host).distanceTraveled == host.calculateDistance(sx, sy, c.x, c.y)
      && c == RayPoint(Point(sx, sy), host.atan2(ty - sy, tx - sx), Path(InitialSpeed, k + 1), host)
    ensures 0.0 <= Path(InitialSpeed, k) < Path(InitialSpeed, k + 1)
  {
    var s := Launch(sx, sy, tx, ty, brightness, host);
    assert Position(s) == Point(sx, sy) && s.sx == sx && s.sy == sy;
    assert s.speed == InitialSpeed && s.acceleration == Acceleration;
    assert s.angle == host.atan2(ty - sy, tx - sx);
    FliesMeasures(s, k, host);
    PathGrows(InitialSpeed, k);
  }

  /** Entry `j` of the trail, after `k` updates, of a firework whose trail
      started as copies of `p`: where it was `j + 1` updates ago, or `p` if
      it has not made that many updates. */
  lemma {:induction false} TrailAt(s: FireworkState, p: Point, k: nat, j: nat, host: Host)
    requires s.coordinates == Repeat(p, TrailLength) && j < TrailLength
    ensures |StepN(s, k, host).coordinates| == TrailLength
    ensures StepN(s, k, host).coordinates[j] == if j < k then Position(StepN(s, k - 1 - j, host)) else p
  {
    if k > 0 {
      var before := StepN(s, k - 1, host);
      TrailAt(s, p, k - 1, if j > 0 then j - 1 else 0, host);
      StepShifts(before, j, host);
      if j > 0 {
        assert k - 1 - 1 - (j - 1) == k - 1 - j;
      }
    }
  }

  /** Entry `j` of a launched firework's trail after `k` updates is where it
      was `j + 1` updates ago, or the launch point. */
  lemma LaunchTrail(sx: real, sy: real, tx: real, ty: real, brightness: real, k: nat, j: nat, host: Host)
    requires j < TrailLength
    ensures var s := Launch(sx, sy, tx, ty, brightness, host);
      var trail := StepN(s, k, host).coordinates;
      |trail| == TrailLength &&
      trail[j] == if j < k then Position(StepN(s, k - 1 - j, host)) else Point(sx, sy)
  {
    TrailAt(Launch(sx, sy, tx, ty, brightness, host), Point(sx, sy), k, j, host);
  }

  class Firework {
    var x: real
    var y: real
    const sx: real
    const sy: real
    const tx: real
    const ty: real
    const distanceToTarget: real
    var distanceTraveled: real
    var coordinates: seq<Point>
    const angle: real
    var speed: real
    const acceleration: real
    const brightness: real
    var targetRadius: real

    function State(): FireworkState
      reads this
    {
      FireworkState(x, y, sx, sy, tx, ty, distanceToTarget, distanceTraveled,
                    coordinates, angle, speed, acceleration, brightness, targetRadius)
    }

    ghost predicate Valid()
      reads this
    {
      Inv(State())
    }

    /** `new Firework(sx, sy, tx, ty)`; the brightness is the one random draw. */
    constructor (sx: real, sy: real, tx: real, ty: real, rng: RandomSource, host: Host)
      requires rng.Valid()
      modifies rng`drawn
      ensures rng.drawn == old(rng.drawn) + 1
      ensures State() == Launch(sx, sy, tx, ty, Scale(rng.sample(old(rng.drawn)), 50.0, 70.0), host)
      ensures Valid()
    {
      var trail: seq<Point> := [];
      var coordinateCount := TrailLength;
      while coordinateCount > 0
        invariant 0 <= coordinateCount <= TrailLength
        invariant trail == Repeat(Point(sx, sy), TrailLength - coordinateCount)
      {
        coordinateCount := coordinateCount - 1;
        trail := trail + [Point(sx, sy)];
      }
      var b := rng.Random(50.0, 70.0);
      this.x, this.y := sx, sy;
      this.sx, this.sy := sx, sy;
      this.tx, this.ty := tx, ty;
      this.distanceToTarget := host.calculateDistance(sx, sy, tx, ty);
      this.distanceTraveled := 0.0;
      this.coordinates := trail;
      this.angle := host.atan2(ty - sy, tx - sx);
      this.speed := InitialSpeed;
      this.acceleration := Acceleration;
      this.brightness := b;
      this.targetRadius := 1.0;
    }

    /** `update`, minus the removal: reports whether the firework arrived,
        and the caller then explodes and removes it. */
    method Update(host: Host) returns (arrived: bool)
      requires Valid()
      modifies this
      ensures State() == Step(old(State()), host)
      ensures arrived == Arrives(old(State()), host)
      ensures Valid()
    {
      ghost var s := State();
      coordinates := Shift(coordinates, Point(x, y));
      if targetRadius < RadiusCap {
        targetRadius := targetRadius + RadiusStep;
      } else {
        targetRadius := 1.0;
      }
      speed := speed * acceleration;
      var vx := host.cos(angle) * speed;
      var vy := host.sin(angle) * speed;
      assert Candidate(s, host) == Point(x + vx, y + vy);
      distanceTraveled := host.calculateDistance(sx, sy, x + vx, y + vy);
      arrived := distanceTraveled >= distanceToTarget;
      if !arrived {
        x := x + vx;
        y := y + vy;
      }
    }
  }
}
