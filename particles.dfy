/** The explosion fragment: the `Particle` class, its constructor and its
    per-frame `update` with friction, gravity and fading. */
module Particles {
  import opened Geometry
  import opened Randomness

  const TrailLength: nat := 5
  const Friction: real := 0.95
  const Gravity: real := 1.0
  const MinDecay: real := 0.015
  const MaxDecay: real := 0.03

  /** The fields of a `Particle` object at one moment. */
  datatype ParticleState = ParticleState(
    x: real, y: real,
    coordinates: seq<Point>,
    angle: real,
    speed: real,
    friction: real,
    gravity: real,
    hue: real,
    brightness: real,
    alpha: real,
    decay: real)

  /** What every live particle satisfies. */
  ghost predicate Inv(s: ParticleState)
  {
    && |s.coordinates| == TrailLength
    && s.friction == Friction
    && s.gravity == Gravity
    && MinDecay <= s.decay < MaxDecay
    && s.speed > 0.0
    && 50.0 <= s.brightness < 80.0
  }

  /** A particle as the constructor leaves it at `origin`: on the point, its
      trail five copies of it, fully opaque, speed in [1, 10). */
  ghost predicate Spawned(s: ParticleState, origin: Point)
  {
    && Inv(s)
    && s.x == origin.x && s.y == origin.y
    && s.coordinates == Repeat(origin, TrailLength)
    && s.alpha == 1.0
    && 1.0 <= s.speed < 10.0
  }

  /** The removal test of `update`, on the state before the decrement: the
      decremented alpha is at most the decay. */
  predicate Expires(s: ParticleState)
  {
    s.alpha - s.decay <= s.decay
  }

  /** One `update`: shift the trail, slow down by friction, move by the
      heading plus a constant downward pull, fade by the decay. */
  function Step(s: ParticleState, host: Host): (r: ParticleState)
    ensures Inv(s) ==> Inv(r) && r.alpha < s.alpha
    ensures r.decay == s.decay
  {
    var speed := s.speed * s.friction;
    s.(
      coordinates := Shift(s.coordinates, Point(s.x, s.y)),
      speed := speed,
      x := s.x + host.cos(s.angle) * speed,
      y := s.y + host.sin(s.angle) * speed + s.gravity,
      alpha := s.alpha - s.decay)
  }

  /** A particle is removed exactly when the alpha after the update is at most
      its decay. */
  lemma ExpiresAfterStep(s: ParticleState, host: Host)
    ensures Expires(s) <==> Step(s, host).alpha <= Step(s, host).decay
  {
  }

  /** `k` successive updates. */
  function StepN(s: ParticleState, k: nat, host: Host): ParticleState
  {
    if k == 0 then s else Step(StepN(s, k - 1, host), host)
  }

  /** Where the particle is, as a trail entry. */
  function Position(s: ParticleState): Point
  {
    Point(s.x, s.y)
  }

  /** Every update keeps a particle valid. */
  lemma {:induction false} StepNKeepsInv(s: ParticleState, k: nat, host: Host)
    requires Inv(s)
    ensures Inv(StepN(s, k, host))
  {
    if k > 0 {
      StepNKeepsInv(s, k - 1, host);
    }
  }

  /** After `k` updates alpha has gone down by exactly `k` decays and the
      speed has been multiplied by 0.95^k. */
  lemma {:induction false} FadeAfter(s: ParticleState, k: nat, host: Host)
    requires s.friction == Friction
    ensures StepN(s, k, host).decay == s.decay
    ensures StepN(s, k, host).friction == Friction
    ensures StepN(s, k, host).alpha == s.alpha - (k as real) * s.decay
    ensures StepN(s, k, host).speed == s.speed * Pow(Friction, k)
  {
    if k > 0 {
      var before := StepN(s, k - 1, host);
      FadeAfter(s, k - 1, host);
      assert StepN(s, k, host) == Step(before, host);
      assert Pow(Friction, k) == Friction * Pow(Friction, k - 1);
    }
  }

  /** A freshly spawned particle survives its first 32 updates and has been
      removed by its 66th: update `k + 1` removes it exactly when
      (k + 2) * decay >= 1, and decay lies in [0.015, 0.03). */
  lemma Lifetime(s: ParticleState, origin: Point, k: nat, host: Host)
    requires Spawned(s, origin)
    ensures Expires(StepN(s, k, host)) <==> ((k + 2) as real) * s.decay >= 1.0
    ensures k < 32 ==> !Expires(StepN(s, k, host))
    ensures k >= 65 ==> Expires(StepN(s, k, host))
  {
    FadeAfter(s, k, host);
    var n := (k + 2) as real;
    var d := s.decay;
    assert StepN(s, k, host).alpha - d - d == 1.0 - n * d;
    if k < 32 {
      assert n <= 33.0;
      assert n * d <= 33.0 * d by { MulMonotone(n, 33.0, d); }
    }
    if k >= 65 {
      assert n >= 67.0;
      assert n * d >= 67.0 * d by { MulMonotone(67.0, n, d); }
    }
  }

  lemma MulMonotone(a: real, b: real, c: real)
    requires a <= b && c >= 0.0
    ensures a * c <= b * c
  {
    assert b * c - a * c == (b - a) * c;
    MulNonNeg(b - a, c);
  }

  /** Entry `j` of the trail, after `k` updates, of a particle whose trail
      started as copies of `origin`: where it was `j + 1` updates ago, or the
      origin if it has not made that many updates. */
  lemma {:induction false} TrailAt(s: ParticleState, origin: Point, k: nat, j: nat, host: Host)
    requires s.coordinates == Repeat(origin, TrailLength) && j < TrailLength
    ensures |StepN(s, k, host).coordinates| == TrailLength
    ensures StepN(s, k, host).coordinates[j] == if j < k then Position(StepN(s, k - 1 - j, host)) else origin
  {
    if k > 0 {
      var before := StepN(s, k - 1, host);
      TrailAt(s, origin, k - 1, if j > 0 then j - 1 else 0, host);
      assert StepN(s, k, host) == Step(before, host);
    }
  }

  class Particle {
    var x: real
    var y: real
    var coordinates: seq<Point>
    const angle: real
    var speed: real
    const friction: real
    const gravity: real
    const hue: real
    const brightness: real
    var alpha: real
    const decay: real

    function State(): ParticleState
      reads this
    {
      ParticleState(x, y, coordinates, angle, speed, friction, gravity, hue, brightness, alpha, decay)
    }

    ghost predicate Valid()
      reads this
    {
      Inv(State())
    }

    /** `new Particle(x, y)`, with the global hue at creation time. Five
        random draws, in order: angle, speed, hue, brightness, decay. */
    constructor (x: real, y: real, globalHue: real, rng: RandomSource, host: Host)
      requires rng.Valid()
      modifies rng`drawn
      ensures rng.drawn == old(rng.drawn) + 5
      ensures Spawned(State(), Point(x, y))
      ensures angle == Scale(rng.sample(old(rng.drawn)), 0.0, host.pi * 2.0)
      ensures speed == Scale(rng.sample(old(rng.drawn) + 1), 1.0, 10.0)
      ensures hue == Scale(rng.sample(old(rng.drawn) + 2), globalHue - 50.0, globalHue + 50.0)
      ensures brightness == Scale(rng.sample(old(rng.drawn) + 3), 50.0, 80.0)
      ensures decay == Scale(rng.sample(old(rng.drawn) + 4), MinDecay, MaxDecay)
    {
      var trail: seq<Point> := [];
      var coordinateCount := TrailLength;
      while coordinateCount > 0
        invariant 0 <= coordinateCount <= TrailLength
        invariant trail == Repeat(Point(x, y), TrailLength - coordinateCount)
      {
        coordinateCount := coordinateCount - 1;
        trail := trail + [Point(x, y)];
      }
      var a := rng.Random(0.0, host.pi * 2.0);
      var sp := rng.Random(1.0, 10.0);
      var h := rng.Random(globalHue - 50.0, globalHue + 50.0);
      var b := rng.Random(50.0, 80.0);
      var d := rng.Random(MinDecay, MaxDecay);
      this.x, this.y := x, y;
      this.coordinates := trail;
      this.angle := a;
      this.speed := sp;
      this.friction := Friction;
      this.gravity := Gravity;
      this.hue := h;
      this.brightness := b;
      this.alpha := 1.0;
      this.decay := d;
    }

    /** `update`, minus the removal: reports whether the particle has faded
        out, and the caller then removes it. */
    method Update(host: Host) returns (expired: bool)
      requires Valid()
      modifies this
      ensures State() == Step(old(State()), host)
      ensures expired == Expires(old(State()))
      ensures Valid()
    {
      coordinates := Shift(coordinates, Point(x, y));
      speed := speed * friction;
      x := x + host.cos(angle) * speed;
      y := y + host.sin(angle) * speed + gravity;
      alpha := alpha - decay;
      expired := alpha <= decay;
    }
  }
}
