/** The frame driver: the global state of the script (the `fireworks` and
    `particles` arrays, `hue`, the two spawn counters) as one object, the
    explosion factory `createParticles`, and one call of `loop`. */
module Show {
  import opened Geometry
  import opened Randomness
  import opened Collections
  import opened Timers
  import F = Fireworks
  import P = Particles

  /** The size of one explosion. */
  const ParticleCount: nat := 100
  const InitialHue: real := 120.0
  const HueStep: real := 0.5

  /** The current fields of each firework of an array. */
  function FireworkStates(fs: seq<F.Firework>): (st: seq<F.FireworkState>)
    reads fs
    ensures |st| == |fs|
    ensures forall k :: 0 <= k < |fs| ==> st[k] == fs[k].State()
  {
    if |fs| == 0 then [] else FireworkStates(fs[..|fs| - 1]) + [fs[|fs| - 1].State()]
  }

  /** The current fields of each particle of an array. */
  function ParticleStates(ps: seq<P.Particle>): (st: seq<P.ParticleState>)
    reads ps
    ensures |st| == |ps|
    ensures forall k :: 0 <= k < |ps| ==> st[k] == ps[k].State()
  {
    if |ps| == 0 then [] else ParticleStates(ps[..|ps| - 1]) + [ps[|ps| - 1].State()]
  }

  /** Which fireworks the next update removes. */
  function ArrivalFlags(st: seq<F.FireworkState>, host: Host): seq<bool>
  {
    seq(|st|, k requires 0 <= k < |st| => F.Arrives(st[k], host))
  }

  /** Which particles the next update removes. */
  function ExpiryFlags(st: seq<P.ParticleState>): seq<bool>
  {
    seq(|st|, k requires 0 <= k < |st| => P.Expires(st[k]))
  }

  /** The targets of the fireworks that arrive, in the order a reverse pass
      meets them (last index first): one explosion per arriving firework. */
  function Explosions(st: seq<F.FireworkState>, host: Host): seq<Point>
  {
    if |st| == 0 then [] else
      Explosions(st[1..], host) + (if F.Arrives(st[0], host) then [Point(st[0].tx, st[0].ty)] else [])
  }

  /** One explosion per arriving firework: as many as the pass removes. */
  lemma {:induction false} ExplosionCount(st: seq<F.FireworkState>, host: Host)
    ensures |Explosions(st, host)| == Count(ArrivalFlags(st, host))
  {
    if |st| > 0 {
      assert ArrivalFlags(st, host)[1..] == ArrivalFlags(st[1..], host);
      ExplosionCount(st[1..], host);
    }
  }

  /** The spawn point of every particle a sequence of explosions creates:
      each explosion point 100 times, in order. */
  function Origins(pts: seq<Point>): (o: seq<Point>)
    ensures |o| == ParticleCount * |pts|
  {
    if |pts| == 0 then [] else Origins(pts[..|pts| - 1]) + Repeat(pts[|pts| - 1], ParticleCount)
  }

  /** The explosions of the fireworks from index `i` on: what a reverse pass
      that has walked down to `i` has produced. */
  function BurstsFrom(st: seq<F.FireworkState>, host: Host, i: nat): seq<Point>
    requires i <= |st|
  {
    Explosions(st[i..], host)
  }

  /** Nothing is produced before the walk starts, everything by its end. */
  lemma BurstsEnds(st: seq<F.FireworkState>, host: Host)
    ensures BurstsFrom(st, host, |st|) == []
    ensures BurstsFrom(st, host, 0) == Explosions(st, host)
  {
    assert st[0..] == st;
  }

  /** With the walk down to `i`, updating firework `i - 1` adds its
      target, and 100 particle origins there, when it arrives. */
  lemma BurstsStep(st: seq<F.FireworkState>, host: Host, i: nat)
    requires 0 < i <= |st|
    ensures BurstsFrom(st, host, i - 1) ==
      BurstsFrom(st, host, i) + (if F.Arrives(st[i - 1], host) then [Point(st[i - 1].tx, st[i - 1].ty)] else [])
    ensures Origins(BurstsFrom(st, host, i - 1)) ==
      Origins(BurstsFrom(st, host, i)) + (if F.Arrives(st[i - 1], host) then Repeat(Point(st[i - 1].tx, st[i - 1].ty), ParticleCount) else [])
  {
    var j := i - 1;
    assert st[j..][1..] == st[i..];
    var rest := BurstsFrom(st, host, i);
    if F.Arrives(st[j], host) {
      OriginsSnoc(rest, Point(st[j].tx, st[j].ty));
    } else {
      assert rest + [] == rest && Origins(rest) + [] == Origins(rest);
    }
  }

  /** Particle `k` of a sequence of explosions belongs to explosion k / 100. */
  lemma {:induction false} OriginsAt(pts: seq<Point>, k: nat)
    requires k < ParticleCount * |pts|
    ensures Origins(pts)[k] == pts[k / ParticleCount]
  {
    var n := |pts| - 1;
    var front := pts[..n];
    if k >= ParticleCount * n {
      assert Origins(pts)[k] == Repeat(pts[n], ParticleCount)[k - ParticleCount * n];
      assert k / ParticleCount == n;
    } else {
      OriginsAt(front, k);
      assert Origins(pts)[k] == Origins(front)[k];
      assert k / ParticleCount < n;
    }
  }

  /** One more explosion adds its 100 particles at the end. */
  lemma OriginsSnoc(pts: seq<Point>, p: Point)
    ensures Origins(pts + [p]) == Origins(pts) + Repeat(p, ParticleCount)
  {
    assert (pts + [p])[..|pts|] == pts;
  }

  /** The fireworks a pass keeps are distinct and valid, given that each was
      valid before its update. */
  lemma SurvivingFireworksValid(fs: seq<F.Firework>, before: seq<F.FireworkState>, drop: seq<bool>, host: Host)
    requires |fs| == |before| == |drop| && Distinct(fs)
    requires forall k :: 0 <= k < |fs| ==> F.Inv(before[k]) && fs[k].State() == F.Step(before[k], host)
    ensures Distinct(Keep(fs, drop))
    ensures forall m :: 0 <= m < |Keep(fs, drop)| ==> Keep(fs, drop)[m].Valid()
  {
    KeepDistinct(fs, drop);
    KeepSubset(fs, drop);
    forall m | 0 <= m < |Keep(fs, drop)| ensures Keep(fs, drop)[m].Valid() {
      assert Keep(fs, drop)[m] in fs;
      var k :| 0 <= k < |fs| && fs[k] == Keep(fs, drop)[m];
      assert F.Inv(before[k]);
    }
  }

  /** The particles a pass keeps are distinct and valid, given that each
      was valid before its update. */
  lemma SurvivingParticlesValid(ps: seq<P.Particle>, before: seq<P.ParticleState>, drop: seq<bool>, host: Host)
    requires |ps| == |before| == |drop| && Distinct(ps)
    requires forall k :: 0 <= k < |ps| ==> P.Inv(before[k]) && ps[k].State() == P.Step(before[k], host)
    ensures Distinct(Keep(ps, drop))
    ensures forall m :: 0 <= m < |Keep(ps, drop)| ==> Keep(ps, drop)[m].Valid()
  {
    KeepDistinct(ps, drop);
    KeepSubset(ps, drop);
    forall m | 0 <= m < |Keep(ps, drop)| ensures Keep(ps, drop)[m].Valid() {
      assert Keep(ps, drop)[m] in ps;
      var k :| 0 <= k < |ps| && ps[k] == Keep(ps, drop)[m];
      assert P.Inv(before[k]);
    }
  }

  /** Appending freshly spawned particles to valid ones leaves them all valid. */
  lemma GrownParticlesValid(ps: seq<P.Particle>, st: seq<P.ParticleState>, sparks: seq<P.Particle>, origins: seq<Point>)
    requires ParticleStates(ps) == st && forall k :: 0 <= k < |st| ==> P.Inv(st[k])
    requires SpawnedAt(sparks, origins)
    ensures forall k :: 0 <= k < |ps + sparks| ==> (ps + sparks)[k].Valid()
  {
    forall k | 0 <= k < |ps + sparks| ensures (ps + sparks)[k].Valid() {
      if k >= |ps| {
        assert (ps + sparks)[k] == sparks[k - |ps|];
        assert P.Spawned(sparks[k - |ps|].State(), origins[k - |ps|]);
      }
    }
  }

  /** The fields of a concatenation are the fields of its parts. */
  lemma ParticleStatesAppend(a: seq<P.Particle>, b: seq<P.Particle>)
    ensures ParticleStates(a + b) == ParticleStates(a) + ParticleStates(b)
  {
    forall k | 0 <= k < |a| + |b| ensures ParticleStates(a + b)[k] == (ParticleStates(a) + ParticleStates(b))[k] {
      if k < |a| {
        assert (a + b)[k] == a[k];
      } else {
        assert (a + b)[k] == b[k - |a|];
      }
    }
  }

  /** `after` is `before` with every firework updated once. */
  ghost predicate FireworksStepped(before: seq<F.FireworkState>, after: seq<F.FireworkState>, host: Host)
  {
    |after| == |before| && forall k :: 0 <= k < |before| ==> after[k] == F.Step(before[k], host)
  }

  /** `after` is `before` with every particle updated once. */
  ghost predicate ParticlesStepped(before: seq<P.ParticleState>, after: seq<P.ParticleState>, host: Host)
  {
    |after| == |before| && forall k :: 0 <= k < |before| ==> after[k] == P.Step(before[k], host)
  }

  /** Distinct fireworks that were valid in the states `before` and each
      hold the update of it: all of them stepped once, and those a pass
      keeps are distinct and valid. */
  lemma FireworksUpdated(fs: seq<F.Firework>, before: seq<F.FireworkState>, after: seq<F.FireworkState>,
                         drop: seq<bool>, host: Host)
    requires |fs| == |before| == |after| == |drop| && Distinct(fs)
    requires forall k :: 0 <= k < |fs| ==> F.Inv(before[k])
    requires forall k :: 0 <= k < |fs| ==> after[k] == F.Step(before[k], host)
    requires forall k :: 0 <= k < |fs| ==> fs[k].State() == after[k]
    ensures FireworksStepped(before, FireworkStates(fs), host)
    ensures Distinct(Keep(fs, drop))
    ensures forall m :: 0 <= m < |Keep(fs, drop)| ==> Keep(fs, drop)[m].Valid()
  {
    SurvivingFireworksValid(fs, before, drop, host);
  }

  /** Particles that each hold the update of their state in `before`. */
  lemma ParticlesUpdated(ps: seq<P.Particle>, before: seq<P.ParticleState>, after: seq<P.ParticleState>, host: Host)
    requires |ps| == |before| == |after|
    requires forall k :: 0 <= k < |ps| ==> ps[k].State() == after[k]
    requires forall k :: 0 <= k < |before| ==> after[k] == P.Step(before[k], host)
    ensures ParticlesStepped(before, ParticleStates(ps), host)
  {
  }

  /** The states of particles just spawned, one at each of `origins`. */
  ghost predicate SparkStates(st: seq<P.ParticleState>, origins: seq<Point>)
  {
    |st| == |origins| && forall k :: 0 <= k < |st| ==> P.Spawned(st[k], origins[k])
  }

  /** Entry `k` of `ps` is a freshly spawned particle at `origins[k]`. */
  ghost predicate SpawnedAt(ps: seq<P.Particle>, origins: seq<Point>)
    reads ps
  {
    |ps| == |origins| && forall k :: 0 <= k < |ps| ==> P.Spawned(ps[k].State(), origins[k])
  }

  /** Two runs of sparks, one after the other. */
  lemma SpawnedAtAppend(a: seq<P.Particle>, oa: seq<Point>, b: seq<P.Particle>, ob: seq<Point>)
    requires SpawnedAt(a, oa) && SpawnedAt(b, ob)
    ensures SpawnedAt(a + b, oa + ob)
  {
    forall k | 0 <= k < |a + b| ensures P.Spawned((a + b)[k].State(), (oa + ob)[k]) {
      if k >= |a| {
        assert (a + b)[k] == b[k - |a|] && (oa + ob)[k] == ob[k - |a|];
      }
    }
  }

  /** Particles just spawned are fully opaque, so none of them fades out on
      its first update: a pass over old particles followed by such sparks
      keeps all the sparks, in order, after the surviving old particles. */
  lemma FreshSparksSurvive<T>(ps: seq<T>, n: nat, st: seq<P.ParticleState>, origins: seq<Point>)
    requires |ps| == |st| && n <= |ps| && SparkStates(st[n..], origins)
    ensures Keep(ps, ExpiryFlags(st)) == Keep(ps[..n], ExpiryFlags(st[..n])) + ps[n..]
  {
    var front, sparks := st[..n], st[n..];
    assert st == front + sparks;
    ExpiryFlagsAppend(front, sparks);
    assert ps == ps[..n] + ps[n..];
    KeepAppend(ps[..n], ExpiryFlags(front), ps[n..], ExpiryFlags(sparks));
    SparksDoNotExpire(sparks, origins);
    KeepNone(ps[n..], ExpiryFlags(sparks));
  }

  /** The removal flags of two runs of particles, one after the other. */
  lemma ExpiryFlagsAppend(a: seq<P.ParticleState>, b: seq<P.ParticleState>)
    ensures ExpiryFlags(a + b) == ExpiryFlags(a) + ExpiryFlags(b)
  {
  }

  /** No particle just spawned is removed by its first update. */
  lemma SparksDoNotExpire(st: seq<P.ParticleState>, origins: seq<Point>)
    requires SparkStates(st, origins)
    ensures forall k :: 0 <= k < |st| ==> !ExpiryFlags(st)[k]
  {
    forall k | 0 <= k < |st| ensures !ExpiryFlags(st)[k] {
      assert P.Spawned(st[k], origins[k]);
    }
  }

  /** Pushing a valid firework that is not yet live keeps the live ones
      distinct and valid. */
  lemma Launched(fs: seq<F.Firework>, f: F.Firework)
    requires Distinct(fs) && forall k :: 0 <= k < |fs| ==> fs[k].Valid()
    requires f !in fs && f.Valid()
    ensures Distinct(fs + [f]) && forall k :: 0 <= k < |fs + [f]| ==> (fs + [f])[k].Valid()
  {
    DistinctSnoc(fs, f);
  }

  /** The global state of the script. Several methods take ghost arrays of
      objects (`F0`, `G`, `Q`) only to state that the states of those objects
      are unchanged. Their `modifies` clauses already imply this. The
      explicit snapshot equality spares the caller's proof the reasoning
      over the heap frame. */
  class Simulation {
    var fireworks: seq<F.Firework>
    var particles: seq<P.Particle>
    var hue: real
    var timerTick: int
    var limiterTick: int
    const rng: RandomSource
    const host: Host

    ghost predicate Valid()
      reads this, fireworks, particles
    {
      && rng.Valid()
      && FireworksValid()
      && ParticlesValid()
      && 0 <= timerTick <= TimerTotal
      && 0 <= limiterTick <= LimiterTotal
    }

    /** The live fireworks are distinct objects, each valid. */
    ghost predicate FireworksValid()
      reads this`fireworks, fireworks
    {
      Distinct(fireworks) && forall k :: 0 <= k < |fireworks| ==> fireworks[k].Valid()
    }

    /** The live particles are distinct objects, each valid. */
    ghost predicate ParticlesValid()
      reads this`particles, particles
    {
      Distinct(particles) && forall k :: 0 <= k < |particles| ==> particles[k].Valid()
    }

    /** The script's start: no entities, hue 120, both counters at 0. */
    constructor (sample: nat -> real, host: Host)
      requires UnitStream(sample)
      ensures Valid() && fresh(rng) && rng.sample == sample && rng.drawn == 0
      ensures fireworks == [] && particles == []
      ensures hue == InitialHue && timerTick == 0 && limiterTick == 0
      ensures this.host == host
    {
      fireworks := [];
      particles := [];
      hue := InitialHue;
      timerTick := 0;
      limiterTick := 0;
      rng := new RandomSource(sample);
      this.host := host;
    }

    /** `particles.push(new Particle(x, y))`, after the `sparks` already
        spawned at `origins`; `p` is the new particle. */
    method PushParticle(x: real, y: real, ghost sparks: seq<P.Particle>, ghost origins: seq<Point>)
      returns (ghost p: P.Particle)
      requires rng.Valid() && Distinct(particles) && SpawnedAt(sparks, origins)
      modifies this`particles, rng`drawn
      ensures particles == old(particles) + [p] && Distinct(particles) && fresh(p)
      ensures SpawnedAt(sparks + [p], origins + [Point(x, y)])
      ensures rng.drawn == old(rng.drawn) + 5
      ensures hue == old(hue) && timerTick == old(timerTick) && limiterTick == old(limiterTick)
    {
      var q := new P.Particle(x, y, hue, rng, host);
      DistinctSnoc(particles, q);
      assert SpawnedAt([q], [Point(x, y)]);
      SpawnedAtAppend(sparks, origins, [q], [Point(x, y)]);
      particles := particles + [q];
      p := q;
    }

    /** `createParticles(x, y)`: append 100 new particles at (x, y); `sparks`
        are the new objects. */
    method CreateParticles(x: real, y: real) returns (ghost sparks: seq<P.Particle>)
      requires rng.Valid() && Distinct(particles)
      modifies this`particles, rng`drawn
      ensures particles == old(particles) + sparks && Distinct(particles)
      ensures forall k :: 0 <= k < |sparks| ==> fresh(sparks[k])
      ensures SpawnedAt(sparks, Repeat(Point(x, y), ParticleCount))
      ensures rng.drawn == old(rng.drawn) + 5 * ParticleCount
      ensures hue == old(hue) && timerTick == old(timerTick) && limiterTick == old(limiterTick)
      ensures ParticleStates(old(particles)) == old(ParticleStates(particles))
    {
      sparks := [];
      var particleCount := ParticleCount;
      while particleCount > 0
        invariant 0 <= particleCount <= ParticleCount
        invariant particles == old(particles) + sparks
        invariant Distinct(particles) && forall k :: 0 <= k < |sparks| ==> fresh(sparks[k])
        invariant SpawnedAt(sparks, Repeat(Point(x, y), ParticleCount - particleCount))
        invariant rng.drawn == old(rng.drawn) + 5 * (ParticleCount - particleCount)
        invariant hue == old(hue) && timerTick == old(timerTick) && limiterTick == old(limiterTick)
      {
        particleCount := particleCount - 1;
        ghost var p := PushParticle(x, y, sparks, Repeat(Point(x, y), ParticleCount - particleCount - 1));
        sparks := sparks + [p];
      }
    }

    /** The arrival branch of `Firework.update`: `createParticles(tx, ty)`
        and then `fireworks.splice(index, 1)`; `sparks` are the particles
        the explosion creates. */
    method Explode(index: nat) returns (ghost sparks: seq<P.Particle>)
      requires index < |fireworks| && rng.Valid() && Distinct(particles)
      modifies this`fireworks, this`particles, rng`drawn
      ensures fireworks == RemoveAt(old(fireworks), index)
      ensures particles == old(particles) + sparks && Distinct(particles)
      ensures forall k :: 0 <= k < |sparks| ==> fresh(sparks[k])
      ensures SpawnedAt(sparks, Repeat(Point(old(fireworks[index]).tx, old(fireworks[index]).ty), ParticleCount))
      ensures hue == old(hue) && timerTick == old(timerTick) && limiterTick == old(limiterTick)
      ensures ParticleStates(old(particles)) == old(ParticleStates(particles))
    {
      var f := fireworks[index];
      sparks := CreateParticles(f.tx, f.ty);
      fireworks := RemoveAt(fireworks, index);
    }

    /** `fireworks[index].update(index)`: update the firework and, when it
        arrives, explode it at its target and splice it out; `sparks` are the
        particles the explosion creates. */
    method UpdateFirework(index: nat) returns (arrived: bool, ghost sparks: seq<P.Particle>)
      requires index < |fireworks| && fireworks[index].Valid() && rng.Valid() && Distinct(particles)
      modifies this`fireworks, this`particles, fireworks[index], rng`drawn
      ensures arrived == F.Arrives(old(fireworks[index].State()), host)
      ensures old(fireworks[index]).State() == F.Step(old(fireworks[index].State()), host)
      ensures fireworks == if arrived then RemoveAt(old(fireworks), index) else old(fireworks)
      ensures particles == old(particles) + sparks && Distinct(particles)
      ensures forall k :: 0 <= k < |sparks| ==> fresh(sparks[k])
      ensures SpawnedAt(sparks, if arrived then Repeat(Point(old(fireworks[index]).tx, old(fireworks[index]).ty), ParticleCount) else [])
      ensures hue == old(hue) && timerTick == old(timerTick) && limiterTick == old(limiterTick)
      ensures ParticleStates(old(particles)) == old(ParticleStates(particles))
    {
      var f := fireworks[index];
      arrived := f.Update(host);
      sparks := [];
      if arrived {
        sparks := Explode(index);
      }
    }

    /** `particles[index].update(index)`: update the particle and splice it
        out when it has faded. */
    method UpdateParticle(index: nat, ghost F0: seq<F.Firework>) returns (expired: bool)
      requires index < |particles| && particles[index].Valid()
      modifies this`particles, particles[index]
      ensures expired == P.Expires(old(particles[index].State()))
      ensures old(particles[index]).State() == P.Step(old(particles[index].State()), host)
      ensures particles == if expired then RemoveAt(old(particles), index) else old(particles)
      ensures fireworks == old(fireworks) && hue == old(hue) && timerTick == old(timerTick) && limiterTick == old(limiterTick)
      ensures FireworkStates(F0) == old(FireworkStates(F0)) && FireworkStates(fireworks) == old(FireworkStates(fireworks))
    {
      var p := particles[index];
      expired := p.Update(host);
      if expired {
        particles := RemoveAt(particles, index);
      }
    }

    /** One step of the firework half of `loop`: with the walk down to
        `i`, update firework `i - 1`, exploding it and splicing it out if it
        arrived; `burst` are the particles the explosion creates. Firework
        `k` holds `before[k]` until its update and `after[k]` from then on;
        `sparks`, the particles created earlier, are left alone. */
    method WalkFirework(i: nat, ghost F0: seq<F.Firework>, ghost before: seq<F.FireworkState>,
                        ghost after: seq<F.FireworkState>, ghost flags: seq<bool>,
                        ghost sparks: seq<P.Particle>, ghost origins: seq<Point>)
      returns (next: nat, ghost burst: seq<P.Particle>)
      requires 0 < i <= |F0| == |before| == |after| == |flags|
      requires F.Inv(before[i - 1]) && flags[i - 1] == F.Arrives(before[i - 1], host)
      requires after[i - 1] == F.Step(before[i - 1], host)
      requires rng.Valid() && Distinct(particles)
      requires fireworks == Walked(F0, flags, i)
      requires F0[i - 1].State() == before[i - 1]
      requires SpawnedAt(sparks, origins)
      modifies this`fireworks, this`particles, F0[i - 1], rng`drawn
      ensures next == i - 1
      ensures fireworks == Walked(F0, flags, next)
      ensures F0[next].State() == after[next]
      ensures particles == old(particles) + burst && Distinct(particles)
      ensures forall k :: 0 <= k < |burst| ==> fresh(burst[k])
      ensures SpawnedAt(burst, if flags[next] then Repeat(Point(before[next].tx, before[next].ty), ParticleCount) else [])
      ensures SpawnedAt(sparks, origins)
      ensures hue == old(hue) && timerTick == old(timerTick) && limiterTick == old(limiterTick)
      ensures ParticleStates(old(particles)) == old(ParticleStates(particles))
    {
      SpliceStep(F0, flags, i);
      next := i - 1;
      ghost var f := fireworks[next];
      assert f == F0[next] && f.State() == before[next];
      var arrived;
      arrived, burst := UpdateFirework(next);
    }

    /** `WalkFirework` on an array of distinct fireworks: only the updated
        one changes state. */
    method WalkFireworkInPlace(i: nat, ghost F0: seq<F.Firework>, ghost before: seq<F.FireworkState>,
                               ghost after: seq<F.FireworkState>, ghost flags: seq<bool>,
                               ghost sparks: seq<P.Particle>, ghost origins: seq<Point>)
      returns (next: nat, ghost burst: seq<P.Particle>)
      requires 0 < i <= |F0| == |before| == |after| == |flags| && Distinct(F0)
      requires F.Inv(before[i - 1]) && flags[i - 1] == F.Arrives(before[i - 1], host)
      requires after[i - 1] == F.Step(before[i - 1], host)
      requires rng.Valid() && Distinct(particles)
      requires fireworks == Walked(F0, flags, i)
      requires forall k :: 0 <= k < |F0| ==> F0[k].State() == if k < i then before[k] else after[k]
      requires SpawnedAt(sparks, origins)
      modifies this`fireworks, this`particles, F0[i - 1], rng`drawn
      ensures next == i - 1
      ensures fireworks == Walked(F0, flags, next)
      ensures forall k :: 0 <= k < |F0| ==> F0[k].State() == if k < next then before[k] else after[k]
      ensures particles == old(particles) + burst && Distinct(particles)
      ensures forall k :: 0 <= k < |burst| ==> fresh(burst[k])
      ensures SpawnedAt(burst, if flags[next] then Repeat(Point(before[next].tx, before[next].ty), ParticleCount) else [])
      ensures SpawnedAt(sparks, origins)
      ensures hue == old(hue) && timerTick == old(timerTick) && limiterTick == old(limiterTick)
      ensures ParticleStates(old(particles)) == old(ParticleStates(particles))
    {
      assert F0[i - 1].State() == before[i - 1];
      next, burst := WalkFirework(i, F0, before, after, flags, sparks, origins);
      forall k | 0 <= k < |F0| && k != next
        ensures F0[k].State() == if k < next then before[k] else after[k]
      {
        DistinctAt(F0, k, next);
      }
    }

    /** One turn of the firework half of `loop`: `WalkFirework`, and the
        new particles joined to those created earlier in the pass. */
    method WalkFireworkAndSparks(i: nat, ghost F0: seq<F.Firework>, ghost before: seq<F.FireworkState>,
                         ghost after: seq<F.FireworkState>, ghost flags: seq<bool>,
                         ghost P0: seq<P.Particle>, ghost sparks: seq<P.Particle>, ghost done: seq<Point>)
      returns (next: nat, ghost sparks': seq<P.Particle>, ghost done': seq<Point>)
      requires 0 < i <= |F0| == |before| == |after| == |flags| && Distinct(F0)
      requires F.Inv(before[i - 1]) && flags[i - 1] == F.Arrives(before[i - 1], host)
      requires after[i - 1] == F.Step(before[i - 1], host)
      requires rng.Valid()
      requires fireworks == Walked(F0, flags, i)
      requires forall k :: 0 <= k < |F0| ==> F0[k].State() == if k < i then before[k] else after[k]
      requires particles == P0 + sparks && Distinct(particles)
      requires done == Origins(BurstsFrom(before, host, i)) && SpawnedAt(sparks, done)
      modifies this`fireworks, this`particles, F0[i - 1], rng`drawn
      ensures next == i - 1
      ensures fireworks == Walked(F0, flags, next)
      ensures forall k :: 0 <= k < |F0| ==> F0[k].State() == if k < next then before[k] else after[k]
      ensures particles == P0 + sparks' && Distinct(particles)
      ensures |sparks| <= |sparks'| && forall k :: 0 <= k < |sparks| ==> sparks'[k] == sparks[k]
      ensures forall k :: |sparks| <= k < |sparks'| ==> fresh(sparks'[k])
      ensures done' == Origins(BurstsFrom(before, host, next)) && SpawnedAt(sparks', done')
      ensures hue == old(hue) && timerTick == old(timerTick) && limiterTick == old(limiterTick)
      ensures ParticleStates(P0) == old(ParticleStates(P0))
    {
      ghost var S0, S1 := ParticleStates(P0), ParticleStates(sparks);
      ParticleStatesAppend(P0, sparks);
      ghost var extra := if flags[i - 1] then Repeat(Point(before[i - 1].tx, before[i - 1].ty), ParticleCount) else [];
      BurstsStep(before, host, i);
      assert done + extra == Origins(BurstsFrom(before, host, i - 1));
      ghost var burst;
      next, burst := WalkFireworkInPlace(i, F0, before, after, flags, sparks, done);
      ParticleStatesAppend(P0, sparks);
      AppendSplit(ParticleStates(P0), ParticleStates(sparks), S0, S1);
      SpawnedAtAppend(sparks, done, burst, extra);
      AppendAssoc(P0, sparks, burst);
      sparks', done' := sparks + burst, done + extra;
    }

    /** The loop of the firework half of `loop`: from the last index down,
        update each firework of `F0` (with states `before`), exploding and
        splicing out those that arrive. */
    method WalkFireworks(ghost F0: seq<F.Firework>, ghost before: seq<F.FireworkState>,
                            ghost after: seq<F.FireworkState>, ghost flags: seq<bool>, ghost P0: seq<P.Particle>)
      returns (ghost sparks: seq<P.Particle>, ghost done: seq<Point>)
      requires |F0| == |before| == |after| == |flags| && Distinct(F0)
      requires forall k :: 0 <= k < |F0| ==> F.Inv(before[k])
      requires forall k :: 0 <= k < |F0| ==> flags[k] == F.Arrives(before[k], host)
      requires forall k :: 0 <= k < |F0| ==> after[k] == F.Step(before[k], host)
      requires rng.Valid()
      requires fireworks == F0
      requires forall k :: 0 <= k < |F0| ==> F0[k].State() == before[k]
      requires particles == P0 && Distinct(particles)
      modifies this`fireworks, this`particles, F0, rng`drawn
      ensures fireworks == Keep(F0, flags)
      ensures forall k :: 0 <= k < |F0| ==> F0[k].State() == after[k]
      ensures particles == P0 + sparks && Distinct(particles)
      ensures forall k :: 0 <= k < |sparks| ==> fresh(sparks[k])
      ensures done == Origins(Explosions(before, host)) && SpawnedAt(sparks, done)
      ensures hue == old(hue) && timerTick == old(timerTick) && limiterTick == old(limiterTick)
      ensures ParticleStates(P0) == old(ParticleStates(P0))
    {
      WalkedEnds(F0, flags);
      BurstsEnds(before, host);
      sparks, done := [], [];
      assert particles == P0 + sparks;
      var i := |fireworks|;
      while i > 0
        invariant 0 <= i <= |F0|
        invariant fireworks == Walked(F0, flags, i)
        invariant forall k :: 0 <= k < |F0| ==> F0[k].State() == if k < i then before[k] else after[k]
        invariant particles == P0 + sparks && Distinct(particles)
        invariant forall k :: 0 <= k < |sparks| ==> fresh(sparks[k])
        invariant done == Origins(BurstsFrom(before, host, i)) && SpawnedAt(sparks, done)
        invariant hue == old(hue) && timerTick == old(timerTick) && limiterTick == old(limiterTick)
        invariant ParticleStates(P0) == old(ParticleStates(P0))
      {
        i, sparks, done := WalkFireworkAndSparks(i, F0, before, after, flags, P0, sparks, done);
      }
    }

    /** The firework half of `loop`: walk `fireworks` from the last index
        down, updating each; `sparks` are the particles the explosions
        append. */
    method FireworkPass() returns (ghost before: seq<F.FireworkState>, ghost sparks: seq<P.Particle>, ghost origins: seq<Point>)
      requires rng.Valid() && FireworksValid() && ParticlesValid()
      modifies this`fireworks, this`particles, fireworks, rng`drawn
      ensures FireworksValid() && ParticlesValid()
      ensures before == old(FireworkStates(fireworks))
      ensures fireworks == Keep(old(fireworks), ArrivalFlags(before, host))
      ensures FireworksStepped(before, FireworkStates(old(fireworks)), host)
      ensures particles == old(particles) + sparks && ParticleStates(old(particles)) == old(ParticleStates(particles))
      ensures hue == old(hue) && timerTick == old(timerTick) && limiterTick == old(limiterTick)
      ensures forall k :: 0 <= k < |sparks| ==> fresh(sparks[k])
      ensures origins == Origins(Explosions(before, host)) && |origins| == ParticleCount * Count(ArrivalFlags(before, host))
      ensures SpawnedAt(sparks, origins)
    {
      ghost var F0 := fireworks;
      ghost var P0 := particles;
      ghost var S0 := ParticleStates(particles);
      assert forall k :: 0 <= k < |S0| ==> P.Inv(S0[k]) by {
        forall k | 0 <= k < |S0| ensures P.Inv(S0[k]) { assert particles[k].Valid(); }
      }
      before := FireworkStates(fireworks);
      ghost var after := seq(|before|, k requires 0 <= k < |before| => F.Step(before[k], host));
      ghost var flags := ArrivalFlags(before, host);
      sparks, origins := WalkFireworks(F0, before, after, flags, P0);
      FireworksUpdated(F0, before, after, flags, host);
      ExplosionCount(before, host);
      GrownParticlesValid(P0, S0, sparks, origins);
    }

    /** One step of the particle half of `loop`: with the walk down to
        `j`, update particle `j - 1` and splice it out if it faded. */
    method WalkParticle(j: nat, ghost P0: seq<P.Particle>, ghost before: seq<P.ParticleState>,
                        ghost after: seq<P.ParticleState>, ghost flags: seq<bool>, ghost F0: seq<F.Firework>)
      requires 0 < j <= |P0| == |before| == |after| == |flags|
      requires P.Inv(before[j - 1]) && flags[j - 1] == P.Expires(before[j - 1])
      requires after[j - 1] == P.Step(before[j - 1], host)
      requires particles == Walked(P0, flags, j)
      requires P0[j - 1].State() == before[j - 1]
      modifies this`particles, P0[j - 1]
      ensures particles == Walked(P0, flags, j - 1)
      ensures P0[j - 1].State() == after[j - 1]
      ensures fireworks == old(fireworks) && hue == old(hue) && timerTick == old(timerTick) && limiterTick == old(limiterTick)
      ensures FireworkStates(F0) == old(FireworkStates(F0)) && FireworkStates(fireworks) == old(FireworkStates(fireworks))
    {
      SpliceStep(P0, flags, j);
      var i := j - 1;
      assert particles[i] == P0[i];
      var expired := UpdateParticle(i, F0);
    }

    /** `WalkParticle` on an array of distinct particles: only the updated
        one changes state. */
    method WalkParticleInPlace(j: nat, ghost P0: seq<P.Particle>, ghost before: seq<P.ParticleState>,
                               ghost after: seq<P.ParticleState>, ghost flags: seq<bool>, ghost F0: seq<F.Firework>)
      returns (next: nat)
      requires 0 < j <= |P0| == |before| == |after| == |flags| && Distinct(P0)
      requires P.Inv(before[j - 1]) && flags[j - 1] == P.Expires(before[j - 1])
      requires after[j - 1] == P.Step(before[j - 1], host)
      requires particles == Walked(P0, flags, j)
      requires forall k :: 0 <= k < |P0| ==> P0[k].State() == if k < j then before[k] else after[k]
      modifies this`particles, P0[j - 1]
      ensures next == j - 1
      ensures particles == Walked(P0, flags, next)
      ensures forall k :: 0 <= k < |P0| ==> P0[k].State() == if k < next then before[k] else after[k]
      ensures fireworks == old(fireworks) && hue == old(hue) && timerTick == old(timerTick) && limiterTick == old(limiterTick)
      ensures FireworkStates(F0) == old(FireworkStates(F0)) && FireworkStates(fireworks) == old(FireworkStates(fireworks))
    {
      assert P0[j - 1].State() == before[j - 1];
      WalkParticle(j, P0, before, after, flags, F0);
      next := j - 1;
      forall k | 0 <= k < |P0| && k != next
        ensures P0[k].State() == if k < next then before[k] else after[k]
      {
        DistinctAt(P0, k, next);
      }
    }

    /** The loop of the particle half of `loop`: from the last index down,
        update each particle of `P0` (with states `before`), splicing out
        those that fade. */
    method WalkParticles(ghost P0: seq<P.Particle>, ghost before: seq<P.ParticleState>,
                         ghost after: seq<P.ParticleState>, ghost flags: seq<bool>, ghost F0: seq<F.Firework>)
      requires |P0| == |before| == |after| == |flags| && Distinct(P0)
      requires forall k :: 0 <= k < |P0| ==> P.Inv(before[k])
      requires forall k :: 0 <= k < |P0| ==> flags[k] == P.Expires(before[k])
      requires forall k :: 0 <= k < |P0| ==> after[k] == P.Step(before[k], host)
      requires particles == P0
      requires forall k :: 0 <= k < |P0| ==> P0[k].State() == before[k]
      modifies this`particles, P0
      ensures particles == Keep(P0, flags)
      ensures forall k :: 0 <= k < |P0| ==> P0[k].State() == after[k]
      ensures fireworks == old(fireworks) && hue == old(hue) && timerTick == old(timerTick) && limiterTick == old(limiterTick)
      ensures FireworkStates(F0) == old(FireworkStates(F0)) && FireworkStates(fireworks) == old(FireworkStates(fireworks))
    {
      WalkedEnds(P0, flags);
      var j := |particles|;
      while j > 0
        invariant 0 <= j <= |P0|
        invariant particles == Walked(P0, flags, j)
        invariant forall k :: 0 <= k < |P0| ==> P0[k].State() == if k < j then before[k] else after[k]
        invariant fireworks == old(fireworks) && hue == old(hue) && timerTick == old(timerTick) && limiterTick == old(limiterTick)
        invariant FireworkStates(F0) == old(FireworkStates(F0)) && FireworkStates(fireworks) == old(FireworkStates(fireworks))
      {
        j := WalkParticleInPlace(j, P0, before, after, flags, F0);
      }
    }

    /** The particle half of `loop`: walk `particles` from the last index
        down, updating each and splicing out those that fade. */
    method ParticlePass(ghost F0: seq<F.Firework>) returns (ghost before: seq<P.ParticleState>)
      requires FireworksValid() && ParticlesValid()
      modifies this`particles, particles
      ensures FireworksValid() && ParticlesValid() && fireworks == old(fireworks) && FireworkStates(F0) == old(FireworkStates(F0))
      ensures hue == old(hue) && timerTick == old(timerTick) && limiterTick == old(limiterTick)
      ensures before == old(ParticleStates(particles))
      ensures particles == Keep(old(particles), ExpiryFlags(before))
      ensures ParticlesStepped(before, ParticleStates(old(particles)), host)
    {
      ghost var P0 := particles;
      before := ParticleStates(particles);
      ghost var after := seq(|before|, k requires 0 <= k < |before| => P.Step(before[k], host));
      ghost var flags := ExpiryFlags(before);
      WalkParticles(P0, before, after, flags, F0);
      SurvivingParticlesValid(P0, before, flags, host);
      ParticlesUpdated(P0, before, after, host);
    }

    /** `fireworks.push(new Firework(sx, sy, tx, ty))`; `f` is the new
        firework. */
    method LaunchFirework(sx: real, sy: real, tx: real, ty: real, ghost G: seq<F.Firework>, ghost Q: seq<P.Particle>)
      returns (ghost f: F.Firework)
      requires Valid()
      modifies this`fireworks, rng`drawn
      ensures Valid() && fresh(f)
      ensures hue == old(hue) && particles == old(particles) && timerTick == old(timerTick) && limiterTick == old(limiterTick)
      ensures FireworkStates(G) == old(FireworkStates(G)) && ParticleStates(Q) == old(ParticleStates(Q))
      ensures fireworks == old(fireworks) + [f]
      ensures rng.drawn == old(rng.drawn) + 1
      ensures f.State() == F.Launch(sx, sy, tx, ty, Scale(rng.sample(old(rng.drawn)), 50.0, 70.0), host)
    {
      var g := new F.Firework(sx, sy, tx, ty, rng, host);
      Launched(fireworks, g);
      fireworks := fireworks + [g];
      f := g;
    }

    /** `random(0, width)` and then `random(0, height / 2)`: the target of
        an autonomous launch. */
    method RandomTarget(width: real, height: real, ghost G: seq<F.Firework>, ghost Q: seq<P.Particle>)
      returns (tx: real, ty: real)
      requires Valid()
      modifies rng`drawn
      ensures Valid() && rng.drawn == old(rng.drawn) + 2
      ensures tx == Scale(rng.sample(old(rng.drawn)), 0.0, width)
      ensures ty == Scale(rng.sample(old(rng.drawn) + 1), 0.0, height / 2.0)
      ensures FireworkStates(G) == old(FireworkStates(G)) && ParticleStates(Q) == old(ParticleStates(Q))
    {
      tx := rng.Random(0.0, width);
      ty := rng.Random(0.0, height / 2.0);
    }

    /** `timerTick = 0`. */
    method ResetTimer(ghost G: seq<F.Firework>, ghost Q: seq<P.Particle>)
      requires Valid()
      modifies this`timerTick
      ensures Valid() && timerTick == 0
      ensures hue == old(hue) && particles == old(particles) && limiterTick == old(limiterTick) && fireworks == old(fireworks)
      ensures FireworkStates(G) == old(FireworkStates(G)) && ParticleStates(Q) == old(ParticleStates(Q))
    {
      timerTick := 0;
    }

    /** The firing branch of the autonomous launch: a firework from the
        bottom centre to a random point of the upper half, and the timer
        back to 0. */
    method AutoFire(width: real, height: real, ghost G: seq<F.Firework>, ghost Q: seq<P.Particle>)
      returns (ghost f: F.Firework)
      requires Valid()
      modifies this`fireworks, this`timerTick, rng`drawn
      ensures Valid() && hue == old(hue) && particles == old(particles) && limiterTick == old(limiterTick)
      ensures FireworkStates(G) == old(FireworkStates(G)) && ParticleStates(Q) == old(ParticleStates(Q))
      ensures timerTick == 0 && fireworks == old(fireworks) + [f] && fresh(f)
      ensures rng.drawn == old(rng.drawn) + 3
      ensures f.State() == F.Launch(width / 2.0, height,
                Scale(rng.sample(old(rng.drawn)), 0.0, width),
                Scale(rng.sample(old(rng.drawn) + 1), 0.0, height / 2.0),
                Scale(rng.sample(old(rng.drawn) + 2), 50.0, 70.0), host)
    {
      var tx, ty := RandomTarget(width, height, G, Q);
      f := LaunchFirework(width / 2.0, height, tx, ty, G, Q);
      ResetTimer(G, Q);
    }

    /** The autonomous launch of `loop`: once `timerTick` has reached 25 and
        the pointer is up, a firework from the bottom centre to a random
        point of the upper half; `launched` is the new firework, if any. */
    method AutoLaunch(width: real, height: real, mousedown: bool, ghost G: seq<F.Firework>, ghost Q: seq<P.Particle>)
      returns (ghost launched: seq<F.Firework>)
      requires Valid()
      modifies this`fireworks, this`timerTick, rng`drawn
      ensures Valid() && hue == old(hue) && particles == old(particles) && limiterTick == old(limiterTick)
      ensures FireworkStates(G) == old(FireworkStates(G)) && ParticleStates(Q) == old(ParticleStates(Q))
      ensures timerTick == TimerStep(old(timerTick), TimerTotal, !mousedown).next
      ensures |launched| == if TimerStep(old(timerTick), TimerTotal, !mousedown).fired then 1 else 0
      ensures fireworks == old(fireworks) + launched
      ensures rng.drawn == old(rng.drawn) + 3 * |launched|
      ensures forall k :: 0 <= k < |launched| ==> fresh(launched[k])
      ensures forall k :: 0 <= k < |launched| ==>
                launched[k].State() == F.Launch(width / 2.0, height,
                  Scale(rng.sample(old(rng.drawn)), 0.0, width),
                  Scale(rng.sample(old(rng.drawn) + 1), 0.0, height / 2.0),
                  Scale(rng.sample(old(rng.drawn) + 2), 50.0, 70.0), host)
    {
      launched := [];
      if timerTick >= TimerTotal {
        if !mousedown {
          ghost var f := AutoFire(width, height, G, Q);
          launched := [f];
        }
      } else {
        timerTick := timerTick + 1;
      }
    }

    /** `limiterTick = 0`. */
    method ResetLimiter(ghost G: seq<F.Firework>, ghost Q: seq<P.Particle>)
      requires Valid()
      modifies this`limiterTick
      ensures Valid() && limiterTick == 0
      ensures hue == old(hue) && particles == old(particles) && timerTick == old(timerTick) && fireworks == old(fireworks)
      ensures FireworkStates(G) == old(FireworkStates(G)) && ParticleStates(Q) == old(ParticleStates(Q))
    {
      limiterTick := 0;
    }

    /** The firing branch of the launch at the pointer: a firework from the
        bottom centre to `(mx, my)`, and the limiter back to 0. */
    method PointerFire(width: real, height: real, mx: real, my: real, ghost G: seq<F.Firework>, ghost Q: seq<P.Particle>)
      returns (ghost f: F.Firework)
      requires Valid()
      modifies this`fireworks, this`limiterTick, rng`drawn
      ensures Valid() && hue == old(hue) && particles == old(particles) && timerTick == old(timerTick)
      ensures FireworkStates(G) == old(FireworkStates(G)) && ParticleStates(Q) == old(ParticleStates(Q))
      ensures limiterTick == 0 && fireworks == old(fireworks) + [f] && fresh(f)
      ensures rng.drawn == old(rng.drawn) + 1
      ensures f.State() == F.Launch(width / 2.0, height, mx, my, Scale(rng.sample(old(rng.drawn)), 50.0, 70.0), host)
    {
      f := LaunchFirework(width / 2.0, height, mx, my, G, Q);
      ResetLimiter(G, Q);
    }

    /** The launch at the pointer: once `limiterTick` has reached 5 and the
        pointer is held, a firework from the bottom centre to the pointer
        `(mx, my)`; `launched` is the new firework, if any. */
    method PointerLaunch(width: real, height: real, mx: real, my: real, mousedown: bool,
                         ghost G: seq<F.Firework>, ghost Q: seq<P.Particle>) returns (ghost launched: seq<F.Firework>)
      requires Valid()
      modifies this`fireworks, this`limiterTick, rng`drawn
      ensures Valid() && hue == old(hue) && particles == old(particles) && timerTick == old(timerTick)
      ensures FireworkStates(G) == old(FireworkStates(G)) && ParticleStates(Q) == old(ParticleStates(Q))
      ensures limiterTick == TimerStep(old(limiterTick), LimiterTotal, mousedown).next
      ensures |launched| == if TimerStep(old(limiterTick), LimiterTotal, mousedown).fired then 1 else 0
      ensures fireworks == old(fireworks) + launched
      ensures rng.drawn == old(rng.drawn) + |launched|
      ensures forall k :: 0 <= k < |launched| ==> fresh(launched[k])
      ensures forall k :: 0 <= k < |launched| ==>
                launched[k].State() == F.Launch(width / 2.0, height, mx, my, Scale(rng.sample(old(rng.drawn)), 50.0, 70.0), host)
    {
      launched := [];
      if limiterTick >= LimiterTotal {
        if mousedown {
          ghost var f := PointerFire(width, height, mx, my, G, Q);
          launched := [f];
        }
      } else {
        limiterTick := limiterTick + 1;
      }
    }

    /** The particle half of `loop` right after the firework half: the
        array is the old particles `P0` followed by the `sparks` just
        created; `fading` are the states the pass starts from. The
        fireworks, `F0` among them, are left as they are. */
    method ParticlePassAfterBursts(ghost F0: seq<F.Firework>, ghost P0: seq<P.Particle>, ghost sparks: seq<P.Particle>,
                                   ghost origins: seq<Point>)
      returns (ghost fading: seq<P.ParticleState>)
      requires FireworksValid() && ParticlesValid() && particles == P0 + sparks && SpawnedAt(sparks, origins)
      modifies this`particles, particles
      ensures FireworksValid() && ParticlesValid() && fireworks == old(fireworks) && FireworkStates(F0) == old(FireworkStates(F0))
      ensures hue == old(hue) && timerTick == old(timerTick) && limiterTick == old(limiterTick)
      ensures |fading| == |P0| + |sparks| && fading[..|P0|] == old(ParticleStates(P0))
      ensures SparkStates(fading[|P0|..], origins)
      ensures particles == Keep(P0 + sparks, ExpiryFlags(fading))
      ensures ParticlesStepped(fading, ParticleStates(P0 + sparks), host)
    {
      ghost var S0, S1 := ParticleStates(P0), ParticleStates(sparks);
      ParticleStatesAppend(P0, sparks);
      fading := ParticlePass(F0);
      assert fading == S0 + S1;
      assert fading[..|P0|] == S0;
      forall k | 0 <= k < |sparks| ensures P.Spawned(fading[|P0|..][k], origins[k]) {
        assert fading[|P0|..][k] == S1[k];
      }
    }

    /** The two update passes of `loop`: the firework half, whose explosions
        append `sparks`, then the particle half over the old particles and
        the sparks. */
    method UpdateAll() returns (ghost exploding: seq<F.FireworkState>, ghost origins: seq<Point>,
                                ghost sparks: seq<P.Particle>, ghost fading: seq<P.ParticleState>)
      requires rng.Valid() && FireworksValid() && ParticlesValid()
      modifies this`fireworks, this`particles, fireworks, particles, rng`drawn
      ensures rng.Valid() && FireworksValid() && ParticlesValid()
      ensures hue == old(hue) && timerTick == old(timerTick) && limiterTick == old(limiterTick)
      ensures exploding == old(FireworkStates(fireworks))
      ensures FireworksStepped(exploding, FireworkStates(old(fireworks)), host)
      ensures fireworks == Keep(old(fireworks), ArrivalFlags(exploding, host))
      ensures origins == Origins(Explosions(exploding, host))
      ensures |sparks| == |origins| == ParticleCount * Count(ArrivalFlags(exploding, host))
      ensures |fading| == |old(particles)| + |sparks| && fading[..|old(particles)|] == old(ParticleStates(particles))
      ensures SparkStates(fading[|old(particles)|..], origins)
      ensures ParticlesStepped(fading, ParticleStates(old(particles) + sparks), host)
      ensures particles == Keep(old(particles) + sparks, ExpiryFlags(fading))
    {
      ghost var F0 := fireworks;
      ghost var P0 := particles;
      ghost var S0 := ParticleStates(P0);
      exploding, sparks, origins := FireworkPass();
      ghost var F1 := fireworks;
      assert ParticleStates(P0) == S0;
      fading := ParticlePassAfterBursts(F0, P0, sparks, origins);
      assert fireworks == F1;
    }

    /** `hue += 0.5` at the top of `loop`; nothing else changes. */
    method AdvanceHue()
      modifies this`hue
      ensures hue == old(hue) + HueStep
      ensures fireworks == old(fireworks) && particles == old(particles)
      ensures timerTick == old(timerTick) && limiterTick == old(limiterTick)
      ensures FireworkStates(fireworks) == old(FireworkStates(fireworks))
      ensures ParticleStates(particles) == old(ParticleStates(particles))
    {
      hue := hue + HueStep;
    }

    /** The end of `loop`: both counters move on, and at most one of them
        launches a firework (the timer only with the pointer up, the
        limiter only with it held); `launched` is the new firework, if any.
        The fireworks `G` and the particles `Q` are left as they are. */
    method Spawn(width: real, height: real, mx: real, my: real, mousedown: bool,
                 ghost G: seq<F.Firework>, ghost Q: seq<P.Particle>, ghost d: nat) returns (ghost launched: seq<F.Firework>)
      requires Valid()
      requires rng.drawn == d
      modifies this`fireworks, this`timerTick, this`limiterTick, rng`drawn
      ensures Valid()
      ensures hue == old(hue) && particles == old(particles)
      ensures FireworkStates(G) == old(FireworkStates(G)) && ParticleStates(Q) == old(ParticleStates(Q))
      ensures timerTick == TimerStep(old(timerTick), TimerTotal, !mousedown).next
      ensures limiterTick == TimerStep(old(limiterTick), LimiterTotal, mousedown).next
      ensures |launched| == if (if mousedown then TimerStep(old(limiterTick), LimiterTotal, true)
                                else TimerStep(old(timerTick), TimerTotal, true)).fired then 1 else 0
      ensures fireworks == old(fireworks) + launched
      ensures rng.drawn == d + (if mousedown then 1 else 3) * |launched|
      ensures forall k :: 0 <= k < |launched| ==> fresh(launched[k])
      ensures forall k :: 0 <= k < |launched| ==>
                launched[k].State() == if mousedown
                  then F.Launch(width / 2.0, height, mx, my, Scale(rng.sample(d), 50.0, 70.0), host)
                  else F.Launch(width / 2.0, height,
                    Scale(rng.sample(d), 0.0, width),
                    Scale(rng.sample(d + 1), 0.0, height / 2.0),
                    Scale(rng.sample(d + 2), 50.0, 70.0), host)
    {
      ghost var auto := AutoLaunch(width, height, mousedown, G, Q);
      ghost var pointer := PointerLaunch(width, height, mx, my, mousedown, G, Q);
      launched := auto + pointer;
    }

    /** One call of `loop`, without the drawing: the hue moves on, every
        firework is updated (last index first) and those that arrive explode
        and are removed, every particle, the new ones included, is updated
        and those that fade are removed, and then each counter either counts
        up or launches a firework. */
    method Frame(width: real, height: real, mx: real, my: real, mousedown: bool)
      returns (ghost exploding: seq<F.FireworkState>, ghost sparks: seq<P.Particle>,
               ghost origins: seq<Point>, ghost fading: seq<P.ParticleState>, ghost launchDraw: nat,
               ghost launched: seq<F.Firework>)
      requires Valid()
      modifies this, fireworks, particles, rng`drawn
      ensures Valid()
      ensures hue == old(hue) + HueStep
      ensures exploding == old(FireworkStates(fireworks))
      ensures FireworksStepped(exploding, FireworkStates(old(fireworks)), host)
      ensures origins == Origins(Explosions(exploding, host))
      ensures |sparks| == |origins| == ParticleCount * Count(ArrivalFlags(exploding, host))
      ensures |fading| == |old(particles)| + |sparks| && fading[..|old(particles)|] == old(ParticleStates(particles))
      ensures SparkStates(fading[|old(particles)|..], origins)
      ensures ParticlesStepped(fading, ParticleStates(old(particles) + sparks), host)
      ensures particles == Keep(old(particles) + sparks, ExpiryFlags(fading))
      ensures fireworks == Keep(old(fireworks), ArrivalFlags(exploding, host)) + launched
      ensures timerTick == TimerStep(old(timerTick), TimerTotal, !mousedown).next
      ensures limiterTick == TimerStep(old(limiterTick), LimiterTotal, mousedown).next
      ensures |launched| == if (if mousedown then TimerStep(old(limiterTick), LimiterTotal, true)
                                else TimerStep(old(timerTick), TimerTotal, true)).fired then 1 else 0
      ensures rng.drawn == launchDraw + (if mousedown then 1 else 3) * |launched|
      ensures forall k :: 0 <= k < |launched| ==> fresh(launched[k])
      ensures forall k :: 0 <= k < |launched| ==>
                launched[k].State() == if mousedown
                  then F.Launch(width / 2.0, height, mx, my, Scale(rng.sample(launchDraw), 50.0, 70.0), host)
                  else F.Launch(width / 2.0, height,
                    Scale(rng.sample(launchDraw), 0.0, width),
                    Scale(rng.sample(launchDraw + 1), 0.0, height / 2.0),
                    Scale(rng.sample(launchDraw + 2), 50.0, 70.0), host)
    {
      AdvanceHue();
      exploding, origins, sparks, fading := UpdateAll();
      launchDraw := rng.drawn;
      launched := Spawn(width, height, mx, my, mousedown, old(fireworks), old(particles) + sparks, launchDraw);
    }
  }
}
