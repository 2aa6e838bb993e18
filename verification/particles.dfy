/**
 The particle view's worker step: an emitter eased between random waypoints
 on a 4000 ms cycle, a batch of 100 particles emitted at the emitter into a
 bounded first-in-first-out store, and every particle advanced, pushed away
 from the emitter when very close to it, and slowed down. Also the grey
 level each particle is drawn with.
 */
module Particles {

  import opened Numerics
  import opened Easing

  /** Milliseconds between emitter waypoints. */
  const EmitterPeriod: nat := 4000

  /** The store evicts its oldest particle only when it holds more than this many. */
  const EvictAbove: nat := 10000

  /** The largest size the store reaches: one more than the eviction threshold. */
  const Capacity: nat := EvictAbove + 1

  /** Particles emitted per worker step. */
  const BatchSize: nat := 100

  /** Speed of a freshly emitted particle, and the cap relaxation enforces. */
  const EmitSpeed: real := 0.8
  const MaxSpeed: real := 0.8

  /** Distance from the emitter inside which a particle is relaxed. */
  const RelaxRadius: real := 0.2

  /** Number of oldest particles drawn with a grey ramp instead of full white. */
  const FadeCount: nat := 1000

  datatype Particle = Particle(position: Vec2, direction: Vec2, speed: real)

  /** The emitter waypoints and the start of the current cycle (`mRenderTime`). */
  datatype Emitter = Emitter(posSource: Vec2, posTarget: Vec2, dirSource: real, dirTarget: real, start: int)

  /** Where the emitter is and where it points, in degrees, at one instant. */
  datatype Pose = Pose(position: Vec2, heading: real)

  /** The three `Math.random()` values a waypoint refresh draws, as drawn. */
  datatype Waypoint = Waypoint(x: real, y: real, heading: real)

  /** The two `Math.random()` values each emitted particle draws: angle spread and length. */
  datatype Spread = Spread(angle: real, length: real)

  predicate ValidWaypoint(w: Waypoint)
  {
    UnitDraw(w.x) && UnitDraw(w.y) && UnitDraw(w.heading)
  }

  /** The target a refresh draws lies in [-1, 1) x [-1, 1), with heading in [0, 720). */
  predicate TargetInRange(e: Emitter)
  {
    -1.0 <= e.posTarget.x < 1.0 && -1.0 <= e.posTarget.y < 1.0 && 0.0 <= e.dirTarget < 720.0
  }

  /**
   The refresh check at the top of the worker step: once more than a period
   has elapsed, the old target becomes the source, a new target is drawn and
   the cycle restarts at `time`.
   */
  function Refresh(e: Emitter, time: int, w: Waypoint): (e': Emitter)
    ensures e'.start == Restart(time, e.start, EmitterPeriod)
    ensures time >= e.start ==> 0 <= time - e'.start <= EmitterPeriod
    ensures time - e.start <= EmitterPeriod ==> e' == e
    ensures time - e.start > EmitterPeriod ==>
              e'.posSource == e.posTarget && e'.dirSource == e.dirTarget
              && (ValidWaypoint(w) ==> TargetInRange(e'))
  {
    if time - e.start > EmitterPeriod then
      Emitter(e.posTarget, Vec2(w.x * 2.0 - 1.0, w.y * 2.0 - 1.0), e.dirTarget, w.heading * 720.0, time)
    else
      e
  }

  /** The eased fraction of the cycle at `time`. */
  function Eased(e: Emitter, time: int): real
  {
    Smoothstep(Fraction(time, e.start, EmitterPeriod))
  }

  /** The emitter's pose at `time`: position and heading interpolated from source to target by the eased fraction. */
  function PoseAt(e: Emitter, time: int): (p: Pose)
    ensures time == e.start ==> p == Pose(e.posSource, e.dirSource)
    ensures time == e.start + EmitterPeriod ==> p == Pose(e.posTarget, e.dirTarget)
    ensures e.start <= time <= e.start + EmitterPeriod ==>
              && Between(p.position.x, e.posSource.x, e.posTarget.x)
              && Between(p.position.y, e.posSource.y, e.posTarget.y)
              && Between(p.heading, e.dirSource, e.dirTarget)
  {
    var t := Eased(e, time);
    EasedEnds(e.posSource.x, e.posTarget.x, e.start, EmitterPeriod);
    EasedEnds(e.posSource.y, e.posTarget.y, e.start, EmitterPeriod);
    EasedEnds(e.dirSource, e.dirTarget, e.start, EmitterPeriod);
    var p := Pose(Vec2(Lerp(e.posSource.x, e.posTarget.x, t), Lerp(e.posSource.y, e.posTarget.y, t)), Lerp(e.dirSource, e.dirTarget, t));
    assert e.start <= time <= e.start + EmitterPeriod ==>
             && Between(p.position.x, e.posSource.x, e.posTarget.x)
             && Between(p.position.y, e.posSource.y, e.posTarget.y)
             && Between(p.heading, e.dirSource, e.dirTarget) by {
      if e.start <= time <= e.start + EmitterPeriod {
        EasedBetween(e.posSource.x, e.posTarget.x, time, e.start, EmitterPeriod);
        EasedBetween(e.posSource.y, e.posTarget.y, time, e.start, EmitterPeriod);
        EasedBetween(e.dirSource, e.dirTarget, time, e.start, EmitterPeriod);
      }
    }
    p
  }

  /** The emission angle in radians: the heading plus a spread in [-20, 20) degrees. */
  function SpreadRadians(heading: real, s: Spread): (a: real)
    ensures UnitDraw(s.angle) ==> Pi * 2.0 * (heading - 20.0) / 360.0 <= a < Pi * 2.0 * (heading + 20.0) / 360.0
  {
    var degrees := heading + s.angle * 40.0 - 20.0;
    assert UnitDraw(s.angle) ==> heading - 20.0 <= degrees < heading + 20.0;
    Pi * 2.0 * degrees / 360.0
  }

  /** The length factor of the emission direction, in [0.2, 1). */
  function SpreadLength(s: Spread): (l: real)
    ensures UnitDraw(s.length) ==> 0.2 <= l < 1.0
  {
    s.length * 0.8 + 0.2
  }

  /** A particle emitted at the emitter's pose. */
  function Spawn(pose: Pose, s: Spread, m: Math): Particle
  {
    var a := SpreadRadians(pose.heading, s);
    var l := SpreadLength(s);
    Particle(pose.position, Vec2(m.sin(a) * l, m.cos(a) * l), EmitSpeed)
  }

  /** The particles one batch of spreads produces, in emission order. */
  function Spawned(pose: Pose, spreads: seq<Spread>, m: Math): (ps: seq<Particle>)
    ensures |ps| == |spreads|
    ensures forall i :: 0 <= i < |ps| ==> ps[i].position == pose.position && ps[i].speed == EmitSpeed
  {
    seq(|spreads|, i requires 0 <= i < |spreads| => Spawn(pose, spreads[i], m))
  }

  function Min(a: int, b: int): int
  {
    if a <= b then a else b
  }

  /**
   Adding one particle to the store: when it holds more than `EvictAbove`
   particles the oldest, at index 0, is removed first; the new one goes last.
   */
  function Insert(store: seq<Particle>, p: Particle): (r: seq<Particle>)
    ensures |r| > 0 && r[|r| - 1] == p
    ensures |store| > EvictAbove ==> r[..|r| - 1] == store[1..]
    ensures |store| <= EvictAbove ==> r[..|r| - 1] == store
    ensures |store| <= Capacity ==> |r| <= Capacity
  {
    if |store| > EvictAbove then store[1..] + [p] else store + [p]
  }

  /**
   Adding particles one by one: the store ends up holding the newest
   `Capacity` particles of the old store followed by the new ones, in
   insertion order, or all of them if there are fewer.
   */
  function InsertAll(store: seq<Particle>, ps: seq<Particle>): (r: seq<Particle>)
    ensures |store| <= Capacity ==> |r| == Min(|store| + |ps|, Capacity)
    ensures |store| <= Capacity ==> r == (store + ps)[|store| + |ps| - |r|..]
    decreases |ps|
  {
    if ps == [] then
      assert store + ps == store;
      store
    else
      var s1 := Insert(store, ps[0]);
      var r := InsertAll(s1, ps[1..]);
      if |store| <= EvictAbove then
        KeepStep(store, ps);
        r
      else if |store| <= Capacity then
        EvictStep(store, ps, |s1| + |ps[1..]| - |r|);
        r
      else
        r
  }

  /** Inserting the first particle without eviction leaves the same sequence to come. */
  lemma KeepStep(store: seq<Particle>, ps: seq<Particle>)
    requires |store| <= EvictAbove && ps != []
    ensures Insert(store, ps[0]) + ps[1..] == store + ps
  {
    assert store + [ps[0]] + ps[1..] == store + ([ps[0]] + ps[1..]);
    assert [ps[0]] + ps[1..] == ps;
  }

  /** Inserting the first particle with eviction leaves the same sequence less its oldest element. */
  lemma EvictStep(store: seq<Particle>, ps: seq<Particle>, k: nat)
    requires EvictAbove < |store| && ps != [] && k <= |store| + |ps| - 1
    ensures (Insert(store, ps[0]) + ps[1..])[k..] == (store + ps)[k + 1..]
  {
    var all := store + ps;
    assert Insert(store, ps[0]) == store[1..] + [ps[0]];
    assert store[1..] + [ps[0]] + ps[1..] == all[1..];
    DropTwice(all, 1, k);
  }

  /** Dropping a prefix of a suffix drops the combined prefix. */
  lemma DropTwice<T>(a: seq<T>, i: nat, j: nat)
    requires i + j <= |a|
    ensures a[i..][j..] == a[i + j..]
  {
  }

  /** The emission loop: a batch of particles spawned at the pose, inserted in order. */
  function Emit(store: seq<Particle>, pose: Pose, spreads: seq<Spread>, m: Math): (r: seq<Particle>)
    requires |store| <= Capacity && |spreads| <= Capacity
    ensures |r| == Min(|store| + |spreads|, Capacity)
    ensures r == (store + Spawned(pose, spreads, m))[|store| + |spreads| - |r|..]
    ensures r[|r| - |spreads|..] == Spawned(pose, spreads, m)
    ensures forall i :: |r| - |spreads| <= i < |r| ==> r[i].position == pose.position && r[i].speed == EmitSpeed
  {
    var ps := Spawned(pose, spreads, m);
    var r := InsertAll(store, ps);
    assert (store + ps)[|store| + |ps| - |r|..][|r| - |ps|..] == ps;
    r
  }

  /** Distance from the emitter to the particle, as the step computes it. */
  function Distance(p: Particle, emitter: Vec2, m: Math): real
  {
    Length(p.position.x - emitter.x, p.position.y - emitter.y, m)
  }

  /**
   Relaxation: a particle strictly within `RelaxRadius` of the emitter (and
   not on it) has its direction blended with the unit vector from the
   emitter to the particle, and gains speed `RelaxRadius - distance`, capped
   at `MaxSpeed`. Any other particle is untouched.
   */
  function Relax(p: Particle, emitter: Vec2, m: Math): (q: Particle)
    ensures !(0.0 < Distance(p, emitter, m) < RelaxRadius) ==> q == p
    ensures 0.0 < Distance(p, emitter, m) < RelaxRadius ==>
              && q.position == p.position
              && q.speed <= MaxSpeed
              && (p.speed + (RelaxRadius - Distance(p, emitter, m)) <= MaxSpeed ==>
                    q.speed == p.speed + (RelaxRadius - Distance(p, emitter, m)))
              && (p.speed + (RelaxRadius - Distance(p, emitter, m)) > MaxSpeed ==> q.speed == MaxSpeed)
              && (p.speed < MaxSpeed ==> q.speed > p.speed)
              && (p.speed >= MaxSpeed ==> q.speed == MaxSpeed)
  {
    var len := Distance(p, emitter, m);
    if 0.0 < len < RelaxRadius then
      var dx := p.position.x - emitter.x;
      var dy := p.position.y - emitter.y;
      var dir := Vec2(p.speed * p.direction.x + (1.0 - p.speed) * dx / len,
                      p.speed * p.direction.y + (1.0 - p.speed) * dy / len);
      var speed := p.speed + (RelaxRadius - len);
      Particle(p.position, dir, if speed > MaxSpeed then MaxSpeed else speed)
    else
      p
  }

  /**
   A particle at rest close to the emitter is turned fully onto the vector
   from the emitter to the particle, divided by the distance: relaxation
   pushes away from the emitter.
   */
  lemma RelaxedFromRestPointsAway(p: Particle, emitter: Vec2, m: Math)
    requires p.speed == 0.0
    requires 0.0 < Distance(p, emitter, m) < RelaxRadius
    ensures Relax(p, emitter, m).direction.x * Distance(p, emitter, m) == p.position.x - emitter.x
    ensures Relax(p, emitter, m).direction.y * Distance(p, emitter, m) == p.position.y - emitter.y
  {
    var len := Distance(p, emitter, m);
    var dx, dy := p.position.x - emitter.x, p.position.y - emitter.y;
    var d := Relax(p, emitter, m).direction;
    assert d.x == dx / len && d.y == dy / len;
  }

  /** Speed within [0, MaxSpeed]. */
  predicate SpeedInRange(p: Particle)
  {
    0.0 <= p.speed <= MaxSpeed
  }

  /**
   Advancing by `dt` seconds: the position moves along direction times speed
   times `dt`, and the speed decays by the factor `1 - dt`. For `dt` in
   [0, 1] the speed never grows and never changes sign.
   */
  function Advance(p: Particle, dt: real): (q: Particle)
    ensures q.direction == p.direction
    ensures dt == 0.0 ==> q == p
    ensures 0.0 <= dt <= 1.0 && p.speed >= 0.0 ==> 0.0 <= q.speed <= p.speed
  {
    assert 0.0 <= dt <= 1.0 && p.speed >= 0.0 ==> 0.0 <= p.speed * (1.0 - dt) <= p.speed by {
      if 0.0 <= dt <= 1.0 && p.speed >= 0.0 {
        MulUnit(p.speed, 1.0 - dt);
      }
    }
    Particle(Vec2(p.position.x + p.direction.x * p.speed * dt, p.position.y + p.direction.y * p.speed * dt),
             p.direction, p.speed * (1.0 - dt))
  }

  /** One particle's step: relax, then advance. */
  function StepParticle(p: Particle, emitter: Vec2, dt: real, m: Math): (q: Particle)
    ensures SpeedInRange(p) && 0.0 <= dt <= 1.0 ==> SpeedInRange(q)
  {
    Advance(Relax(p, emitter, m), dt)
  }

  /** The update loop over the whole store, in order. */
  function StepAll(ps: seq<Particle>, emitter: Vec2, dt: real, m: Math): (qs: seq<Particle>)
    ensures |qs| == |ps|
    ensures 0.0 <= dt <= 1.0 && (forall i :: 0 <= i < |ps| ==> SpeedInRange(ps[i])) ==>
              forall i :: 0 <= i < |qs| ==> SpeedInRange(qs[i])
  {
    seq(|ps|, i requires 0 <= i < |ps| => StepParticle(ps[i], emitter, dt, m))
  }

  /** The worker's state: the emitter, the time of the previous step (`mRenderTimeLast`) and the store. */
  datatype Worker = Worker(emitter: Emitter, last: int, particles: seq<Particle>)

  /** What every step keeps: the store within capacity and every speed within range. */
  predicate Inv(w: Worker)
  {
    && |w.particles| <= Capacity
    && forall i :: 0 <= i < |w.particles| ==> SpeedInRange(w.particles[i])
  }

  /** The step's elapsed time in seconds. */
  function Elapsed(w: Worker, time: int): real
  {
    (time - w.last) as real / 1000.0
  }

  /**
   `Worker.run` at clock reading `time`: refresh the emitter, emit a batch at
   its pose, step every particle by the time since the previous run, and
   remember `time`.
   */
  function Run(w: Worker, time: int, wp: Waypoint, spreads: seq<Spread>, m: Math): (w': Worker)
    requires |w.particles| <= Capacity
    requires |spreads| == BatchSize
    ensures w'.last == time
    ensures w'.emitter == Refresh(w.emitter, time, wp)
    ensures |w'.particles| == Min(|w.particles| + BatchSize, Capacity)
    ensures Inv(w) && w.last <= time <= w.last + 1000 ==> Inv(w')
  {
    var e := Refresh(w.emitter, time, wp);
    var pose := PoseAt(e, time);
    var emitted := Emit(w.particles, pose, spreads, m);
    var dt := Elapsed(w, time);
    var stepped := StepAll(emitted, pose.position, dt, m);
    assert Inv(w) && w.last <= time <= w.last + 1000 ==> Inv(Worker(e, time, stepped)) by {
      if Inv(w) && w.last <= time <= w.last + 1000 {
        StepKeepsInv(w, e, pose, time, spreads, m);
      }
    }
    Worker(e, time, stepped)
  }

  /** Emitting at any pose and stepping by at most a second keeps the worker invariant. */
  lemma StepKeepsInv(w: Worker, e: Emitter, pose: Pose, time: int, spreads: seq<Spread>, m: Math)
    requires Inv(w) && w.last <= time <= w.last + 1000
    requires |spreads| == BatchSize
    ensures Inv(Worker(e, time, StepAll(Emit(w.particles, pose, spreads, m), pose.position, Elapsed(w, time), m)))
  {
    ElapsedInUnit(w, time);
    EmitKeepsSpeeds(w.particles, pose, spreads, m);
  }

  /** At most a second after the previous step, the elapsed time is in [0, 1] s. */
  lemma ElapsedInUnit(w: Worker, time: int)
    requires w.last <= time <= w.last + 1000
    ensures 0.0 <= Elapsed(w, time) <= 1.0
  {
  }

  /** Emission keeps every speed in range: survivors keep theirs and new particles start at 0.8. */
  lemma EmitKeepsSpeeds(store: seq<Particle>, pose: Pose, spreads: seq<Spread>, m: Math)
    requires |store| <= Capacity && |spreads| <= Capacity
    requires forall i :: 0 <= i < |store| ==> SpeedInRange(store[i])
    ensures forall i :: 0 <= i < |Emit(store, pose, spreads, m)| ==> SpeedInRange(Emit(store, pose, spreads, m)[i])
  {
    var ps := Spawned(pose, spreads, m);
    var emitted := Emit(store, pose, spreads, m);
    var k := |store| + |ps| - |emitted|;
    forall i | 0 <= i < |emitted|
      ensures SpeedInRange(emitted[i])
    {
      SuffixIndex(store, ps, k, i);
    }
  }

  /** Element i of a suffix of a concatenation, by the half it comes from. */
  lemma SuffixIndex<T>(a: seq<T>, b: seq<T>, k: nat, i: nat)
    requires k + i < |a| + |b|
    ensures (a + b)[k..][i] == if k + i < |a| then a[k + i] else b[k + i - |a|]
  {
  }

  /** The worker as the view constructs it: every field zero, the store empty. */
  const Initial: Worker := Worker(Emitter(Vec2(0.0, 0.0), Vec2(0.0, 0.0), 0.0, 0.0, 0), 0, [])

  /**
   As written, the first step measures its elapsed time from clock reading 0,
   so at any uptime past one second the first batch decays by a negative
   factor. Run at 5000 ms, with a square root that is 0 at 0, the first
   particle ends with speed 0.8 * (1 - 5) = -3.2.
   */
  lemma FirstRunReversesSpeed(wp: Waypoint, spreads: seq<Spread>, m: Math)
    requires |spreads| == BatchSize
    requires m.sqrt(0.0) == 0.0
    ensures |Run(Initial, 5000, wp, spreads, m).particles| == BatchSize
    ensures Run(Initial, 5000, wp, spreads, m).particles[0].speed == -3.2
    ensures !Inv(Run(Initial, 5000, wp, spreads, m))
  {
    var e := Refresh(Initial.emitter, 5000, wp);
    var pose := PoseAt(e, 5000);
    assert pose.position == Vec2(0.0, 0.0);
    var emitted := Emit([], pose, spreads, m);
    assert emitted[0] == Spawn(pose, spreads[0], m);
    assert Distance(emitted[0], pose.position, m) == 0.0;
    assert Relax(emitted[0], pose.position, m) == emitted[0];
  }

  /**
   The worker with its previous-step time taken from the clock when the
   view starts, so that the first step's elapsed time is the real one.
   */
  function StartWorker(now: int): (w: Worker)
    ensures Inv(w)
    ensures w.last == now && w.particles == []
  {
    Initial.(last := now)
  }

  /** Started at `now` and first run within a second, the worker keeps every speed within range. */
  lemma StartedWorkerKeepsSpeeds(now: int, time: int, wp: Waypoint, spreads: seq<Spread>, m: Math)
    requires now <= time <= now + 1000
    requires |spreads| == BatchSize
    ensures Inv(Run(StartWorker(now), time, wp, spreads, m))
    ensures |Run(StartWorker(now), time, wp, spreads, m).particles| == BatchSize
  {
  }

  /** The grey level the i-th particle (oldest first) is drawn with. */
  function Colour(i: nat): (c: real)
    ensures 0.0 <= c <= 1.0
    ensures i >= FadeCount ==> c == 1.0
    ensures i < FadeCount ==> c * FadeCount as real == i as real
  {
    if i < FadeCount then i as real / FadeCount as real else 1.0
  }

  /** Older particles are never drawn brighter than newer ones. */
  lemma ColourMonotone(i: nat, j: nat)
    requires i <= j
    ensures Colour(i) <= Colour(j)
  {
  }
}
