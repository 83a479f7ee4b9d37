/** The `Plummer` record of plummer.cpp: a test particle moving in the
    potential of a Plummer cluster of mass M and scale a, advanced by a
    drift-kick-drift step. Doubles are exact reals; the square root inside
    `calc_acceleration` is a parameter `d` constrained by `d * d`. */
module PlummerSystem {
  import opened Coordinates

  /** The gravitational constant, in the units the program uses. */
  const G: real := 1.0

  /** Velocity, position, cluster mass, cluster scale and time. */
  datatype Plummer = Plummer(v: Coord, p: Coord, M: real, a: real, t: real)

  /** `d` is the softened distance sqrt(x^2 + y^2 + z^2 + a^2) of the particle
      at `p` from the centre of a cluster of scale `a`. */
  predicate SoftenedDistance(p: Coord, a: real, d: real)
  {
    d > 0.0 && d * d == Norm2(p) + a * a
  }

  lemma CubePositive(d: real)
    requires d > 0.0
    ensures d * d * d > 0.0
  {
    assert d * d > 0.0;
  }

  /** The Plummer acceleration coefficient -G M / d^3. */
  function Strength(M: real, d: real): (c: real)
    requires d > 0.0
    ensures M >= 0.0 ==> c <= 0.0
    ensures M > 0.0 ==> c < 0.0
    ensures c * (d * d * d) == -G * M
  {
    CubePositive(d);
    -G * M / (d * d * d)
  }

  /** `calc_acceleration`: each component is -G M / d^3 times the same
      component of the position, so the acceleration is a multiple of the
      position that points to the centre (or vanishes), and it exerts no
      torque about the centre. */
  function CalcAcceleration(sys: Plummer, d: real): (acc: Coord)
    requires SoftenedDistance(sys.p, sys.a, d)
    ensures acc == Scale(Strength(sys.M, d), sys.p)
    ensures sys.M >= 0.0 ==> Dot(acc, sys.p) <= 0.0
    ensures sys.M > 0.0 && sys.p != Origin ==> Dot(acc, sys.p) < 0.0
    ensures Cross(sys.p, acc) == Origin
  {
    var acc := Coord(-G * sys.M * sys.p.x / (d * d * d),
                     -G * sys.M * sys.p.y / (d * d * d),
                     -G * sys.M * sys.p.z / (d * d * d));
    AccelerationComponent(sys.M, d, sys.p.x);
    AccelerationComponent(sys.M, d, sys.p.y);
    AccelerationComponent(sys.M, d, sys.p.z);
    CentralPull(Strength(sys.M, d), sys.p);
    acc
  }

  lemma AccelerationComponent(M: real, d: real, q: real)
    requires d > 0.0
    ensures -G * M * q / (d * d * d) == Strength(M, d) * q
  {
    CubePositive(d);
    var k := d * d * d;
    assert (-G * M / k) * q * k == -G * M * q;
  }

  /** A multiple c of the position, with c <= 0, points to the centre and
      has no torque about it. */
  lemma CentralPull(c: real, p: Coord)
    ensures Dot(Scale(c, p), p) == c * Norm2(p)
    ensures Cross(p, Scale(c, p)) == Origin
    ensures c <= 0.0 ==> Dot(Scale(c, p), p) <= 0.0
    ensures c < 0.0 && p != Origin ==> Dot(Scale(c, p), p) < 0.0
  {
    DotScaleLeft(c, p, p);
    CrossScaleSelf(c, p);
    SquaresNonNegative(p.x, p.y, p.z);
  }

  lemma SquaresNonNegative(x: real, y: real, z: real)
    ensures x * x + y * y + z * z >= 0.0
    ensures x != 0.0 || y != 0.0 || z != 0.0 ==> x * x + y * y + z * z > 0.0
  {
    assert x * x >= 0.0 && y * y >= 0.0 && z * z >= 0.0;
    if x != 0.0 { assert x * x > 0.0; }
    if y != 0.0 { assert y * y > 0.0; }
    if z != 0.0 { assert z * z > 0.0; }
  }

  /** The source's `p.x += v.x * hdt; ...`: move `p` along `v` for time `h`. */
  function Drift(p: Coord, v: Coord, h: real): (q: Coord)
    ensures q == Add(p, Scale(h, v))
  {
    assert Add(p, Scale(h, v)) == Coord(p.x + h * v.x, p.y + h * v.y, p.z + h * v.z);
    Coord(p.x + v.x * h, p.y + v.y * h, p.z + v.z * h)
  }

  /** The source's `v.x += a.x * dt; ...`: change `v` by `acc` over time
      `dt`.  It is the drift update applied to the velocity, with the
      acceleration in the role of the velocity. */
  function Kick(v: Coord, acc: Coord, dt: real): (w: Coord)
    ensures w == Add(v, Scale(dt, acc))
  {
    Drift(v, acc, dt)
  }

  /** The position after the first half drift of a step of length dt. */
  function MidPoint(sys: Plummer, dt: real): (mid: Coord)
    ensures mid == Add(sys.p, Scale(0.5 * dt, sys.v))
  {
    Drift(sys.p, sys.v, 0.5 * dt)
  }

  /** `advance_coordinates`: half a step of drift, a full kick with the
      acceleration at the midpoint, and the other half step of drift. The
      acceleration field is a parameter (the source's `calc_acceleration`
      with the run's M and a). The new velocity is the old one plus dt times
      the midpoint acceleration, and the particle moves by dt times the mean
      of the old and new velocities. */
  function AdvanceCoordinates(sys: Plummer, dt: real, accel: Coord -> Coord): (next: Plummer)
    ensures next.t == sys.t && next.M == sys.M && next.a == sys.a
    ensures next.v == Add(sys.v, Scale(dt, accel(Add(sys.p, Scale(0.5 * dt, sys.v)))))
    ensures next.p == Add(sys.p, Scale(0.5 * dt, Add(sys.v, next.v)))
  {
    var hdt := 0.5 * dt;
    var p1 := Drift(sys.p, sys.v, hdt);
    var v1 := Kick(sys.v, accel(p1), dt);
    var p2 := Drift(p1, v1, hdt);
    DriftTwice(sys.p, sys.v, v1, hdt);
    sys.(v := v1, p := p2)
  }

  /** Two drifts of time h, along v and then along w, are one drift along
      the sum of v and w. */
  lemma DriftTwice(p: Coord, v: Coord, w: Coord, h: real)
    ensures Add(Add(p, Scale(h, v)), Scale(h, w)) == Add(p, Scale(h, Add(v, w)))
  {
    assert (p.x + h * v.x) + h * w.x == p.x + h * (v.x + w.x);
    assert (p.y + h * v.y) + h * w.y == p.y + h * (v.y + w.y);
    assert (p.z + h * v.z) + h * w.z == p.z + h * (v.z + w.z);
  }

  /** Drifting back for the same time undoes a drift. */
  lemma DriftBack(p: Coord, v: Coord, dt: real)
    ensures Drift(Drift(p, v, 0.5 * dt), v, 0.5 * -dt) == p
  {
    DriftBackComponent(p.x, v.x, dt);
    DriftBackComponent(p.y, v.y, dt);
    DriftBackComponent(p.z, v.z, dt);
  }

  lemma DriftBackComponent(p: real, v: real, dt: real)
    ensures (p + v * (0.5 * dt)) + v * (0.5 * -dt) == p
  {
  }

  /** Kicking back with the same acceleration undoes a kick. */
  lemma KickBack(v: Coord, acc: Coord, dt: real)
    ensures Kick(Kick(v, acc, dt), acc, -dt) == v
  {
    KickBackComponent(v.x, acc.x, dt);
    KickBackComponent(v.y, acc.y, dt);
    KickBackComponent(v.z, acc.z, dt);
  }

  lemma KickBackComponent(v: real, a: real, dt: real)
    ensures (v + a * dt) + a * -dt == v
  {
  }

  /** A step with dt followed by a step with -dt returns to the starting
      state: drift-kick-drift is time-reversible. */
  lemma {:induction false} AdvanceReversible(sys: Plummer, dt: real, accel: Coord -> Coord)
    ensures AdvanceCoordinates(AdvanceCoordinates(sys, dt, accel), -dt, accel) == sys
  {
    var p1 := Drift(sys.p, sys.v, 0.5 * dt);
    var v1 := Kick(sys.v, accel(p1), dt);
    var p2 := Drift(p1, v1, 0.5 * dt);
    assert AdvanceCoordinates(sys, dt, accel) == sys.(v := v1, p := p2);
    DriftBack(p1, v1, dt);
    assert Drift(p2, v1, 0.5 * -dt) == p1;
    KickBack(sys.v, accel(p1), dt);
    DriftBack(sys.p, sys.v, dt);
    assert AdvanceCoordinates(sys.(v := v1, p := p2), -dt, accel)
        == sys.(v := Kick(v1, accel(p1), -dt), p := Drift(p1, Kick(v1, accel(p1), -dt), 0.5 * -dt));
  }

  /** Without acceleration at the midpoint the particle keeps its velocity
      and moves by dt times it. */
  lemma AdvanceFreeDrift(sys: Plummer, dt: real, accel: Coord -> Coord)
    requires accel(MidPoint(sys, dt)) == Origin
    ensures AdvanceCoordinates(sys, dt, accel).v == sys.v
    ensures AdvanceCoordinates(sys, dt, accel).p == Add(sys.p, Scale(dt, sys.v))
  {
    var next := AdvanceCoordinates(sys, dt, accel);
    assert Kick(sys.v, Origin, dt) == sys.v;
    FullDriftComponent(sys.p.x, sys.v.x, dt);
    FullDriftComponent(sys.p.y, sys.v.y, dt);
    FullDriftComponent(sys.p.z, sys.v.z, dt);
  }

  lemma FullDriftComponent(p: real, v: real, dt: real)
    ensures p + 0.5 * dt * (v + v) == p + dt * v
  {
  }

  /** The angular momentum (per unit mass) of the test particle. */
  function AngularMomentum(sys: Plummer): Coord
  {
    Cross(sys.p, sys.v)
  }

  /** A drift moves along the velocity and leaves the moment unchanged. */
  lemma DriftKeepsMoment(p: Coord, v: Coord, h: real)
    ensures Cross(Drift(p, v, h), v) == Cross(p, v)
  {
    DriftMomentComponent(p.y, p.z, v.y, v.z, h);
    DriftMomentComponent(p.z, p.x, v.z, v.x, h);
    DriftMomentComponent(p.x, p.y, v.x, v.y, h);
  }

  lemma DriftMomentComponent(a: real, b: real, va: real, vb: real, h: real)
    ensures (a + va * h) * vb - (b + vb * h) * va == a * vb - b * va
  {
  }

  /** A kick parallel to the position leaves the moment unchanged. */
  lemma KickKeepsMoment(q: Coord, v: Coord, acc: Coord, dt: real)
    requires Cross(q, acc) == Origin
    ensures Cross(q, Kick(v, acc, dt)) == Cross(q, v)
  {
    KickMomentComponent(q.y, q.z, v.y, v.z, acc.y, acc.z, dt);
    KickMomentComponent(q.z, q.x, v.z, v.x, acc.z, acc.x, dt);
    KickMomentComponent(q.x, q.y, v.x, v.y, acc.x, acc.y, dt);
  }

  lemma KickMomentComponent(a: real, b: real, va: real, vb: real, aa: real, ab: real, dt: real)
    requires a * ab - b * aa == 0.0
    ensures a * (vb + ab * dt) - b * (va + aa * dt) == a * vb - b * va
  {
    assert a * (ab * dt) - b * (aa * dt) == (a * ab - b * aa) * dt;
  }

  /** A step conserves the angular momentum when the acceleration at the
      midpoint is parallel to the midpoint (a central force). */
  lemma {:induction false} AdvanceConservesAngularMomentum(sys: Plummer, dt: real, accel: Coord -> Coord)
    requires Cross(MidPoint(sys, dt), accel(MidPoint(sys, dt))) == Origin
    ensures AngularMomentum(AdvanceCoordinates(sys, dt, accel)) == AngularMomentum(sys)
  {
    var p1 := Drift(sys.p, sys.v, 0.5 * dt);
    var v1 := Kick(sys.v, accel(p1), dt);
    var p2 := Drift(p1, v1, 0.5 * dt);
    assert AdvanceCoordinates(sys, dt, accel) == sys.(v := v1, p := p2);
    DriftKeepsMoment(p1, v1, 0.5 * dt);
    KickKeepsMoment(p1, sys.v, accel(p1), dt);
    DriftKeepsMoment(sys.p, sys.v, 0.5 * dt);
  }

  /** The Plummer force is central, so a step driven by `calc_acceleration`
      at the midpoint conserves the angular momentum. */
  lemma PlummerStepConservesAngularMomentum(sys: Plummer, dt: real, accel: Coord -> Coord, d: real)
    requires SoftenedDistance(MidPoint(sys, dt), sys.a, d)
    requires accel(MidPoint(sys, dt)) == CalcAcceleration(sys.(p := MidPoint(sys, dt)), d)
    ensures AngularMomentum(AdvanceCoordinates(sys, dt, accel)) == AngularMomentum(sys)
  {
    AdvanceConservesAngularMomentum(sys, dt, accel);
  }
}
