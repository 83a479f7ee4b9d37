/** The three-real `Coord` of plummer.cpp, with the componentwise
    arithmetic the integrator writes out field by field, and `to_cartesian`.
    The source overlays the names (x, y, z) and (r, phi, theta) on the same
    three doubles; here the Cartesian reading is `Coord` and the spherical
    reading `Spherical`, two records of three reals. */
module Coordinates {

  datatype Coord = Coord(x: real, y: real, z: real)

  /** The same three numbers read as radius, polar angle and azimuth (for a
      position) or as their rates of change (for a velocity). */
  datatype Spherical = Spherical(r: real, phi: real, theta: real)

  const Origin := Coord(0.0, 0.0, 0.0)

  function Add(u: Coord, w: Coord): Coord
  {
    Coord(u.x + w.x, u.y + w.y, u.z + w.z)
  }

  function Scale(k: real, u: Coord): Coord
  {
    Coord(k * u.x, k * u.y, k * u.z)
  }

  function Dot(u: Coord, w: Coord): real
  {
    u.x * w.x + u.y * w.y + u.z * w.z
  }

  function Cross(u: Coord, w: Coord): Coord
  {
    Coord(u.y * w.z - u.z * w.y, u.z * w.x - u.x * w.z, u.x * w.y - u.y * w.x)
  }

  /** Squared length. */
  function Norm2(u: Coord): real
  {
    Dot(u, u)
  }

  lemma DotAddLeft(u: Coord, w: Coord, q: Coord)
    ensures Dot(Add(u, w), q) == Dot(u, q) + Dot(w, q)
  {
  }

  lemma DotScaleLeft(k: real, u: Coord, q: Coord)
    ensures Dot(Scale(k, u), q) == k * Dot(u, q)
  {
  }

  lemma DotSymmetric(u: Coord, q: Coord)
    ensures Dot(u, q) == Dot(q, u)
  {
  }

  /** Scaling by k scales the squared length by k squared. */
  lemma NormScale(k: real, u: Coord)
    ensures Norm2(Scale(k, u)) == k * k * Norm2(u)
  {
    assert (k * u.x) * (k * u.x) == k * k * (u.x * u.x);
    assert (k * u.y) * (k * u.y) == k * k * (u.y * u.y);
    assert (k * u.z) * (k * u.z) == k * k * (u.z * u.z);
  }

  lemma CrossScaleSelf(k: real, u: Coord)
    ensures Cross(Scale(k, u), u) == Origin
    ensures Cross(u, Scale(k, u)) == Origin
  {
  }

  /** Three mutually orthogonal unit vectors. */
  predicate Orthonormal(e1: Coord, e2: Coord, e3: Coord)
  {
    Dot(e1, e1) == 1.0 && Dot(e2, e2) == 1.0 && Dot(e3, e3) == 1.0 &&
    Dot(e1, e2) == 0.0 && Dot(e1, e3) == 0.0 && Dot(e2, e3) == 0.0
  }

  function Combine(a: real, e1: Coord, b: real, e2: Coord, c: real, e3: Coord): Coord
  {
    Add(Add(Scale(a, e1), Scale(b, e2)), Scale(c, e3))
  }

  /** In an orthonormal frame a vector's components are its projections
      and its squared length is the sum of their squares. */
  lemma {:induction false} OrthonormalComponents(a: real, e1: Coord, b: real, e2: Coord, c: real, e3: Coord)
    requires Orthonormal(e1, e2, e3)
    ensures Dot(e1, Combine(a, e1, b, e2, c, e3)) == a
    ensures Norm2(Combine(a, e1, b, e2, c, e3)) == a * a + b * b + c * c
  {
    var w := Combine(a, e1, b, e2, c, e3);
    var head := Add(Scale(a, e1), Scale(b, e2));
    forall q | q in {e1, e2, e3, w}
      ensures Dot(w, q) == a * Dot(e1, q) + b * Dot(e2, q) + c * Dot(e3, q)
    {
      DotAddLeft(head, Scale(c, e3), q);
      DotAddLeft(Scale(a, e1), Scale(b, e2), q);
      DotScaleLeft(a, e1, q);
      DotScaleLeft(b, e2, q);
      DotScaleLeft(c, e3, q);
    }
    DotSymmetric(e2, e1);
    DotSymmetric(e3, e1);
    DotSymmetric(e3, e2);
    DotSymmetric(e1, w);
    DotSymmetric(e2, w);
    DotSymmetric(e3, w);
    assert Dot(w, e1) == a;
    assert Dot(w, e2) == b;
    assert Dot(w, e3) == c;
  }

  /** Sine and cosine of the polar angle `phi` and of the azimuth `theta`.
      Their values are not computed here; `Pythagorean` is the only fact
      about them the lemmas use. */
  datatype Trig = Trig(sinPhi: real, cosPhi: real, sinTheta: real, cosTheta: real)

  predicate Pythagorean(tr: Trig)
  {
    tr.sinPhi * tr.sinPhi + tr.cosPhi * tr.cosPhi == 1.0 &&
    tr.sinTheta * tr.sinTheta + tr.cosTheta * tr.cosTheta == 1.0
  }

  /** `to_cartesian`: position (r, phi, theta) and rates (v_r, v_phi, v_theta)
      to Cartesian position and velocity, with `phi` the polar angle
      (z = r cos phi) and `theta` the azimuth, as the source writes them. */
  function ToCartesian(p: Spherical, v: Spherical, tr: Trig): (Coord, Coord)
  {
    var x := p.r * tr.cosTheta * tr.sinPhi;
    var y := p.r * tr.sinTheta * tr.sinPhi;
    var z := p.r * tr.cosPhi;
    var vx := tr.cosTheta * tr.sinPhi * v.r - p.r * tr.sinTheta * tr.sinPhi * v.theta
              + p.r * tr.cosTheta * tr.cosPhi * v.phi;
    var vy := tr.sinTheta * tr.sinPhi * v.r + p.r * tr.sinPhi * tr.cosTheta * v.theta
              + p.r * tr.sinTheta * tr.cosPhi * v.phi;
    var vz := tr.cosPhi * v.r - p.r * tr.sinPhi * v.phi;
    (Coord(x, y, z), Coord(vx, vy, vz))
  }

  /** The radial unit vector and the unit vectors of growing phi and of
      growing theta at the given angles. */
  function RadialUnit(tr: Trig): Coord
  {
    Coord(tr.cosTheta * tr.sinPhi, tr.sinTheta * tr.sinPhi, tr.cosPhi)
  }

  function PolarUnit(tr: Trig): Coord
  {
    Coord(tr.cosTheta * tr.cosPhi, tr.sinTheta * tr.cosPhi, -tr.sinPhi)
  }

  function AzimuthalUnit(tr: Trig): Coord
  {
    Coord(-tr.sinTheta, tr.cosTheta, 0.0)
  }

  /** The trigonometric identities behind `SphericalFrameOrthonormal`, written
      in the exact shape of the six dot products. */
  lemma FrameIdentities(sp: real, cp: real, st: real, ct: real)
    requires sp * sp + cp * cp == 1.0 && st * st + ct * ct == 1.0
    ensures (ct * sp) * (ct * sp) + (st * sp) * (st * sp) + cp * cp == 1.0
    ensures (ct * cp) * (ct * cp) + (st * cp) * (st * cp) + -sp * -sp == 1.0
    ensures -st * -st + ct * ct + 0.0 * 0.0 == 1.0
    ensures (ct * sp) * (ct * cp) + (st * sp) * (st * cp) + cp * -sp == 0.0
    ensures (ct * sp) * -st + (st * sp) * ct + cp * 0.0 == 0.0
    ensures (ct * cp) * -st + (st * cp) * ct + -sp * 0.0 == 0.0
  {
    assert (ct * sp) * (ct * sp) + (st * sp) * (st * sp) == (sp * sp) * (st * st + ct * ct);
    assert (ct * cp) * (ct * cp) + (st * cp) * (st * cp) == (cp * cp) * (st * st + ct * ct);
    assert (ct * sp) * (ct * cp) + (st * sp) * (st * cp) == (sp * cp) * (st * st + ct * ct);
  }

  /** The local spherical frame is orthonormal. */
  lemma SphericalFrameOrthonormal(tr: Trig)
    requires Pythagorean(tr)
    ensures Orthonormal(RadialUnit(tr), PolarUnit(tr), AzimuthalUnit(tr))
  {
    FrameIdentities(tr.sinPhi, tr.cosPhi, tr.sinTheta, tr.cosTheta);
  }

  /** The three velocity components of `to_cartesian`, regrouped along the
      radial, polar and azimuthal unit vectors. */
  lemma VelocityRegrouped(r: real, sp: real, cp: real, st: real, ct: real, vr: real, vphi: real, vtheta: real)
    ensures ct * sp * vr - r * st * sp * vtheta + r * ct * cp * vphi
         == vr * (ct * sp) + (r * vphi) * (ct * cp) + (r * sp * vtheta) * -st
    ensures st * sp * vr + r * sp * ct * vtheta + r * st * cp * vphi
         == vr * (st * sp) + (r * vphi) * (st * cp) + (r * sp * vtheta) * ct
    ensures cp * vr - r * sp * vphi
         == vr * cp + (r * vphi) * -sp + (r * sp * vtheta) * 0.0
  {
    assert r * st * sp * vtheta == (r * sp * vtheta) * st;
    assert r * ct * cp * vphi == (r * vphi) * (ct * cp);
    assert r * sp * ct * vtheta == (r * sp * vtheta) * ct;
    assert r * st * cp * vphi == (r * vphi) * (st * cp);
  }

  /** `to_cartesian` places the particle at r times the radial unit vector.
      Stated over the components, which keeps the arithmetic in one place. */
  lemma PositionInFrame(r: real, phi: real, theta: real, vr: real, vphi: real, vtheta: real,
                        sp: real, cp: real, st: real, ct: real)
    ensures ToCartesian(Spherical(r, phi, theta), Spherical(vr, vphi, vtheta), Trig(sp, cp, st, ct)).0
         == Scale(r, RadialUnit(Trig(sp, cp, st, ct)))
  {
    assert r * ct * sp == r * (ct * sp);
    assert r * st * sp == r * (st * sp);
  }

  /** The velocity of `to_cartesian` is the radial rate, r times the phi
      rate and r sin phi times the theta rate along the three unit vectors:
      the chain rule applied to the position formula. */
  lemma VelocityInFrame(r: real, phi: real, theta: real, vr: real, vphi: real, vtheta: real,
                        sp: real, cp: real, st: real, ct: real)
    ensures ToCartesian(Spherical(r, phi, theta), Spherical(vr, vphi, vtheta), Trig(sp, cp, st, ct)).1
         == Combine(vr, RadialUnit(Trig(sp, cp, st, ct)), r * vphi, PolarUnit(Trig(sp, cp, st, ct)),
                    r * sp * vtheta, AzimuthalUnit(Trig(sp, cp, st, ct)))
  {
    VelocityRegrouped(r, sp, cp, st, ct, vr, vphi, vtheta);
  }

  /** `PositionInFrame` and `VelocityInFrame` for whole records. */
  lemma ToCartesianFrame(p: Spherical, v: Spherical, tr: Trig)
    ensures ToCartesian(p, v, tr).0 == Scale(p.r, RadialUnit(tr))
    ensures ToCartesian(p, v, tr).1
         == Combine(v.r, RadialUnit(tr), p.r * v.phi, PolarUnit(tr), p.r * tr.sinPhi * v.theta, AzimuthalUnit(tr))
  {
    PositionInFrame(p.r, p.phi, p.theta, v.r, v.phi, v.theta, tr.sinPhi, tr.cosPhi, tr.sinTheta, tr.cosTheta);
    VelocityInFrame(p.r, p.phi, p.theta, v.r, v.phi, v.theta, tr.sinPhi, tr.cosPhi, tr.sinTheta, tr.cosTheta);
    assert p == Spherical(p.r, p.phi, p.theta) && v == Spherical(v.r, v.phi, v.theta);
    assert tr == Trig(tr.sinPhi, tr.cosPhi, tr.sinTheta, tr.cosTheta);
  }

  /** The Cartesian position lies at distance r from the origin, at height
      r cos phi, and r = 0 gives the origin. */
  lemma ToCartesianPosition(p: Spherical, v: Spherical, tr: Trig)
    requires Pythagorean(tr)
    ensures Norm2(ToCartesian(p, v, tr).0) == p.r * p.r
    ensures ToCartesian(p, v, tr).0.z == p.r * tr.cosPhi
    ensures p.r == 0.0 ==> ToCartesian(p, v, tr).0 == Origin
  {
    var e := RadialUnit(tr);
    var pos := ToCartesian(p, v, tr).0;
    assert pos == Scale(p.r, e) by { ToCartesianFrame(p, v, tr); }
    assert Norm2(e) == 1.0 by { SphericalFrameOrthonormal(tr); }
    NormScale(p.r, e);
  }

  /** At the origin the velocity is the radial rate along the radial unit
      vector: the angular rates drop out. */
  lemma ToCartesianAtOrigin(p: Spherical, v: Spherical, tr: Trig)
    requires p.r == 0.0
    ensures ToCartesian(p, v, tr).0 == Origin
    ensures ToCartesian(p, v, tr).1 == Scale(v.r, RadialUnit(tr))
  {
  }

  /** Position times velocity is r times the radial rate: the angular rates
      move the particle perpendicular to its position. */
  lemma ToCartesianRadialVelocity(p: Spherical, v: Spherical, tr: Trig)
    requires Pythagorean(tr)
    ensures Dot(ToCartesian(p, v, tr).0, ToCartesian(p, v, tr).1) == p.r * v.r
  {
    ToCartesianFrame(p, v, tr);
    SphericalFrameOrthonormal(tr);
    OrthonormalComponents(v.r, RadialUnit(tr), p.r * v.phi, PolarUnit(tr), p.r * tr.sinPhi * v.theta, AzimuthalUnit(tr));
    DotScaleLeft(p.r, RadialUnit(tr), ToCartesian(p, v, tr).1);
  }

  lemma SpeedTerms(vr: real, r: real, vphi: real, sp: real, vtheta: real)
    ensures vr * vr + (r * vphi) * (r * vphi) + (r * sp * vtheta) * (r * sp * vtheta)
         == vr * vr + r * r * (vphi * vphi + sp * sp * vtheta * vtheta)
  {
    assert (r * vphi) * (r * vphi) == r * r * (vphi * vphi);
    assert (r * sp * vtheta) * (r * sp * vtheta) == r * r * (sp * sp * vtheta * vtheta);
  }

  /** Squared speed in spherical form: v_r^2 + r^2 (v_phi^2 + sin^2 phi v_theta^2). */
  lemma ToCartesianSpeed(p: Spherical, v: Spherical, tr: Trig)
    requires Pythagorean(tr)
    ensures Norm2(ToCartesian(p, v, tr).1)
         == v.r * v.r + p.r * p.r * (v.phi * v.phi + tr.sinPhi * tr.sinPhi * v.theta * v.theta)
  {
    var b, c := p.r * v.phi, p.r * tr.sinPhi * v.theta;
    calc {
      Norm2(ToCartesian(p, v, tr).1);
      { ToCartesianFrame(p, v, tr); }
      Norm2(Combine(v.r, RadialUnit(tr), b, PolarUnit(tr), c, AzimuthalUnit(tr)));
      { SphericalFrameOrthonormal(tr);
        OrthonormalComponents(v.r, RadialUnit(tr), b, PolarUnit(tr), c, AzimuthalUnit(tr)); }
      v.r * v.r + b * b + c * c;
      { SpeedTerms(v.r, p.r, v.phi, tr.sinPhi, v.theta); }
      v.r * v.r + p.r * p.r * (v.phi * v.phi + tr.sinPhi * tr.sinPhi * v.theta * v.theta);
    }
  }
}
