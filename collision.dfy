/**
 * The disc-disc collision of the carrom step (game.js, lines 150-167), on
 * velocities alone: both velocities are turned into the frame whose x axis
 * points along the line of centres, the components along that line are
 * exchanged as in a one-dimensional elastic collision in which the radii
 * stand in for the masses, the components across it are kept, and both
 * velocities are turned back.
 *
 * The direction of the line of centres arrives as the pair (cos a, sin a)
 * that Math.cos and Math.sin return for a = Math.atan2(dy, dx).
 */
module Collision {
  /** Radii are positive, so the sum of two radii can divide. */
  type Radius = r: real | 0.0 < r witness 1.0

  datatype Vec = Vec(x: real, y: real)

  /** (c, s) lies on the unit circle, as cos a and sin a of one angle do. */
  predicate Unit(c: real, s: real) {
    c * c + s * s == 1.0
  }

  lemma UnitScale(a: real, c: real, s: real)
    requires Unit(c, s)
    ensures a * (c * c + s * s) == a
  {
  }

  /** Exact division: q is a / m when q * m is a. */
  lemma Quotient(a: real, m: real, q: real)
    requires m != 0.0 && q * m == a
    ensures a / m == q
  {
  }

  /**
   * The normal components after the collision (lines 160-161): the
   * one-dimensional elastic exchange. The contract gives the same values in
   * the form c = (u1 - u2) / (r1 + r2), w = (u1 - 2 r2 c, u2 + 2 r1 c).
   */
  function Exchange(r1: Radius, r2: Radius, u1: real, u2: real): (w: (real, real))
    ensures var c := (u1 - u2) / (r1 + r2); w == (u1 - 2.0 * r2 * c, u2 + 2.0 * r1 * c)
  {
    var w1 := ((r1 - r2) * u1 + 2.0 * r2 * u2) / (r1 + r2);
    var w2 := ((r2 - r1) * u2 + 2.0 * r1 * u1) / (r1 + r2);
    ExchangeForm(r1, r2, u1, u2);
    (w1, w2)
  }

  lemma ExchangeForm(r1: Radius, r2: Radius, u1: real, u2: real)
    ensures var c := (u1 - u2) / (r1 + r2);
      && ((r1 - r2) * u1 + 2.0 * r2 * u2) / (r1 + r2) == u1 - 2.0 * r2 * c
      && ((r2 - r1) * u2 + 2.0 * r1 * u1) / (r1 + r2) == u2 + 2.0 * r1 * c
  {
    var m := r1 + r2;
    var c := (u1 - u2) / m;
    assert c * m == u1 - u2;
    assert (u1 - 2.0 * r2 * c) * m == u1 * m - 2.0 * r2 * (c * m);
    Quotient((r1 - r2) * u1 + 2.0 * r2 * u2, m, u1 - 2.0 * r2 * c);
    assert (u2 + 2.0 * r1 * c) * m == u2 * m + 2.0 * r1 * (c * m);
    Quotient((r2 - r1) * u2 + 2.0 * r1 * u1, m, u2 + 2.0 * r1 * c);
  }

  /**
   * The exchange conserves radius-weighted momentum and energy, reverses the
   * relative velocity, and swaps the two components when the radii are equal.
   */
  lemma ExchangeLaws(r1: Radius, r2: Radius, u1: real, u2: real)
    ensures var w := Exchange(r1, r2, u1, u2);
      && r1 * w.0 + r2 * w.1 == r1 * u1 + r2 * u2
      && w.1 - w.0 == u1 - u2
      && (r1 == r2 ==> w == (u2, u1))
      && r1 * w.0 * w.0 + r2 * w.1 * w.1 == r1 * u1 * u1 + r2 * u2 * u2
  {
    var c := (u1 - u2) / (r1 + r2);
    assert c * (r1 + r2) == u1 - u2;
    var w := Exchange(r1, r2, u1, u2);
    assert w.1 - w.0 == u2 - u1 + 2.0 * c * (r1 + r2);
    if r1 == r2 {
      assert r1 + r2 == 2.0 * r1;
      assert c * (2.0 * r1) == u1 - u2;
      assert w.0 == u2 && w.1 == u1;
    }
    calc {
      r1 * w.0 * w.0 + r2 * w.1 * w.1;
      r1 * (u1 - 2.0 * r2 * c) * (u1 - 2.0 * r2 * c) + r2 * (u2 + 2.0 * r1 * c) * (u2 + 2.0 * r1 * c);
      r1 * u1 * u1 + r2 * u2 * u2 + 4.0 * r1 * r2 * c * (c * (r1 + r2) - (u1 - u2));
    }
  }

  /** Into the frame whose x axis is u = (cos, sin): normal and tangential components. */
  function Rotate(v: Vec, u: Vec): Vec
  {
    Vec(v.x * u.x + v.y * u.y, v.y * u.x - v.x * u.y)
  }

  /** Back out of that frame. */
  function Unrotate(w: Vec, u: Vec): Vec
  {
    Vec(w.x * u.x - w.y * u.y, w.y * u.x + w.x * u.y)
  }

  /** Turning into the frame and back gives the velocity unchanged, and the other way round. */
  lemma UnrotateRotate(v: Vec, u: Vec)
    requires Unit(u.x, u.y)
    ensures Unrotate(Rotate(v, u), u) == v
  {
    var w := Rotate(v, u);
    var c, s := u.x, u.y;
    assert w.x * c - w.y * s == v.x * (c * c + s * s);
    assert w.y * c + w.x * s == v.y * (c * c + s * s);
    UnitScale(v.x, c, s);
    UnitScale(v.y, c, s);
  }

  lemma RotateUnrotate(w: Vec, u: Vec)
    requires Unit(u.x, u.y)
    ensures Rotate(Unrotate(w, u), u) == w
  {
    var v := Unrotate(w, u);
    var c, s := u.x, u.y;
    assert v.x * c + v.y * s == w.x * (c * c + s * s);
    assert v.y * c - v.x * s == w.y * (c * c + s * s);
    UnitScale(w.x, c, s);
    UnitScale(w.y, c, s);
  }

  /** The weighted sum k1 w1 + k2 w2. */
  function Scale2(k1: real, w1: Vec, k2: real, w2: Vec): Vec
  {
    Vec(k1 * w1.x + k2 * w2.x, k1 * w1.y + k2 * w2.y)
  }

  /** Both turns are linear maps. */
  lemma RotateLinear(k1: real, v1: Vec, k2: real, v2: Vec, u: Vec)
    ensures Scale2(k1, Rotate(v1, u), k2, Rotate(v2, u)) == Rotate(Scale2(k1, v1, k2, v2), u)
  {
    var m := Scale2(k1, v1, k2, v2);
    assert k1 * (v1.x * u.x + v1.y * u.y) + k2 * (v2.x * u.x + v2.y * u.y) == m.x * u.x + m.y * u.y;
    assert k1 * (v1.y * u.x - v1.x * u.y) + k2 * (v2.y * u.x - v2.x * u.y) == m.y * u.x - m.x * u.y;
  }

  lemma UnrotateLinear(k1: real, w1: Vec, k2: real, w2: Vec, u: Vec)
    ensures Scale2(k1, Unrotate(w1, u), k2, Unrotate(w2, u)) == Unrotate(Scale2(k1, w1, k2, w2), u)
  {
    var m := Scale2(k1, w1, k2, w2);
    assert k1 * (w1.x * u.x - w1.y * u.y) + k2 * (w2.x * u.x - w2.y * u.y) == m.x * u.x - m.y * u.y;
    assert k1 * (w1.y * u.x + w1.x * u.y) + k2 * (w2.y * u.x + w2.x * u.y) == m.y * u.x + m.x * u.y;
  }

  /** Kinetic energy with the radius standing in for the mass (without the factor 1/2). */
  function Energy(r: real, v: Vec): real
  {
    r * (v.x * v.x + v.y * v.y)
  }

  lemma EnergyOf(r: real, x: real, y: real)
    ensures Energy(r, Vec(x, y)) == r * x * x + r * y * y
  {
  }

  lemma RotateKeepsEnergy(r: real, v: Vec, u: Vec)
    requires Unit(u.x, u.y)
    ensures Energy(r, Rotate(v, u)) == Energy(r, v)
  {
    var c, s := u.x, u.y;
    assert Energy(r, Rotate(v, u)) == Energy(r, v) * (c * c + s * s);
    UnitScale(Energy(r, v), c, s);
  }

  lemma UnrotateKeepsEnergy(r: real, w: Vec, u: Vec)
    requires Unit(u.x, u.y)
    ensures Energy(r, Unrotate(w, u)) == Energy(r, w)
  {
    var c, s := u.x, u.y;
    assert Energy(r, Unrotate(w, u)) == Energy(r, w) * (c * c + s * s);
    UnitScale(Energy(r, w), c, s);
  }

  /**
   * Two velocities meeting along the unit direction u: both are turned into
   * u's frame, the components along u are exchanged, the components across
   * u are kept, and both are turned back.
   */
  function Collide(r1: Radius, r2: Radius, v1: Vec, v2: Vec, u: Vec): (w: (Vec, Vec))
  {
    var a, b := Rotate(v1, u), Rotate(v2, u);
    var e := Exchange(r1, r2, a.x, b.x);
    (Unrotate(Vec(e.0, a.y), u), Unrotate(Vec(e.1, b.y), u))
  }

  /**
   * Read in the frame of u, the collision exchanges the normal components
   * and keeps the tangential ones: what the rotation in the source is for.
   */
  lemma CollideInFrame(r1: Radius, r2: Radius, v1: Vec, v2: Vec, u: Vec)
    requires Unit(u.x, u.y)
    ensures var w := Collide(r1, r2, v1, v2, u);
      var a, b := Rotate(v1, u), Rotate(v2, u);
      && Rotate(w.0, u) == Vec(Exchange(r1, r2, a.x, b.x).0, a.y)
      && Rotate(w.1, u) == Vec(Exchange(r1, r2, a.x, b.x).1, b.y)
  {
    var a, b := Rotate(v1, u), Rotate(v2, u);
    var e := Exchange(r1, r2, a.x, b.x);
    RotateUnrotate(Vec(e.0, a.y), u);
    RotateUnrotate(Vec(e.1, b.y), u);
  }

  /** Radius-weighted momentum is conserved on both axes of the board. */
  lemma CollideConservesMomentum(r1: Radius, r2: Radius, v1: Vec, v2: Vec, u: Vec)
    requires Unit(u.x, u.y)
    ensures var w := Collide(r1, r2, v1, v2, u);
      Scale2(r1, w.0, r2, w.1) == Scale2(r1, v1, r2, v2)
  {
    var a, b := Rotate(v1, u), Rotate(v2, u);
    var e := Exchange(r1, r2, a.x, b.x);
    ExchangeLaws(r1, r2, a.x, b.x);
    var w1, w2 := Vec(e.0, a.y), Vec(e.1, b.y);
    UnrotateLinear(r1, w1, r2, w2, u);
    assert Scale2(r1, w1, r2, w2) == Scale2(r1, a, r2, b);
    RotateLinear(r1, v1, r2, v2, u);
    UnrotateRotate(Scale2(r1, v1, r2, v2), u);
  }

  /**
   * Replacing the x components of two velocities by ones of equal weighted
   * square sum, and keeping the y components, keeps the total energy.
   */
  lemma EnergyExchange(r1: real, r2: real, x1: real, y1: real, x2: real, y2: real, z1: real, z2: real)
    requires r1 * z1 * z1 + r2 * z2 * z2 == r1 * x1 * x1 + r2 * x2 * x2
    ensures Energy(r1, Vec(z1, y1)) + Energy(r2, Vec(z2, y2)) == Energy(r1, Vec(x1, y1)) + Energy(r2, Vec(x2, y2))
  {
    EnergyOf(r1, z1, y1);
    EnergyOf(r2, z2, y2);
    EnergyOf(r1, x1, y1);
    EnergyOf(r2, x2, y2);
  }

  /** Radius-weighted kinetic energy is conserved: the collision is elastic. */
  lemma CollideConservesEnergy(r1: Radius, r2: Radius, v1: Vec, v2: Vec, u: Vec)
    requires Unit(u.x, u.y)
    ensures var w := Collide(r1, r2, v1, v2, u);
      Energy(r1, w.0) + Energy(r2, w.1) == Energy(r1, v1) + Energy(r2, v2)
  {
    var a, b := Rotate(v1, u), Rotate(v2, u);
    var e := Exchange(r1, r2, a.x, b.x);
    ExchangeLaws(r1, r2, a.x, b.x);
    var w1, w2 := Vec(e.0, a.y), Vec(e.1, b.y);
    UnrotateKeepsEnergy(r1, w1, u);
    UnrotateKeepsEnergy(r2, w2, u);
    RotateKeepsEnergy(r1, v1, u);
    RotateKeepsEnergy(r2, v2, u);
    EnergyExchange(r1, r2, a.x, a.y, b.x, b.y, e.0, e.1);
  }

  /** Two discs at rest stay at rest, whatever the direction. */
  lemma CollideAtRest(r1: Radius, r2: Radius, u: Vec)
    ensures Collide(r1, r2, Vec(0.0, 0.0), Vec(0.0, 0.0), u) == (Vec(0.0, 0.0), Vec(0.0, 0.0))
  {
  }
}
