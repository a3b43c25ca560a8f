/**
 * One time step of the overdamped Langevin dynamics: the explicit
 * Euler-Maruyama update of every particle (force, self-propulsion along the
 * orientation, and pre-drawn Gaussian noise), followed by the periodic wrap of
 * positions into [0, len) and of orientations into [0, 2*pi).
 */
module Integrator {
  import opened Periodic
  import opened Parameters
  import opened CellList
  import opened ForceField

  /** 2*pi, with M_PI rounded to 16 significant digits (the double M_PI stands for exceeds this decimal by about 1.2e-16). */
  const TwoPi: real := 2.0 * 3.141592653589793

  /** Positions (`positions[0]`, `positions[1]`) and orientations (`angles`) of all particles. */
  datatype Snapshot = Snapshot(xs: seq<real>, ys: seq<real>, thetas: seq<real>)
  {
    ghost predicate Sized(n: nat)
    {
      |xs| == n && |ys| == n && |thetas| == n
    }
  }

  /** The Gaussian numbers drawn for one step: `ran_num_x`, `ran_num_y`, `ran_num_angle`. */
  datatype Draws = Draws(ranNumX: seq<real>, ranNumY: seq<real>, ranNumAngle: seq<real>)
  {
    ghost predicate Sized(n: nat)
    {
      |ranNumX| == n && |ranNumY| == n && |ranNumAngle| == n
    }
  }

  /** The periodicity invariant: every coordinate in [0, len) and every orientation in [0, 2*pi). */
  ghost predicate InRange(len: real, s: Snapshot)
  {
    && |s.ys| == |s.xs| && |s.thetas| == |s.xs|
    && forall i :: 0 <= i < |s.xs| ==> 0.0 <= s.xs[i] < len && 0.0 <= s.ys[i] < len && 0.0 <= s.thetas[i] < TwoPi
  }

  /** New x coordinate of one particle, before wrapping. */
  function AdvanceX(p: Params, m: Maths, x: real, fx: real, theta: real, noise: real): real
  {
    x + p.dt * (fx + p.activity * m.cos(theta)) + noise
  }

  /** New y coordinate of one particle, before wrapping. */
  function AdvanceY(p: Params, m: Maths, y: real, fy: real, theta: real, noise: real): real
  {
    y + p.dt * (fy + p.activity * m.sin(theta)) + noise
  }

  /** The integration loop: every particle advanced by its own force, orientation and draws. */
  ghost function Drift(p: Params, m: Maths, s: Snapshot, fx: seq<real>, fy: seq<real>, d: Draws): (r: Snapshot)
    requires s.Sized(|fx|) && |fy| == |fx| && d.Sized(|fx|)
    ensures r.Sized(|fx|)
  {
    Snapshot(
      seq(|fx|, i requires 0 <= i < |fx| => AdvanceX(p, m, s.xs[i], fx[i], s.thetas[i], d.ranNumX[i])),
      seq(|fx|, i requires 0 <= i < |fx| => AdvanceY(p, m, s.ys[i], fy[i], s.thetas[i], d.ranNumY[i])),
      seq(|fx|, i requires 0 <= i < |fx| => s.thetas[i] + d.ranNumAngle[i]))
  }

  /** `enforcePBC`: positions wrapped by `len`, orientations by 2*pi; the result satisfies the periodicity invariant. */
  ghost function Wrap(len: real, s: Snapshot): (r: Snapshot)
    requires len > 0.0
    requires |s.ys| == |s.xs| && |s.thetas| == |s.xs|
    ensures r.Sized(|s.xs|)
    ensures InRange(len, r)
  {
    Snapshot(
      seq(|s.xs|, i requires 0 <= i < |s.xs| => Pbc(s.xs[i], len)),
      seq(|s.xs|, i requires 0 <= i < |s.xs| => Pbc(s.ys[i], len)),
      seq(|s.xs|, i requires 0 <= i < |s.xs| => Pbc(s.thetas[i], TwoPi)))
  }

  /** Wrapping leaves a snapshot that already satisfies the invariant unchanged. */
  lemma WrapFixesInRange(len: real, s: Snapshot)
    requires len > 0.0
    requires InRange(len, s)
    ensures Wrap(len, s) == s
  {
    var n := |s.xs|;
    forall i | 0 <= i < n
      ensures Wrap(len, s).xs[i] == s.xs[i] && Wrap(len, s).ys[i] == s.ys[i] && Wrap(len, s).thetas[i] == s.thetas[i]
    {
      PbcFixesInRange(s.xs[i], len);
      PbcFixesInRange(s.ys[i], len);
      PbcFixesInRange(s.thetas[i], TwoPi);
    }
  }

  /** Wrapping twice is wrapping once. */
  lemma WrapIdempotent(len: real, s: Snapshot)
    requires len > 0.0
    requires |s.ys| == |s.xs| && |s.thetas| == |s.xs|
    ensures Wrap(len, Wrap(len, s)) == Wrap(len, s)
  {
    WrapFixesInRange(len, Wrap(len, s));
  }

  /**
   * `evolve`: forces from the pre-step positions, the integration loop, then
   * the wrap; `oncePerPair` selects the force loops as written (false) or
   * corrected (true).
   */
  ghost function Step(p: Params, m: Maths, boxes: Boxes, s: Snapshot, d: Draws, oncePerPair: bool): (r: Snapshot)
    requires p.len > 0.0 && boxes.WellFormed()
    requires s.Sized(boxes.nParts) && d.Sized(boxes.nParts)
    ensures r.Sized(boxes.nParts)
    ensures InRange(p.len, r)
  {
    var f := InternalForces(p, m, boxes, s.xs, s.ys, oncePerPair);
    Wrap(p.len, Drift(p, m, s, f.0, f.1, d))
  }

  ghost predicate AllZero(s: seq<real>)
  {
    forall i :: 0 <= i < |s| ==> s[i] == 0.0
  }

  /**
   * With no force, no activity and no noise, a step leaves a configuration that
   * satisfies the periodicity invariant exactly where it was.
   */
  lemma IdleUpdateIsIdentity(p: Params, m: Maths, s: Snapshot, fx: seq<real>, fy: seq<real>, d: Draws)
    requires p.len > 0.0 && p.activity == 0.0
    requires s.Sized(|fx|) && |fy| == |fx| && d.Sized(|fx|)
    requires AllZero(fx) && AllZero(fy)
    requires AllZero(d.ranNumX) && AllZero(d.ranNumY) && AllZero(d.ranNumAngle)
    requires InRange(p.len, s)
    ensures Wrap(p.len, Drift(p, m, s, fx, fy, d)) == s
  {
    assert Drift(p, m, s, fx, fy, d) == s;
    WrapFixesInRange(p.len, s);
  }

  /**
   * A particle alone in the box with no activity and no noise stays where it
   * is: it exerts no force on itself, so the step changes nothing.
   */
  lemma LoneParticleStaysPut(p: Params, m: Maths, boxes: Boxes, s: Snapshot, d: Draws, oncePerPair: bool)
    requires p.len > 0.0 && p.activity == 0.0
    requires boxes.WellFormed() && boxes.nParts == 1
    requires s.Sized(1) && d.Sized(1)
    requires AllZero(d.ranNumX) && AllZero(d.ranNumY) && AllZero(d.ranNumAngle)
    requires InRange(p.len, s)
    ensures Step(p, m, boxes, s, d, oncePerPair) == s
  {
    PbcSymFixesInRange(0.0, p.len);
    assert Dr2(p.len, s.xs[0], s.ys[0], s.xs[0], s.ys[0]) == 0.0;
    NoContactNoForce(p, m, boxes, s.xs, s.ys, oncePerPair);
    var f := InternalForces(p, m, boxes, s.xs, s.ys, oncePerPair);
    IdleUpdateIsIdentity(p, m, s, f.0, f.1, d);
  }
}
