/**
 * The harmonic-sphere pair force and its accumulation over the pairs visited by
 * the cell-list loops (`State::calcInternalForces`), with the all-pairs sum
 * that the cell list is meant to reproduce.
 *
 * A pair force matrix `w` holds, at `w[i][j]`, one component of the force that
 * particle `j` exerts on particle `i`; the loops add `w[i][j]` to `i` and
 * subtract it from `j` once per visited pair (i, j).
 */
module ForceField {
  import opened Periodic
  import opened Parameters
  import opened CellList
  import opened Sums

  /** The interaction test as written: `dr2 * (1 - dr2) > 0`. */
  predicate InCutoff(dr2: real)
  {
    dr2 * (1.0 - dr2) > 0.0
  }

  /** Squared minimum-image distance between (xi, yi) and (xj, yj). */
  function Dr2(len: real, xi: real, yi: real, xj: real, yj: real): real
    requires len > 0.0
  {
    SqNorm(PbcSym(xi - xj, len), PbcSym(yi - yj, len))
  }

  /** Squared length of the displacement (dx, dy). */
  function SqNorm(dx: real, dy: real): real
  {
    dx * dx + dy * dy
  }

  /** Scalar factor of the harmonic-sphere force at squared distance `dr2`. */
  function Magnitude(k: real, rsqrt: real -> real, dr2: real): real
  {
    k * (rsqrt(dr2) - 1.0)
  }

  /** The vector u * (dx, dy). */
  function Along(u: real, dx: real, dy: real): (real, real)
  {
    (u * dx, u * dy)
  }

  /** Force for a given (already wrapped) displacement (dx, dy): the magnitude times the displacement inside the cutoff, nothing outside. */
  function CentralForce(k: real, rsqrt: real -> real, dx: real, dy: real): (real, real)
  {
    var dr2 := SqNorm(dx, dy);
    if InCutoff(dr2) then Along(Magnitude(k, rsqrt, dr2), dx, dy)
    else
      (0.0, 0.0)
  }

  /** Force exerted on the particle at (xi, yi) by the one at (xj, yj), through the minimum-image displacement. */
  function PairForce(len: real, k: real, rsqrt: real -> real, xi: real, yi: real, xj: real, yj: real): (real, real)
    requires len > 0.0
  {
    CentralForce(k, rsqrt, PbcSym(xi - xj, len), PbcSym(yi - yj, len))
  }

  /** The pair force and the squared distance in terms of the wrapped displacement. */
  lemma PairForceUnfold(len: real, k: real, rsqrt: real -> real, xi: real, yi: real, xj: real, yj: real)
    requires len > 0.0
    ensures PairForce(len, k, rsqrt, xi, yi, xj, yj) == CentralForce(k, rsqrt, PbcSym(xi - xj, len), PbcSym(yi - yj, len))
    ensures Dr2(len, xi, yi, xj, yj) == SqNorm(PbcSym(xi - xj, len), PbcSym(yi - yj, len))
  {
  }

  /** Inside the cutoff the force is the magnitude at `dr2` times the displacement. */
  lemma CentralForceInside(k: real, rsqrt: real -> real, dx: real, dy: real, dr2: real, u: real)
    requires dr2 == SqNorm(dx, dy) && InCutoff(dr2) && u == Magnitude(k, rsqrt, dr2)
    ensures CentralForce(k, rsqrt, dx, dy) == (u * dx, u * dy)
  {
    assert InCutoff(SqNorm(dx, dy));
    var f := CentralForce(k, rsqrt, dx, dy);
    assert f.0 == Magnitude(k, rsqrt, SqNorm(dx, dy)) * dx;
    assert f.0 == u * dx;
    assert f.1 == u * dy;
    assert f == (f.0, f.1);
  }

  /** Outside the cutoff there is no force. */
  lemma CentralForceOutside(k: real, rsqrt: real -> real, dx: real, dy: real, dr2: real)
    requires dr2 == SqNorm(dx, dy) && !InCutoff(dr2)
    ensures CentralForce(k, rsqrt, dx, dy) == (0.0, 0.0)
  {
    assert !InCutoff(SqNorm(dx, dy));
  }

  /** Component of the force `f` along the displacement (dx, dy), times the displacement's length. */
  function Radial(f: (real, real), dx: real, dy: real): real
  {
    f.0 * dx + f.1 * dy
  }

  /** A force u * (dx, dy) projects on (dx, dy) as u times the squared length. */
  lemma ScaledProjection(u: real, dx: real, dy: real)
    ensures Radial(Along(u, dx, dy), dx, dy) == u * SqNorm(dx, dy)
  {
  }

  /** (u*dx)*dy equals (u*dy)*dx. */
  lemma ScaledCross(u: real, dx: real, dy: real)
    ensures (u * dx) * dy == (u * dy) * dx
  {
  }

  /** Inside the cutoff the force is u * (dx, dy) with u the magnitude, and its radial component is u * dr2. */
  lemma RadialInside(k: real, rsqrt: real -> real, dx: real, dy: real)
    requires InCutoff(SqNorm(dx, dy))
    ensures CentralForce(k, rsqrt, dx, dy) == Along(Magnitude(k, rsqrt, SqNorm(dx, dy)), dx, dy)
    ensures Radial(CentralForce(k, rsqrt, dx, dy), dx, dy) == Magnitude(k, rsqrt, SqNorm(dx, dy)) * SqNorm(dx, dy)
  {
    ScaledProjection(Magnitude(k, rsqrt, SqNorm(dx, dy)), dx, dy);
  }

  /**
   * The force is central (parallel to the displacement: f.0 * dy == f.1 * dx)
   * and vanishes unless 0 < dr2 < 1.
   */
  lemma CentralForceIsCentral(k: real, rsqrt: real -> real, dx: real, dy: real)
    ensures var f := CentralForce(k, rsqrt, dx, dy);
      && f.0 * dy == f.1 * dx
      && (!(0.0 < SqNorm(dx, dy) < 1.0) ==> f == (0.0, 0.0))
  {
    var dr2 := SqNorm(dx, dy);
    CutoffIsStrict(dr2);
    if InCutoff(dr2) {
      var u := Magnitude(k, rsqrt, dr2);
      CentralForceInside(k, rsqrt, dx, dy, dr2, u);
      ScaledCross(u, dx, dy);
    } else {
      CentralForceOutside(k, rsqrt, dx, dy, dr2);
    }
  }

  /**
   * The pair force lies along the minimum-image displacement from j to i and
   * is 0 unless the squared distance is in the open interval (0, 1).
   */
  lemma PairForceCentral(len: real, k: real, rsqrt: real -> real, xi: real, yi: real, xj: real, yj: real)
    requires len > 0.0
    ensures var dx := PbcSym(xi - xj, len); var dy := PbcSym(yi - yj, len);
      var f := PairForce(len, k, rsqrt, xi, yi, xj, yj);
      && f.0 * dy == f.1 * dx
      && (!(0.0 < Dr2(len, xi, yi, xj, yj) < 1.0) ==> f == (0.0, 0.0))
  {
    var dx := PbcSym(xi - xj, len);
    var dy := PbcSym(yi - yj, len);
    assert PairForce(len, k, rsqrt, xi, yi, xj, yj) == CentralForce(k, rsqrt, dx, dy);
    assert Dr2(len, xi, yi, xj, yj) == SqNorm(dx, dy);
    CentralForceIsCentral(k, rsqrt, dx, dy);
  }

  /** `dr2 * (1 - dr2) > 0` holds exactly on the open interval 0 < dr2 < 1: coincident points and pairs at distance 1 or more do not interact. */
  lemma CutoffIsStrict(dr2: real)
    ensures InCutoff(dr2) <==> 0.0 < dr2 < 1.0
  {
    if 0.0 < dr2 < 1.0 {
      assert 1.0 - dr2 > 0.0;
    } else if dr2 <= 0.0 {
      assert dr2 * (1.0 - dr2) <= 0.0;
    } else {
      assert dr2 * (1.0 - dr2) <= 0.0;
    }
  }

  /** `r` is the reciprocal square root of `x`. */
  predicate IsRsqrtAt(rsqrt: real -> real, x: real)
  {
    rsqrt(x) > 0.0 && rsqrt(x) * rsqrt(x) * x == 1.0
  }

  /** Inside the cutoff the reciprocal square root exceeds 1, so a non-negative strength gives a non-negative factor. */
  lemma MagnitudeNonNegative(k: real, rsqrt: real -> real, dr2: real)
    requires k >= 0.0
    requires 0.0 < dr2 < 1.0
    requires IsRsqrtAt(rsqrt, dr2)
    ensures Magnitude(k, rsqrt, dr2) >= 0.0
    ensures k > 0.0 ==> Magnitude(k, rsqrt, dr2) > 0.0
  {
    var r := rsqrt(dr2);
    RsqrtAboveOne(r, dr2);
    ProductSigns(k, r - 1.0);
  }

  /** A positive r with r * r * x == 1 for 0 < x < 1 exceeds 1. */
  lemma RsqrtAboveOne(r: real, x: real)
    requires r > 0.0 && r * r * x == 1.0
    requires 0.0 < x < 1.0
    ensures r > 1.0
  {
  }

  lemma ProductSigns(a: real, b: real)
    requires a >= 0.0 && b > 0.0
    ensures a * b >= 0.0
    ensures a > 0.0 ==> a * b > 0.0
  {
  }

  /**
   * Inside the cutoff the force is a multiple u >= 0 of the displacement, so
   * its projection on the displacement is non-negative (positive when k > 0).
   */
  lemma CentralForceRepulsive(k: real, rsqrt: real -> real, dx: real, dy: real)
    requires k >= 0.0
    requires 0.0 < SqNorm(dx, dy) < 1.0
    requires IsRsqrtAt(rsqrt, SqNorm(dx, dy))
    ensures CentralForce(k, rsqrt, dx, dy) == Along(Magnitude(k, rsqrt, SqNorm(dx, dy)), dx, dy)
    ensures Magnitude(k, rsqrt, SqNorm(dx, dy)) >= 0.0
    ensures Radial(CentralForce(k, rsqrt, dx, dy), dx, dy) >= 0.0
    ensures k > 0.0 ==> Radial(CentralForce(k, rsqrt, dx, dy), dx, dy) > 0.0
  {
    CutoffIsStrict(SqNorm(dx, dy));
    MagnitudeNonNegative(k, rsqrt, SqNorm(dx, dy));
    RadialInside(k, rsqrt, dx, dy);
    ProductSigns(Magnitude(k, rsqrt, SqNorm(dx, dy)), SqNorm(dx, dy));
  }

  /**
   * The pair force is repulsive: for a non-negative strength it is a
   * non-negative multiple of the displacement from j to i, so it pushes i away
   * from j (strictly, when the strength is positive).
   */
  lemma PairForceRepulsive(len: real, k: real, rsqrt: real -> real, xi: real, yi: real, xj: real, yj: real)
    requires len > 0.0 && k >= 0.0
    requires 0.0 < Dr2(len, xi, yi, xj, yj) < 1.0
    requires IsRsqrtAt(rsqrt, Dr2(len, xi, yi, xj, yj))
    ensures PairForce(len, k, rsqrt, xi, yi, xj, yj)
      == Along(Magnitude(k, rsqrt, Dr2(len, xi, yi, xj, yj)), PbcSym(xi - xj, len), PbcSym(yi - yj, len))
    ensures Magnitude(k, rsqrt, Dr2(len, xi, yi, xj, yj)) >= 0.0
    ensures Radial(PairForce(len, k, rsqrt, xi, yi, xj, yj), PbcSym(xi - xj, len), PbcSym(yi - yj, len)) >= 0.0
    ensures k > 0.0 ==> Radial(PairForce(len, k, rsqrt, xi, yi, xj, yj), PbcSym(xi - xj, len), PbcSym(yi - yj, len)) > 0.0
  {
    PairForceUnfold(len, k, rsqrt, xi, yi, xj, yj);
    CentralForceRepulsive(k, rsqrt, PbcSym(xi - xj, len), PbcSym(yi - yj, len));
  }

  /** A particle exerts no force on itself: the displacement wraps to 0 and 0 is outside the cutoff. */
  lemma SelfPairVanishes(len: real, k: real, rsqrt: real -> real, x: real, y: real)
    requires len > 0.0
    ensures PairForce(len, k, rsqrt, x, y, x, y) == (0.0, 0.0)
  {
    PbcSymFixesInRange(0.0, len);
    assert PairForce(len, k, rsqrt, x, y, x, y) == CentralForce(k, rsqrt, 0.0, 0.0);
    CentralForceOutside(k, rsqrt, 0.0, 0.0, 0.0);
  }

  /**
   * Two particles half a unit apart along x (dr2 = 0.25, so 1/sqrt(dr2) = 2)
   * push each other apart with force k/2: the factor u is k, and the force is
   * u times the displacement 0.5.
   */
  lemma HalfUnitApart(len: real, k: real, rsqrt: real -> real, x: real, y: real)
    requires len > 1.0
    requires rsqrt(0.25) == 2.0
    ensures PairForce(len, k, rsqrt, x + 0.5, y, x, y) == (0.5 * k, 0.0)
    ensures PairForce(len, k, rsqrt, x, y, x + 0.5, y) == (-0.5 * k, 0.0)
  {
    assert (x + 0.5) - x == 0.5 && x - (x + 0.5) == -0.5 && y - y == 0.0;
    PbcSymFixesInRange(0.5, len);
    PbcSymFixesInRange(-0.5, len);
    PbcSymFixesInRange(0.0, len);
    PairForceUnfold(len, k, rsqrt, x + 0.5, y, x, y);
    PairForceUnfold(len, k, rsqrt, x, y, x + 0.5, y);
    assert SqNorm(0.5, 0.0) == 0.25 && SqNorm(-0.5, 0.0) == 0.25;
    assert InCutoff(0.25);
    assert Magnitude(k, rsqrt, 0.25) == k;
    CentralForceInside(k, rsqrt, 0.5, 0.0, 0.25, k);
    CentralForceInside(k, rsqrt, -0.5, 0.0, 0.25, k);
  }

  /**
   * Newton's third law for one pair: in a box of length at least 2 (twice the
   * cutoff) the force of i on j is the negation of the force of j on i.
   */
  lemma PairForceAntisymmetric(len: real, k: real, rsqrt: real -> real, xi: real, yi: real, xj: real, yj: real)
    requires len >= 2.0
    ensures var f := PairForce(len, k, rsqrt, xi, yi, xj, yj);
      PairForce(len, k, rsqrt, xj, yj, xi, yi) == (-f.0, -f.1)
  {
    PairForceUnfold(len, k, rsqrt, xi, yi, xj, yj);
    PairForceUnfold(len, k, rsqrt, xj, yj, xi, yi);
    assert xj - xi == -(xi - xj) && yj - yi == -(yi - yj);
    NegatedDisplacement(len, xi - xj, yi - yj);
    CentralForceNegated(k, rsqrt, PbcSym(xi - xj, len), PbcSym(yi - yj, len), PbcSym(xj - xi, len), PbcSym(yj - yi, len));
  }

  /**
   * Negating a displacement keeps its wrapped squared length, and inside the
   * cutoff (with len >= 2) it negates both wrapped components.
   */
  lemma NegatedDisplacement(len: real, d: real, e: real)
    requires len >= 2.0
    ensures SqNorm(PbcSym(-d, len), PbcSym(-e, len)) == SqNorm(PbcSym(d, len), PbcSym(e, len))
    ensures InCutoff(SqNorm(PbcSym(d, len), PbcSym(e, len))) ==> PbcSym(-d, len) == -PbcSym(d, len) && PbcSym(-e, len) == -PbcSym(e, len)
  {
    PbcSymNegate(d, len);
    PbcSymNegate(e, len);
    CutoffIsStrict(SqNorm(PbcSym(d, len), PbcSym(e, len)));
    if InCutoff(SqNorm(PbcSym(d, len), PbcSym(e, len))) {
      WrappedInsideCutoff(PbcSym(d, len), PbcSym(e, len), len);
      WrappedInsideCutoff(PbcSym(e, len), PbcSym(d, len), len);
    }
  }

  /** Two displacements of equal squared length, opposite inside the cutoff, give opposite forces. */
  lemma CentralForceNegated(k: real, rsqrt: real -> real, dx: real, dy: real, dx': real, dy': real)
    requires SqNorm(dx', dy') == SqNorm(dx, dy)
    requires InCutoff(SqNorm(dx, dy)) ==> dx' == -dx && dy' == -dy
    ensures var f := CentralForce(k, rsqrt, dx, dy);
      CentralForce(k, rsqrt, dx', dy') == (-f.0, -f.1)
  {
    if InCutoff(SqNorm(dx, dy)) {
      CentralForceOdd(k, rsqrt, dx, dy);
    } else {
      CentralForceOutside(k, rsqrt, dx, dy, SqNorm(dx, dy));
      CentralForceOutside(k, rsqrt, dx', dy', SqNorm(dx, dy));
    }
  }

  /** Reversing the displacement reverses the force. */
  lemma CentralForceOdd(k: real, rsqrt: real -> real, dx: real, dy: real)
    ensures var f := CentralForce(k, rsqrt, dx, dy);
      CentralForce(k, rsqrt, -dx, -dy) == (-f.0, -f.1)
  {
    var dr2 := SqNorm(dx, dy);
    assert SqNorm(-dx, -dy) == dr2;
    if InCutoff(dr2) {
      var u := Magnitude(k, rsqrt, dr2);
      CentralForceInside(k, rsqrt, dx, dy, dr2, u);
      CentralForceInside(k, rsqrt, -dx, -dy, dr2, u);
      var f := CentralForce(k, rsqrt, dx, dy);
      var g := CentralForce(k, rsqrt, -dx, -dy);
      assert g.0 == u * -dx == -(u * dx) == -f.0;
      assert g.1 == u * -dy == -(u * dy) == -f.1;
      assert g == (g.0, g.1);
    } else {
      CentralForceOutside(k, rsqrt, dx, dy, dr2);
      CentralForceOutside(k, rsqrt, -dx, -dy, dr2);
    }
  }

  /** A displacement component inside the cutoff is not the lower end -len/2 of the centred range when len >= 2. */
  lemma WrappedInsideCutoff(d: real, e: real, len: real)
    requires len >= 2.0
    requires SqNorm(d, e) < 1.0
    ensures d != -len / 2.0
  {
  }

  /** `w` is an n-by-n matrix. */
  ghost predicate IsMatrix(w: seq<seq<real>>, n: nat)
  {
    |w| == n && forall i :: 0 <= i < n ==> |w[i]| == n
  }

  ghost predicate Antisymmetric(w: seq<seq<real>>, n: nat)
    requires IsMatrix(w, n)
  {
    forall i, j :: 0 <= i < n && 0 <= j < n ==> w[j][i] == -w[i][j]
  }

  /** x components of all pair forces of a configuration. */
  ghost function ForceMatrixX(p: Params, m: Maths, xs: seq<real>, ys: seq<real>): (w: seq<seq<real>>)
    requires p.len > 0.0 && |xs| == |ys|
    ensures IsMatrix(w, |xs|)
  {
    seq(|xs|, i requires 0 <= i < |xs| =>
      seq(|xs|, j requires 0 <= j < |xs| => PairForce(p.len, p.potStrength, m.rsqrt, xs[i], ys[i], xs[j], ys[j]).0))
  }

  /** y components of all pair forces of a configuration. */
  ghost function ForceMatrixY(p: Params, m: Maths, xs: seq<real>, ys: seq<real>): (w: seq<seq<real>>)
    requires p.len > 0.0 && |xs| == |ys|
    ensures IsMatrix(w, |xs|)
  {
    seq(|xs|, i requires 0 <= i < |xs| =>
      seq(|xs|, j requires 0 <= j < |xs| => PairForce(p.len, p.potStrength, m.rsqrt, xs[i], ys[i], xs[j], ys[j]).1))
  }

  /** One pair update: `+w` on particle a, then `-w` on particle b. */
  function Deposit(fs: seq<real>, a: int, b: int, w: real): (r: seq<real>)
    requires 0 <= a < |fs| && 0 <= b < |fs|
  {
    var t := fs[a := fs[a] + w];
    t[b := t[b] - w]
  }

  /** The buffer `fs` after the pair updates of `v`, in order. */
  ghost function Deposits(fs: seq<real>, w: seq<seq<real>>, v: seq<(int, int)>): (r: seq<real>)
    requires IsMatrix(w, |fs|) && ValidPairs(v, |fs|)
    ensures |r| == |fs|
  {
    if |v| == 0 then fs
    else
      var p := v[|v| - 1];
      Deposit(Deposits(fs, w, v[..|v| - 1]), p.0, p.1, w[p.0][p.1])
  }

  /** The force buffer after the zeroing loop and the pair updates of `v`, in order. */
  ghost function Accumulate(w: seq<seq<real>>, v: seq<(int, int)>, n: nat): (r: seq<real>)
    requires IsMatrix(w, n) && ValidPairs(v, n)
    ensures |r| == n
  {
    Deposits(Zeros(n), w, v)
  }

  /** One more pair is one more deposit. */
  lemma DepositsSnoc(fs: seq<real>, w: seq<seq<real>>, v: seq<(int, int)>, p: (int, int))
    requires IsMatrix(w, |fs|) && ValidPairs(v, |fs|)
    requires 0 <= p.0 < |fs| && 0 <= p.1 < |fs|
    ensures ValidPairs(v + [p], |fs|)
    ensures Deposits(fs, w, v + [p]) == Deposit(Deposits(fs, w, v), p.0, p.1, w[p.0][p.1])
  {
    assert (v + [p])[..|v|] == v;
  }

  /** Updating with `a` and then with `b` is updating with `a + b`: the loops can be taken one level at a time. */
  lemma {:induction false} DepositsAppend(fs: seq<real>, w: seq<seq<real>>, a: seq<(int, int)>, b: seq<(int, int)>)
    requires IsMatrix(w, |fs|) && ValidPairs(a, |fs|) && ValidPairs(b, |fs|)
    ensures ValidPairs(a + b, |fs|)
    ensures Deposits(fs, w, a + b) == Deposits(Deposits(fs, w, a), w, b)
  {
    if |b| == 0 {
      assert a + b == a;
    } else {
      var b' := b[..|b| - 1];
      assert (a + b)[..|a + b| - 1] == a + b';
      assert (a + b)[|a + b| - 1] == b[|b| - 1];
      DepositsAppend(fs, w, a, b');
    }
  }
  /** The neighbour loop: neighbour box `q` of `b1`, which is `b2`, deposits the pairs of the two boxes. */
  lemma DepositsNextNeighbour(fs: seq<real>, w: seq<seq<real>>, boxes: Boxes, b1: nat, q: nat, oncePerPair: bool, b2: int, halfSelf: bool)
    requires boxes.WellFormed() && |fs| == boxes.nParts && IsMatrix(w, |fs|)
    requires b1 < boxes.nBoxes && q < |boxes.nbrsPos[b1]|
    requires b2 == boxes.nbrsPos[b1][q] && halfSelf == (oncePerPair && b2 == b1)
    ensures ValidPairs(Stencil(boxes, b1, q, oncePerPair), |fs|)
    ensures ValidPairs(BoxPairs(boxes.partsOfBox[b1], boxes.partsOfBox[b2], halfSelf), |fs|)
    ensures ValidPairs(Stencil(boxes, b1, q + 1, oncePerPair), |fs|)
    ensures Deposits(fs, w, Stencil(boxes, b1, q + 1, oncePerPair))
         == Deposits(Deposits(fs, w, Stencil(boxes, b1, q, oncePerPair)), w, BoxPairs(boxes.partsOfBox[b1], boxes.partsOfBox[b2], halfSelf))
  {
    StencilValid(boxes, b1, q, oncePerPair);
    BoxPairsValid(boxes.partsOfBox[b1], boxes.partsOfBox[b2], halfSelf, |fs|);
    DepositsAppend(fs, w, Stencil(boxes, b1, q, oncePerPair), BoxPairs(boxes.partsOfBox[b1], boxes.partsOfBox[b2], halfSelf));
  }

  /** The loop over the first box's particles: particle `ps1[r]` deposits its row. */
  lemma DepositsNextRow(fs: seq<real>, w: seq<seq<real>>, ps1: seq<int>, ps2: seq<int>, halfSelf: bool, r: nat)
    requires IsMatrix(w, |fs|) && r < |ps1|
    requires forall k :: 0 <= k < |ps1| ==> 0 <= ps1[k] < |fs|
    requires forall k :: 0 <= k < |ps2| ==> 0 <= ps2[k] < |fs|
    ensures ValidPairs(BoxPairs(ps1[..r], ps2, halfSelf), |fs|)
    ensures ValidPairs(Row(ps1[r], ps2, halfSelf), |fs|)
    ensures ValidPairs(BoxPairs(ps1[..r + 1], ps2, halfSelf), |fs|)
    ensures Deposits(fs, w, BoxPairs(ps1[..r + 1], ps2, halfSelf))
         == Deposits(Deposits(fs, w, BoxPairs(ps1[..r], ps2, halfSelf)), w, Row(ps1[r], ps2, halfSelf))
  {
    BoxPairsValid(ps1[..r], ps2, halfSelf, |fs|);
    RowValid(ps1[r], ps2, halfSelf, |fs|);
    assert ps1[..r + 1][..r] == ps1[..r];
    DepositsAppend(fs, w, BoxPairs(ps1[..r], ps2, halfSelf), Row(ps1[r], ps2, halfSelf));
  }

  /** The innermost loop: the pair (i, ps2[s]) is one more deposit if it is visited, and nothing otherwise. */
  lemma DepositsNextPair(fs: seq<real>, w: seq<seq<real>>, i: int, ps2: seq<int>, halfSelf: bool, s: nat)
    requires IsMatrix(w, |fs|) && 0 <= i < |fs| && s < |ps2|
    requires forall k :: 0 <= k < |ps2| ==> 0 <= ps2[k] < |fs|
    ensures ValidPairs(Row(i, ps2[..s], halfSelf), |fs|)
    ensures ValidPairs(Row(i, ps2[..s + 1], halfSelf), |fs|)
    ensures Deposits(fs, w, Row(i, ps2[..s + 1], halfSelf))
         == if Visited(halfSelf, i, ps2[s]) then Deposit(Deposits(fs, w, Row(i, ps2[..s], halfSelf)), i, ps2[s], w[i][ps2[s]])
            else Deposits(fs, w, Row(i, ps2[..s], halfSelf))
  {
    var e := ps2[s];
    var r0 := Row(i, ps2[..s], halfSelf);
    var last := if Visited(halfSelf, i, e) then [(i, e)] else [];
    RowValid(i, ps2[..s], halfSelf, |fs|);
    RowValid(i, ps2[..s + 1], halfSelf, |fs|);
    assert Row(i, ps2[..s + 1], halfSelf) == r0 + last by {
      assert ps2[..s + 1][..s] == ps2[..s];
    }
    if Visited(halfSelf, i, e) {
      DepositsSnoc(fs, w, r0, (i, e));
    } else {
      assert r0 + last == r0;
    }
  }

  /** The outer force loop: box `b1` deposits its stencil onto the pairs of the boxes before it. */
  lemma AccumulateNextBox(w: seq<seq<real>>, boxes: Boxes, b1: nat, oncePerPair: bool)
    requires boxes.WellFormed() && IsMatrix(w, boxes.nParts) && b1 < boxes.nBoxes
    ensures ValidPairs(VisitsUpTo(boxes, b1, oncePerPair), boxes.nParts)
    ensures ValidPairs(Stencil(boxes, b1, |boxes.nbrsPos[b1]|, oncePerPair), boxes.nParts)
    ensures ValidPairs(VisitsUpTo(boxes, b1 + 1, oncePerPair), boxes.nParts)
    ensures Accumulate(w, VisitsUpTo(boxes, b1 + 1, oncePerPair), boxes.nParts)
         == Deposits(Accumulate(w, VisitsUpTo(boxes, b1, oncePerPair), boxes.nParts), w, Stencil(boxes, b1, |boxes.nbrsPos[b1]|, oncePerPair))
  {
    VisitsValid(boxes, b1, oncePerPair);
    StencilValid(boxes, b1, |boxes.nbrsPos[b1]|, oncePerPair);
    DepositsAppend(Zeros(boxes.nParts), w, VisitsUpTo(boxes, b1, oncePerPair), Stencil(boxes, b1, |boxes.nbrsPos[b1]|, oncePerPair));
  }

  /** Depositing a zero force changes nothing: the branch that skips a non-interacting pair agrees with the deposit. */
  lemma DepositZero(fs: seq<real>, a: int, b: int)
    requires 0 <= a < |fs| && 0 <= b < |fs|
    ensures Deposit(fs, a, b, 0.0) == fs
  {
  }

  /** Each deposit adds and removes the same amount, so the total force stays 0 (Newton's third law). */
  lemma {:induction false} AccumulateConserves(w: seq<seq<real>>, v: seq<(int, int)>, n: nat)
    requires IsMatrix(w, n) && ValidPairs(v, n)
    ensures Sum(Accumulate(w, v, n)) == 0.0
  {
    if |v| == 0 {
      SumZeros(n);
    } else {
      var p := v[|v| - 1];
      var fs := Accumulate(w, v[..|v| - 1], n);
      AccumulateConserves(w, v[..|v| - 1], n);
      var t := fs[p.0 := fs[p.0] + w[p.0][p.1]];
      SumUpdate(fs, p.0, fs[p.0] + w[p.0][p.1]);
      SumUpdate(t, p.1, t[p.1] - w[p.0][p.1]);
    }
  }

  /** With no pair force anywhere, the buffer stays all zeros. */
  lemma {:induction false} AccumulateZeroMatrix(w: seq<seq<real>>, v: seq<(int, int)>, n: nat)
    requires IsMatrix(w, n) && ValidPairs(v, n)
    requires forall i, j :: 0 <= i < n && 0 <= j < n ==> w[i][j] == 0.0
    ensures Accumulate(w, v, n) == Zeros(n)
  {
    if |v| > 0 {
      AccumulateZeroMatrix(w, v[..|v| - 1], n);
    }
  }

  /** Row i of the pair-visit counts: how often {i, j} was visited, for each j. */
  ghost function CountRow(v: seq<(int, int)>, i: int, n: nat): (c: seq<real>)
    ensures |c| == n
  {
    seq(n, j => PairCount(v, i, j) as real)
  }

  /** What one visit p contributes to particle i, spread over the partners j. */
  ghost function MatchRow(p: (int, int), i: int, n: nat): (c: seq<real>)
    ensures |c| == n
  {
    seq(n, j => if p == (i, j) || p == (j, i) then 1.0 else 0.0)
  }

  /** With an antisymmetric matrix, the deposit of visit p changes particle i by the pair force of i's partner in p. */
  lemma MatchContribution(w: seq<seq<real>>, fs: seq<real>, p: (int, int), i: int, n: nat)
    requires IsMatrix(w, n) && Antisymmetric(w, n) && |fs| == n
    requires 0 <= p.0 < n && 0 <= p.1 < n && 0 <= i < n
    ensures Deposit(fs, p.0, p.1, w[p.0][p.1])[i] == fs[i] + Dot(MatchRow(p, i, n), w[i])
  {
    var c := MatchRow(p, i, n);
    if p.0 == i && p.1 == i {
      DotSelect(c, w[i], i);
    } else if p.0 == i {
      DotSelect(c, w[i], p.1);
    } else if p.1 == i {
      DotSelect(c, w[i], p.0);
    } else {
      DotSelect(c, w[i], -1);
    }
  }

  /** The accumulated force on i is the pair force of every partner j, weighted by how often {i, j} was visited. */
  lemma {:induction false} AccumulateAt(w: seq<seq<real>>, v: seq<(int, int)>, n: nat, i: int)
    requires IsMatrix(w, n) && Antisymmetric(w, n) && ValidPairs(v, n)
    requires 0 <= i < n
    ensures Accumulate(w, v, n)[i] == Dot(CountRow(v, i, n), w[i])
  {
    if |v| == 0 {
      DotSelect(CountRow(v, i, n), w[i], -1);
    } else {
      var u := v[..|v| - 1];
      var p := v[|v| - 1];
      AccumulateAt(w, u, n, i);
      MatchContribution(w, Accumulate(w, u, n), p, i, n);
      DotAdd(CountRow(u, i, n), MatchRow(p, i, n), CountRow(v, i, n), w[i]);
    }
  }

  /** The brute-force reference: every particle feels the sum of the pair forces of all particles. */
  ghost function AllPairs(w: seq<seq<real>>): (r: seq<real>)
    requires forall i :: 0 <= i < |w| ==> |w[i]| == |w|
    ensures |r| == |w|
  {
    seq(|w|, i requires 0 <= i < |w| => Sum(w[i]))
  }

  /**
   * If every unordered pair with a non-zero force is visited exactly once (in
   * one order or the other), accumulating over the visits gives the all-pairs
   * sum, whatever the visiting order and however often non-interacting pairs
   * are visited.
   */
  lemma AccumulateMatchesAllPairs(w: seq<seq<real>>, v: seq<(int, int)>, n: nat)
    requires IsMatrix(w, n) && Antisymmetric(w, n) && ValidPairs(v, n)
    requires forall i, j :: 0 <= i < n && 0 <= j < n && i != j && w[i][j] != 0.0 ==> PairCount(v, i, j) == 1
    ensures Accumulate(w, v, n) == AllPairs(w)
  {
    forall i | 0 <= i < n
      ensures Accumulate(w, v, n)[i] == AllPairs(w)[i]
    {
      AccumulateAt(w, v, n, i);
      var c := CountRow(v, i, n);
      forall j | 0 <= j < n
        ensures c[j] * w[i][j] == w[i][j]
      {
        if w[i][j] != 0.0 {
          assert w[i][i] == -w[i][i];
          assert i != j;
        }
      }
      DotPointwise(c, w[i]);
    }
  }

  /**
   * The forces `calcInternalForces` leaves in `forces[0]` and `forces[1]`; their
   * totals are 0 (Newton's third law). With `oncePerPair` false the loops are
   * as written; with it true a box paired with itself visits i < j only.
   */
  ghost function InternalForces(p: Params, m: Maths, boxes: Boxes, xs: seq<real>, ys: seq<real>, oncePerPair: bool): (f: (seq<real>, seq<real>))
    requires p.len > 0.0 && boxes.WellFormed()
    requires |xs| == boxes.nParts && |ys| == boxes.nParts
    ensures |f.0| == boxes.nParts && |f.1| == boxes.nParts
    ensures Sum(f.0) == 0.0 && Sum(f.1) == 0.0
  {
    var v := Visits(boxes, oncePerPair);
    AccumulateConserves(ForceMatrixX(p, m, xs, ys), v, boxes.nParts);
    AccumulateConserves(ForceMatrixY(p, m, xs, ys), v, boxes.nParts);
    (Accumulate(ForceMatrixX(p, m, xs, ys), v, boxes.nParts), Accumulate(ForceMatrixY(p, m, xs, ys), v, boxes.nParts))
  }

  /** The brute-force O(n^2) forces with minimum-image displacements. */
  ghost function AllPairsForces(p: Params, m: Maths, xs: seq<real>, ys: seq<real>): (f: (seq<real>, seq<real>))
    requires p.len > 0.0 && |xs| == |ys|
    ensures |f.0| == |xs| && |f.1| == |xs|
  {
    (AllPairs(ForceMatrixX(p, m, xs, ys)), AllPairs(ForceMatrixY(p, m, xs, ys)))
  }

  /** The cell list's contract: every pair within the cutoff is visited exactly once, in one order or the other. */
  ghost predicate EachInteractingPairOnce(len: real, boxes: Boxes, xs: seq<real>, ys: seq<real>, oncePerPair: bool)
    requires len > 0.0 && boxes.WellFormed()
    requires |xs| == boxes.nParts && |ys| == boxes.nParts
  {
    forall i, j :: 0 <= i < boxes.nParts && 0 <= j < boxes.nParts && i != j && InCutoff(Dr2(len, xs[i], ys[i], xs[j], ys[j]))
      ==> PairCount(Visits(boxes, oncePerPair), i, j) == 1
  }

  /** Both pair force matrices are antisymmetric when the box is at least twice the cutoff. */
  lemma ForceMatricesAntisymmetric(p: Params, m: Maths, xs: seq<real>, ys: seq<real>)
    requires p.len >= 2.0 && |xs| == |ys|
    ensures Antisymmetric(ForceMatrixX(p, m, xs, ys), |xs|)
    ensures Antisymmetric(ForceMatrixY(p, m, xs, ys), |xs|)
  {
    forall i, j | 0 <= i < |xs| && 0 <= j < |xs|
      ensures ForceMatrixX(p, m, xs, ys)[j][i] == -ForceMatrixX(p, m, xs, ys)[i][j]
      ensures ForceMatrixY(p, m, xs, ys)[j][i] == -ForceMatrixY(p, m, xs, ys)[i][j]
    {
      PairForceAntisymmetric(p.len, p.potStrength, m.rsqrt, xs[i], ys[i], xs[j], ys[j]);
    }
  }

  /**
   * The cell-list computation equals the brute-force all-pairs computation
   * whenever the loops visit every interacting pair exactly once and the box
   * is at least twice the cutoff.
   */
  lemma CellListMatchesAllPairs(p: Params, m: Maths, boxes: Boxes, xs: seq<real>, ys: seq<real>, oncePerPair: bool)
    requires p.len >= 2.0 && boxes.WellFormed()
    requires |xs| == boxes.nParts && |ys| == boxes.nParts
    requires EachInteractingPairOnce(p.len, boxes, xs, ys, oncePerPair)
    ensures InternalForces(p, m, boxes, xs, ys, oncePerPair) == AllPairsForces(p, m, xs, ys)
  {
    var n := boxes.nParts;
    var v := Visits(boxes, oncePerPair);
    var wx := ForceMatrixX(p, m, xs, ys);
    var wy := ForceMatrixY(p, m, xs, ys);
    ForceMatricesAntisymmetric(p, m, xs, ys);
    forall i, j | 0 <= i < n && 0 <= j < n && i != j && (wx[i][j] != 0.0 || wy[i][j] != 0.0)
      ensures PairCount(v, i, j) == 1
    {
      PairForceCentral(p.len, p.potStrength, m.rsqrt, xs[i], ys[i], xs[j], ys[j]);
      CutoffIsStrict(Dr2(p.len, xs[i], ys[i], xs[j], ys[j]));
    }
    AccumulateMatchesAllPairs(wx, v, n);
    AccumulateMatchesAllPairs(wy, v, n);
  }

  /**
   * The corrected loops reproduce the all-pairs forces on any cell list in
   * which every particle sits in exactly one box, every box lists itself once
   * among its neighbours, and the boxes of two interacting particles in
   * different boxes are paired once (a half stencil).
   */
  lemma CorrectedLoopMatchesAllPairs(p: Params, m: Maths, boxes: Boxes, home: seq<int>, xs: seq<real>, ys: seq<real>)
    requires p.len >= 2.0 && Partition(boxes, home) && ListsItselfOnce(boxes)
    requires |xs| == boxes.nParts && |ys| == boxes.nParts
    requires forall i, j :: (0 <= i < boxes.nParts && 0 <= j < boxes.nParts && i != j && home[i] != home[j]
      && InCutoff(Dr2(p.len, xs[i], ys[i], xs[j], ys[j]))) ==> PairedOnce(boxes, home[i], home[j])
    ensures InternalForces(p, m, boxes, xs, ys, true) == AllPairsForces(p, m, xs, ys)
  {
    forall i, j | 0 <= i < boxes.nParts && 0 <= j < boxes.nParts && i != j && InCutoff(Dr2(p.len, xs[i], ys[i], xs[j], ys[j]))
      ensures PairCount(Visits(boxes, true), i, j) == 1
    {
      CorrectedVisitsOnce(boxes, home, i, j);
    }
    CellListMatchesAllPairs(p, m, boxes, xs, ys, true);
  }

  /** One box holding particles 0 and 1, listing itself as its only neighbour. */
  function OneBox(): (boxes: Boxes)
    ensures boxes.WellFormed()
  {
    Boxes(2, 1, [[0]], [[0, 1]])
  }

  /** In `OneBox`, both particles live in box 0. */
  lemma OneBoxPartition()
    ensures Partition(OneBox(), [0, 0])
  {
    var boxes := OneBox();
    assert [0, 1][..1] == [0];
    assert [0][..0] == [];
    assert Count(boxes.partsOfBox[0], 0) == 1;
    assert Count(boxes.partsOfBox[0], 1) == 1;
    assert Count(boxes.nbrsPos[0], 0) == 1 by {
      assert [0][..0] == [];
    }
  }

  /** `OneBox` visits the pair {0, 1} twice with the loops as written and once with the corrected loops. */
  lemma OneBoxVisits(oncePerPair: bool)
    ensures PairCount(Visits(OneBox(), oncePerPair), 0, 1) == if oncePerPair then 1 else 2
  {
    OneBoxPartition();
    VisitCount(OneBox(), [0, 0], oncePerPair, 0, 1);
  }

  /** A sum and a dot product over two entries. */
  lemma TwoTerms(c: seq<real>, w: seq<real>)
    requires |c| == 2 && |w| == 2
    ensures Dot(c, w) == c[0] * w[0] + c[1] * w[1]
    ensures Sum(w) == w[0] + w[1]
  {
    assert c[1..][1..] == [] && w[1..][1..] == [];
    assert Dot(c[1..], w[1..]) == c[1] * w[1] + Dot(c[1..][1..], w[1..][1..]);
    assert Sum(w[1..]) == w[1] + Sum(w[1..][1..]);
  }

  /** Particle 0 at x = 0.5 and particle 1 at x = 0 in a box of length 4: the x force on 0 from 0 is 0, from 1 is k/2. */
  lemma HalfApartRow(m: Maths)
    requires m.rsqrt(0.25) == 2.0
    ensures ForceMatrixX(Params(4.0, 1.0, 0.0, 0.01), m, [0.5, 0.0], [0.0, 0.0])[0] == [0.0, 0.5]
  {
    var wx := ForceMatrixX(Params(4.0, 1.0, 0.0, 0.01), m, [0.5, 0.0], [0.0, 0.0]);
    SelfPairVanishes(4.0, 1.0, m.rsqrt, 0.5, 0.0);
    HalfUnitApart(4.0, 1.0, m.rsqrt, 0.0, 0.0);
    assert 0.0 + 0.5 == 0.5;
    assert wx[0][0] == 0.0 && wx[0][1] == 0.5;
  }

  /** In the half-apart configuration in `OneBox`, the x force on particle 0 is k/2 per visit of the pair. */
  lemma HalfApartForce(m: Maths, oncePerPair: bool)
    requires m.rsqrt(0.25) == 2.0
    ensures InternalForces(Params(4.0, 1.0, 0.0, 0.01), m, OneBox(), [0.5, 0.0], [0.0, 0.0], oncePerPair).0[0]
         == PairCount(Visits(OneBox(), oncePerPair), 0, 1) as real * 0.5
  {
    var p := Params(4.0, 1.0, 0.0, 0.01);
    var xs, ys := [0.5, 0.0], [0.0, 0.0];
    var wx := ForceMatrixX(p, m, xs, ys);
    var v := Visits(OneBox(), oncePerPair);
    ForceMatricesAntisymmetric(p, m, xs, ys);
    AccumulateAt(wx, v, 2, 0);
    HalfApartRow(m);
    TwoTerms(CountRow(v, 0, 2), wx[0]);
  }

  /**
   * The loops as written count a same-box pair twice: two particles half a
   * unit apart in one box, with the box its own neighbour, get twice the
   * all-pairs force k/2, while the corrected loops give k/2.
   */
  lemma AsWrittenDoublesSameBoxForce(m: Maths)
    requires m.rsqrt(0.25) == 2.0
    ensures InternalForces(Params(4.0, 1.0, 0.0, 0.01), m, OneBox(), [0.5, 0.0], [0.0, 0.0], false).0[0] == 1.0
    ensures InternalForces(Params(4.0, 1.0, 0.0, 0.01), m, OneBox(), [0.5, 0.0], [0.0, 0.0], true).0[0] == 0.5
    ensures AllPairsForces(Params(4.0, 1.0, 0.0, 0.01), m, [0.5, 0.0], [0.0, 0.0]).0[0] == 0.5
  {
    OneBoxVisits(false);
    OneBoxVisits(true);
    HalfApartForce(m, false);
    HalfApartForce(m, true);
    HalfApartRow(m);
    TwoTerms([0.0, 0.5], ForceMatrixX(Params(4.0, 1.0, 0.0, 0.01), m, [0.5, 0.0], [0.0, 0.0])[0]);
  }

  /** If no two particles are within the cutoff, every force is 0. */
  lemma NoContactNoForce(p: Params, m: Maths, boxes: Boxes, xs: seq<real>, ys: seq<real>, oncePerPair: bool)
    requires p.len > 0.0 && boxes.WellFormed()
    requires |xs| == boxes.nParts && |ys| == boxes.nParts
    requires forall i, j :: 0 <= i < |xs| && 0 <= j < |xs| ==> !InCutoff(Dr2(p.len, xs[i], ys[i], xs[j], ys[j]))
    ensures InternalForces(p, m, boxes, xs, ys, oncePerPair) == (Zeros(boxes.nParts), Zeros(boxes.nParts))
  {
    var n := boxes.nParts;
    forall i, j | 0 <= i < n && 0 <= j < n
      ensures ForceMatrixX(p, m, xs, ys)[i][j] == 0.0 && ForceMatrixY(p, m, xs, ys)[i][j] == 0.0
    {
      PairForceCentral(p.len, p.potStrength, m.rsqrt, xs[i], ys[i], xs[j], ys[j]);
      CutoffIsStrict(Dr2(p.len, xs[i], ys[i], xs[j], ys[j]));
    }
    AccumulateZeroMatrix(ForceMatrixX(p, m, xs, ys), Visits(boxes, oncePerPair), n);
    AccumulateZeroMatrix(ForceMatrixY(p, m, xs, ys), Visits(boxes, oncePerPair), n);
  }
}
