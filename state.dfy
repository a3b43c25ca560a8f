/**
 * The `State` class: the particle arrays of the simulation and the per-step
 * update engine `evolve` (force computation over the cell list, Euler-Maruyama
 * integration with pre-drawn noise, periodic wrap).
 */
module SimulationState {
  import opened Periodic
  import opened Parameters
  import opened CellList
  import opened Sums
  import opened ForceField
  import opened Integrator

  class State {
    const len: real
    const nParts: nat
    const potStrength: real
    const activity: real
    const dt: real
    /** The library functions `sqrt` (as 1/sqrt), `sin` and `cos`. */
    const maths: Maths

    /** `positions[0]`, `positions[1]`, `angles`, `forces[0]`, `forces[1]`, each of length `nParts`. */
    const positionsX: array<real>
    const positionsY: array<real>
    const angles: array<real>
    const forcesX: array<real>
    const forcesY: array<real>

    /** The arrays have the particle count as length and are five distinct buffers. */
    ghost predicate Valid()
      reads this
    {
      && len > 0.0
      && positionsX.Length == nParts && positionsY.Length == nParts && angles.Length == nParts
      && forcesX.Length == nParts && forcesY.Length == nParts
      && positionsX != positionsY && positionsX != angles && positionsX != forcesX && positionsX != forcesY
      && positionsY != angles && positionsY != forcesX && positionsY != forcesY
      && angles != forcesX && angles != forcesY
      && forcesX != forcesY
    }

    function Physics(): Params
    {
      Params(len, potStrength, activity, dt)
    }

    /** Current positions and orientations. */
    ghost function Configuration(): Snapshot
      reads this, positionsX, positionsY, angles
    {
      Snapshot(positionsX[..], positionsY[..], angles[..])
    }

    /**
     * Sizes every array to `nParts` and zeroes the force buffers. The initial
     * positions and orientations, uniform draws in [0, len) and [0, 2*pi), are
     * supplied as `init`.
     */
    constructor (len: real, nParts: nat, potStrength: real, activity: real, dt: real, maths: Maths, init: Snapshot)
      requires len > 0.0
      requires init.Sized(nParts) && InRange(len, init)
      ensures Valid()
      ensures fresh(positionsX) && fresh(positionsY) && fresh(angles) && fresh(forcesX) && fresh(forcesY)
      ensures this.len == len && this.nParts == nParts && this.potStrength == potStrength
      ensures this.activity == activity && this.dt == dt && this.maths == maths
      ensures Configuration() == init
      ensures InRange(len, Configuration())
      ensures forcesX[..] == Zeros(nParts) && forcesY[..] == Zeros(nParts)
    {
      this.len := len;
      this.nParts := nParts;
      this.potStrength := potStrength;
      this.activity := activity;
      this.dt := dt;
      this.maths := maths;
      positionsX := new real[nParts](i requires 0 <= i < nParts => init.xs[i]);
      positionsY := new real[nParts](i requires 0 <= i < nParts => init.ys[i]);
      angles := new real[nParts](i requires 0 <= i < nParts => init.thetas[i]);
      forcesX := new real[nParts](i => 0.0);
      forcesY := new real[nParts](i => 0.0);
    }

    /** Force of particle b on particle a at the current positions. */
    ghost function ForceOn(a: int, b: int): (real, real)
      reads this, positionsX, positionsY
      requires Valid() && 0 <= a < nParts && 0 <= b < nParts
    {
      PairForce(len, potStrength, maths.rsqrt, positionsX[a], positionsY[a], positionsX[b], positionsY[b])
    }

    /** `wx` and `wy` hold the pair forces of the current positions. */
    ghost predicate PairMatrices(wx: seq<seq<real>>, wy: seq<seq<real>>)
      reads this, positionsX, positionsY
      requires Valid()
    {
      && IsMatrix(wx, nParts) && IsMatrix(wy, nParts)
      && forall a, b {:trigger ForceOn(a, b)} :: 0 <= a < nParts && 0 <= b < nParts ==>
           wx[a][b] == ForceOn(a, b).0 && wy[a][b] == ForceOn(a, b).1
    }

    /**
     * `calcInternalForces`: zero both force buffers, then for every box, every
     * neighbour box, every particle i of the first and every particle j of the
     * second, add the pair force to i and subtract it from j when the pair is
     * within the cutoff. With `oncePerPair` false the loops are as written and
     * take every j; with it true, when the neighbour box is the box itself only
     * the pairs with i < j are taken, so that each pair of one box is visited
     * once (see `AsWrittenDoublesSameBoxForce`). Each loop level below the
     * outermost is a method of its own; together they visit exactly the pairs
     * of `Visits(boxes, oncePerPair)`.
     */
    method CalcInternalForces(boxes: Boxes, oncePerPair: bool)
      requires Valid()
      requires boxes.WellFormed() && boxes.nParts == nParts
      modifies forcesX, forcesY
      ensures (forcesX[..], forcesY[..]) == InternalForces(Physics(), maths, boxes, positionsX[..], positionsY[..], oncePerPair)
    {
      ResetForces();
      ghost var wx := ForceMatrixX(Physics(), maths, positionsX[..], positionsY[..]);
      ghost var wy := ForceMatrixY(Physics(), maths, positionsX[..], positionsY[..]);
      ForceMatricesHold();
      for b1 := 0 to boxes.nBoxes
        invariant PairMatrices(wx, wy)
        invariant ValidPairs(VisitsUpTo(boxes, b1, oncePerPair), nParts)
        invariant forcesX[..] == Accumulate(wx, VisitsUpTo(boxes, b1, oncePerPair), nParts)
        invariant forcesY[..] == Accumulate(wy, VisitsUpTo(boxes, b1, oncePerPair), nParts)
      {
        AccumulateNextBox(wx, boxes, b1, oncePerPair);
        AccumulateNextBox(wy, boxes, b1, oncePerPair);
        AddNeighbourForces(boxes, b1, oncePerPair, wx, wy);
      }
    }

    /** The pair-force matrices of the current positions are the ones `ForceOn` reads off. */
    lemma ForceMatricesHold()
      requires Valid()
      ensures PairMatrices(ForceMatrixX(Physics(), maths, positionsX[..], positionsY[..]),
                           ForceMatrixY(Physics(), maths, positionsX[..], positionsY[..]))
    {
    }

    /** The first loop of `calcInternalForces`: both force buffers are set to zero. */
    method ResetForces()
      requires Valid()
      modifies forcesX, forcesY
      ensures forcesX[..] == Zeros(nParts) && forcesY[..] == Zeros(nParts)
    {
      for i := 0 to nParts
        invariant forall k :: 0 <= k < i ==> forcesX[k] == 0.0 && forcesY[k] == 0.0
      {
        forcesX[i] := 0.0;
        forcesY[i] := 0.0;
      }
    }

    /** Loop over the neighbour boxes b2 of box b1. */
    method AddNeighbourForces(boxes: Boxes, b1: nat, oncePerPair: bool, ghost wx: seq<seq<real>>, ghost wy: seq<seq<real>>)
      requires Valid()
      requires boxes.WellFormed() && boxes.nParts == nParts && b1 < boxes.nBoxes
      requires PairMatrices(wx, wy)
      modifies forcesX, forcesY
      ensures ValidPairs(Stencil(boxes, b1, |boxes.nbrsPos[b1]|, oncePerPair), nParts)
      ensures forcesX[..] == Deposits(old(forcesX[..]), wx, Stencil(boxes, b1, |boxes.nbrsPos[b1]|, oncePerPair))
      ensures forcesY[..] == Deposits(old(forcesY[..]), wy, Stencil(boxes, b1, |boxes.nbrsPos[b1]|, oncePerPair))
    {
      var nbrs := boxes.nbrsPos[b1];
      ghost var fx0, fy0 := forcesX[..], forcesY[..];
      for q := 0 to |nbrs|
        invariant PairMatrices(wx, wy)
        invariant ValidPairs(Stencil(boxes, b1, q, oncePerPair), nParts)
        invariant forcesX[..] == Deposits(fx0, wx, Stencil(boxes, b1, q, oncePerPair))
        invariant forcesY[..] == Deposits(fy0, wy, Stencil(boxes, b1, q, oncePerPair))
      {
        AddNeighbourBoxForces(boxes, b1, q, oncePerPair, fx0, fy0, wx, wy);
      }
    }

    /** One pass of the neighbour loop: box b1 against its neighbour box q. */
    method AddNeighbourBoxForces(boxes: Boxes, b1: nat, q: nat, oncePerPair: bool, ghost fx0: seq<real>, ghost fy0: seq<real>, ghost wx: seq<seq<real>>, ghost wy: seq<seq<real>>)
      requires Valid()
      requires boxes.WellFormed() && boxes.nParts == nParts && b1 < boxes.nBoxes && q < |boxes.nbrsPos[b1]|
      requires PairMatrices(wx, wy) && |fx0| == nParts && |fy0| == nParts
      requires ValidPairs(Stencil(boxes, b1, q, oncePerPair), nParts)
      requires forcesX[..] == Deposits(fx0, wx, Stencil(boxes, b1, q, oncePerPair))
      requires forcesY[..] == Deposits(fy0, wy, Stencil(boxes, b1, q, oncePerPair))
      modifies forcesX, forcesY
      ensures ValidPairs(Stencil(boxes, b1, q + 1, oncePerPair), nParts)
      ensures forcesX[..] == Deposits(fx0, wx, Stencil(boxes, b1, q + 1, oncePerPair))
      ensures forcesY[..] == Deposits(fy0, wy, Stencil(boxes, b1, q + 1, oncePerPair))
    {
      var b2 := boxes.nbrsPos[b1][q];
      var sameBox := oncePerPair && b2 == b1;
      DepositsNextNeighbour(fx0, wx, boxes, b1, q, oncePerPair, b2, sameBox);
      DepositsNextNeighbour(fy0, wy, boxes, b1, q, oncePerPair, b2, sameBox);
      AddBoxPairForces(boxes.partsOfBox[b1], boxes.partsOfBox[b2], sameBox, wx, wy);
    }

    /** Loop over the particles i of the first box, each against the particles of the second (`sameBox`: the same box twice, corrected loop). */
    method AddBoxPairForces(ps1: seq<int>, ps2: seq<int>, sameBox: bool, ghost wx: seq<seq<real>>, ghost wy: seq<seq<real>>)
      requires Valid()
      requires forall r :: 0 <= r < |ps1| ==> 0 <= ps1[r] < nParts
      requires forall s :: 0 <= s < |ps2| ==> 0 <= ps2[s] < nParts
      requires PairMatrices(wx, wy)
      modifies forcesX, forcesY
      ensures ValidPairs(BoxPairs(ps1, ps2, sameBox), nParts)
      ensures forcesX[..] == Deposits(old(forcesX[..]), wx, BoxPairs(ps1, ps2, sameBox))
      ensures forcesY[..] == Deposits(old(forcesY[..]), wy, BoxPairs(ps1, ps2, sameBox))
    {
      ghost var fx0, fy0 := forcesX[..], forcesY[..];
      for r := 0 to |ps1|
        invariant PairMatrices(wx, wy)
        invariant ValidPairs(BoxPairs(ps1[..r], ps2, sameBox), nParts)
        invariant forcesX[..] == Deposits(fx0, wx, BoxPairs(ps1[..r], ps2, sameBox))
        invariant forcesY[..] == Deposits(fy0, wy, BoxPairs(ps1[..r], ps2, sameBox))
      {
        DepositsNextRow(fx0, wx, ps1, ps2, sameBox, r);
        DepositsNextRow(fy0, wy, ps1, ps2, sameBox, r);
        AddRowForces(ps1[r], ps2, sameBox, wx, wy);
      }
      assert ps1[..|ps1|] == ps1;
    }

    /** Innermost loop: particle i against every particle j of `ps2`, only those with i < j when `sameBox`. */
    method AddRowForces(i: int, ps2: seq<int>, sameBox: bool, ghost wx: seq<seq<real>>, ghost wy: seq<seq<real>>)
      requires Valid()
      requires 0 <= i < nParts
      requires forall s :: 0 <= s < |ps2| ==> 0 <= ps2[s] < nParts
      requires PairMatrices(wx, wy)
      modifies forcesX, forcesY
      ensures ValidPairs(Row(i, ps2, sameBox), nParts)
      ensures forcesX[..] == Deposits(old(forcesX[..]), wx, Row(i, ps2, sameBox))
      ensures forcesY[..] == Deposits(old(forcesY[..]), wy, Row(i, ps2, sameBox))
    {
      ghost var fx0, fy0 := forcesX[..], forcesY[..];
      for s := 0 to |ps2|
        invariant PairMatrices(wx, wy)
        invariant ValidPairs(Row(i, ps2[..s], sameBox), nParts)
        invariant forcesX[..] == Deposits(fx0, wx, Row(i, ps2[..s], sameBox))
        invariant forcesY[..] == Deposits(fy0, wy, Row(i, ps2[..s], sameBox))
      {
        DepositsNextPair(fx0, wx, i, ps2, sameBox, s);
        DepositsNextPair(fy0, wy, i, ps2, sameBox, s);
        if Visited(sameBox, i, ps2[s]) {
          assert wx[i][ps2[s]] == ForceOn(i, ps2[s]).0 && wy[i][ps2[s]] == ForceOn(i, ps2[s]).1;
          AddPairForce(i, ps2[s]);
        }
      }
      assert ps2[..|ps2|] == ps2;
    }

    /**
     * The body of the innermost loop of `calcInternalForces`: the minimum-image
     * displacement of i from j, and, inside the cutoff, the pair force added to
     * i and subtracted from j.
     */
    method AddPairForce(i: int, j: int)
      requires Valid() && 0 <= i < nParts && 0 <= j < nParts
      modifies forcesX, forcesY
      ensures forcesX[..] == Deposit(old(forcesX[..]), i, j, old(ForceOn(i, j)).0)
      ensures forcesY[..] == Deposit(old(forcesY[..]), i, j, old(ForceOn(i, j)).1)
    {
      ghost var f := ForceOn(i, j);
      ghost var fxs, fys := forcesX[..], forcesY[..];
      PairForceUnfold(len, potStrength, maths.rsqrt, positionsX[i], positionsY[i], positionsX[j], positionsY[j]);
      var dx := PbcSym(positionsX[i] - positionsX[j], len);
      var dy := PbcSym(positionsY[i] - positionsY[j], len);
      assert f == CentralForce(potStrength, maths.rsqrt, dx, dy);
      var dr2 := SqNorm(dx, dy);
      if dr2 * (1.0 - dr2) > 0.0 {
        var u := potStrength * (maths.rsqrt(dr2) - 1.0);
        var fx := u * dx;
        var fy := u * dy;
        CentralForceInside(potStrength, maths.rsqrt, dx, dy, dr2, u);
        assert f == (fx, fy);
        ApplyPairForce(i, j, fx, fy);
      } else {
        CentralForceOutside(potStrength, maths.rsqrt, dx, dy, dr2);
        DepositZero(fxs, i, j);
        DepositZero(fys, i, j);
      }
    }

    /** The four updates of the innermost loop: the force (fx, fy) is added to i and subtracted from j. */
    method ApplyPairForce(i: int, j: int, fx: real, fy: real)
      requires Valid() && 0 <= i < nParts && 0 <= j < nParts
      modifies forcesX, forcesY
      ensures forcesX[..] == Deposit(old(forcesX[..]), i, j, fx)
      ensures forcesY[..] == Deposit(old(forcesY[..]), i, j, fy)
    {
      forcesX[i] := forcesX[i] + fx;
      forcesX[j] := forcesX[j] - fx;
      forcesY[i] := forcesY[i] + fy;
      forcesY[j] := forcesY[j] - fy;
    }

    /**
     * The integration loop of `evolve`: iteration i moves particle i by its
     * force, its self-propulsion along its orientation and its draws, and turns
     * it by its angular draw; no other entry and no force changes.
     */
    method Integrate(d: Draws)
      requires Valid() && d.Sized(nParts)
      modifies positionsX, positionsY, angles
      ensures Configuration() == Drift(Physics(), maths, old(Configuration()), forcesX[..], forcesY[..], d)
      ensures forcesX[..] == old(forcesX[..]) && forcesY[..] == old(forcesY[..])
    {
      ghost var target := Drift(Physics(), maths, Configuration(), forcesX[..], forcesY[..], d);
      for i := 0 to nParts
        invariant forall k :: 0 <= k < i ==> positionsX[k] == target.xs[k]
        invariant forall k :: 0 <= k < i ==> positionsY[k] == target.ys[k]
        invariant forall k :: 0 <= k < i ==> angles[k] == target.thetas[k]
        invariant forall k :: i <= k < nParts ==> positionsX[k] == old(positionsX[k])
        invariant forall k :: i <= k < nParts ==> positionsY[k] == old(positionsY[k])
        invariant forall k :: i <= k < nParts ==> angles[k] == old(angles[k])
      {
        MoveParticle(i, d);
      }
      assert positionsX[..] == target.xs && positionsY[..] == target.ys && angles[..] == target.thetas;
    }

    /** One iteration of the integration loop: particle i moves and turns; no other entry changes. */
    method MoveParticle(i: nat, d: Draws)
      requires Valid() && d.Sized(nParts) && i < nParts
      modifies positionsX, positionsY, angles
      ensures positionsX[i] == AdvanceX(Physics(), maths, old(positionsX[i]), forcesX[i], old(angles[i]), d.ranNumX[i])
      ensures positionsY[i] == AdvanceY(Physics(), maths, old(positionsY[i]), forcesY[i], old(angles[i]), d.ranNumY[i])
      ensures angles[i] == old(angles[i]) + d.ranNumAngle[i]
      ensures forall k :: 0 <= k < nParts && k != i ==> positionsX[k] == old(positionsX[k])
      ensures forall k :: 0 <= k < nParts && k != i ==> positionsY[k] == old(positionsY[k])
      ensures forall k :: 0 <= k < nParts && k != i ==> angles[k] == old(angles[k])
    {
      var s := maths.sin(angles[i]);
      var c := maths.cos(angles[i]);
      ghost var nextX := AdvanceX(Physics(), maths, positionsX[i], forcesX[i], angles[i], d.ranNumX[i]);
      ghost var nextY := AdvanceY(Physics(), maths, positionsY[i], forcesY[i], angles[i], d.ranNumY[i]);
      // internal force and self-propulsion
      positionsX[i] := positionsX[i] + dt * (forcesX[i] + activity * c);
      positionsY[i] := positionsY[i] + dt * (forcesY[i] + activity * s);
      // translational and rotational diffusion
      positionsX[i] := positionsX[i] + d.ranNumX[i];
      positionsY[i] := positionsY[i] + d.ranNumY[i];
      angles[i] := angles[i] + d.ranNumAngle[i];
      assert positionsX[i] == nextX;
      assert positionsY[i] == nextY;
    }

    /** `enforcePBC`: wrap every coordinate into [0, len) and every angle into [0, 2*pi), in place. */
    method EnforcePBC()
      requires Valid()
      modifies positionsX, positionsY, angles
      ensures Configuration() == Wrap(len, old(Configuration()))
      ensures InRange(len, Configuration())
    {
      for i := 0 to nParts
        invariant forall k :: 0 <= k < i ==>
          positionsX[k] == Pbc(old(positionsX[k]), len) && positionsY[k] == Pbc(old(positionsY[k]), len)
          && angles[k] == Pbc(old(angles[k]), TwoPi)
        invariant forall k :: i <= k < nParts ==>
          positionsX[k] == old(positionsX[k]) && positionsY[k] == old(positionsY[k]) && angles[k] == old(angles[k])
      {
        positionsX[i] := Pbc(positionsX[i], len);
        positionsY[i] := Pbc(positionsY[i], len);
        angles[i] := Pbc(angles[i], TwoPi);
      }
    }

    /**
     * `evolve`: forces from the positions before the step, then the
     * integration loop, then the periodic wrap. The arrays are left holding
     * the next configuration, which satisfies the periodicity invariant.
     * `oncePerPair` selects the force loops as written (false) or corrected.
     */
    method Evolve(boxes: Boxes, d: Draws, oncePerPair: bool)
      requires Valid()
      requires boxes.WellFormed() && boxes.nParts == nParts && d.Sized(nParts)
      modifies positionsX, positionsY, angles, forcesX, forcesY
      ensures (forcesX[..], forcesY[..]) == InternalForces(Physics(), maths, boxes, old(positionsX[..]), old(positionsY[..]), oncePerPair)
      ensures Configuration() == Step(Physics(), maths, boxes, old(Configuration()), d, oncePerPair)
      ensures InRange(len, Configuration())
    {
      CalcInternalForces(boxes, oncePerPair);
      Integrate(d);
      EnforcePBC();
    }
  }
}
