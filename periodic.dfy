/**
 * The two periodic wraps of the simulation box: `pbc`, which brings a stored
 * coordinate (or an angle) back into [0, period), and `pbcSym`, which brings a
 * displacement into the interval [-period/2, period/2) centred on 0 (the
 * minimum-image convention).
 */
module Periodic {

  /** Canonical wrap of `x` into [0, period). */
  function Pbc(x: real, period: real): (r: real)
    requires period > 0.0
    ensures 0.0 <= r < period
  {
    var m := (x / period).Floor;
    FloorBounds(x, period, 0.0, m);
    x - period * m as real
  }

  /** Centred wrap of `x` into [-period/2, period/2). */
  function PbcSym(x: real, period: real): (r: real)
    requires period > 0.0
    ensures -period / 2.0 <= r < period / 2.0
  {
    var m := (x / period + 0.5).Floor;
    FloorBounds(x, period, 0.5, m);
    x - period * m as real
  }

  /** Scaling the floor bounds of `x/period + c` back by `period`. */
  lemma FloorBounds(x: real, period: real, c: real, m: int)
    requires period > 0.0
    requires m as real <= x / period + c < m as real + 1.0
    ensures period * m as real <= x + period * c < period * m as real + period
  {
    var q := x / period + c;
    var d := q - m as real;
    var pm := period * m as real;
    assert period * q == x + period * c;
    assert period * q == pm + period * d;
    assert 0.0 <= period * d;
    assert period * (1.0 - d) == period - period * d;
    assert period * d < period;
  }

  /** If `y` differs from `x` by `m` periods and `y + c*period` lies in [0, period), the floor is `m`. */
  lemma FloorOfShift(x: real, period: real, c: real, m: int, y: real)
    requires period > 0.0
    requires y == x - period * m as real
    requires 0.0 <= y + period * c < period
    ensures (x / period + c).Floor == m
  {
    var q := y / period + c;
    assert period * q == y + period * c;
    assert 0.0 <= q < 1.0;
    assert x / period + c == q + m as real;
  }

  /** The canonical representative is unique: any shift of `x` by whole periods that lands in [0, period) is Pbc(x). */
  lemma PbcUnique(x: real, period: real, m: int, y: real)
    requires period > 0.0
    requires y == x - period * m as real
    requires 0.0 <= y < period
    ensures Pbc(x, period) == y
  {
    FloorOfShift(x, period, 0.0, m, y);
  }

  /** The centred representative is unique in [-period/2, period/2). */
  lemma PbcSymUnique(x: real, period: real, m: int, y: real)
    requires period > 0.0
    requires y == x - period * m as real
    requires -period / 2.0 <= y < period / 2.0
    ensures PbcSym(x, period) == y
  {
    FloorOfShift(x, period, 0.5, m, y);
  }

  /** Wrapping leaves a value that is already in [0, period) unchanged. */
  lemma PbcFixesInRange(x: real, period: real)
    requires period > 0.0
    requires 0.0 <= x < period
    ensures Pbc(x, period) == x
  {
    PbcUnique(x, period, 0, x);
  }

  /** Wrapping is invariant under shifts by whole periods. */
  lemma PbcPeriodic(x: real, period: real, k: int)
    requires period > 0.0
    ensures Pbc(x + period * k as real, period) == Pbc(x, period)
  {
    var m := (x / period).Floor;
    PbcUnique(x + period * k as real, period, m + k, Pbc(x, period));
  }

  /** The centred wrap leaves a value already in [-period/2, period/2) unchanged. */
  lemma PbcSymFixesInRange(x: real, period: real)
    requires period > 0.0
    requires -period / 2.0 <= x < period / 2.0
    ensures PbcSym(x, period) == x
  {
    PbcSymUnique(x, period, 0, x);
  }

  /**
   * The centred wrap is odd except at the lower end of its range: -period/2 is
   * its own image, because the interval is closed there and open at period/2.
   * Either way the square of the displacement does not depend on its direction.
   */
  lemma PbcSymNegate(d: real, period: real)
    requires period > 0.0
    ensures PbcSym(-d, period) == if PbcSym(d, period) == -period / 2.0 then -period / 2.0 else -PbcSym(d, period)
    ensures PbcSym(-d, period) * PbcSym(-d, period) == PbcSym(d, period) * PbcSym(d, period)
  {
    var m := (d / period + 0.5).Floor;
    var w := PbcSym(d, period);
    assert w == d - period * m as real;
    if w == -period / 2.0 {
      PbcSymUnique(-d, period, 1 - m, -period / 2.0);
    } else {
      PbcSymUnique(-d, period, -m, -w);
    }
  }
}
