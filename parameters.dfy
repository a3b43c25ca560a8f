/**
 * The physical constants a `State` is built with, and the mathematical library
 * functions the time step calls. Reals stand for doubles; the library
 * functions are left abstract and supplied by the caller.
 */
module Parameters {

  /** Box length, potential strength, activity (self-propulsion speed) and timestep. */
  datatype Params = Params(len: real, potStrength: real, activity: real, dt: real)

  /**
   * `rsqrt(x)` stands for `1.0 / std::sqrt(x)`, evaluated only where x > 0;
   * `sin` and `cos` for the trigonometric functions (`sincos`).
   */
  datatype Maths = Maths(rsqrt: real -> real, sin: real -> real, cos: real -> real)
}
