/**
 * The parameter validators of the simulation driver: `notPositive` and
 * `notStrPositive`. Both answer "is this parameter invalid?"; the error
 * message they write to the error stream is not modelled.
 */
module Validators {

  /** Non-strict check: a parameter is rejected only when it is negative, so 0 is accepted. */
  predicate NotPositive(a: real)
  {
    a < 0.0
  }

  /** Strict check: a parameter is rejected when it is negative or zero. */
  predicate NotStrPositive(a: real)
  {
    a <= 0.0
  }

  /** Zero is where the two checks differ: accepted by the non-strict one, rejected by the strict one. */
  lemma ZeroSeparatesTheChecks()
    ensures !NotPositive(0.0)
    ensures NotStrPositive(0.0)
  {
  }

  /** Whatever the non-strict check rejects, the strict one rejects too; the converse fails at 0. */
  lemma StrictCheckIsStronger(a: real)
    ensures NotPositive(a) ==> NotStrPositive(a)
    ensures NotStrPositive(a) && !NotPositive(a) <==> a == 0.0
  {
  }
}
