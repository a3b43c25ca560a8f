/** Finite sums over the particle arrays, used to state conservation and pair-sum identities. */
module Sums {

  /** Sum of all entries. */
  function Sum(s: seq<real>): real
  {
    if |s| == 0 then 0.0 else s[0] + Sum(s[1..])
  }

  /** Sum of `c[j] * w[j]`. */
  function Dot(c: seq<real>, w: seq<real>): real
    requires |c| == |w|
  {
    if |c| == 0 then 0.0 else c[0] * w[0] + Dot(c[1..], w[1..])
  }

  /** `n` zeros: the force buffers right after they are reset. */
  function Zeros(n: nat): (z: seq<real>)
    ensures |z| == n && forall k :: 0 <= k < n ==> z[k] == 0.0
  {
    seq(n, k => 0.0)
  }

  /** Overwriting one entry changes the sum by the difference. */
  lemma {:induction false} SumUpdate(s: seq<real>, k: nat, v: real)
    requires k < |s|
    ensures Sum(s[k := v]) == Sum(s) - s[k] + v
  {
    if k == 0 {
      assert s[k := v][1..] == s[1..];
    } else {
      assert s[k := v][1..] == s[1..][k - 1 := v];
      SumUpdate(s[1..], k - 1, v);
    }
  }

  lemma {:induction false} SumZeros(n: nat)
    ensures Sum(Zeros(n)) == 0.0
  {
    if n > 0 {
      assert Zeros(n)[1..] == Zeros(n - 1);
      SumZeros(n - 1);
    }
  }

  /** Dot is linear in its coefficient vector. */
  lemma {:induction false} DotAdd(a: seq<real>, b: seq<real>, c: seq<real>, w: seq<real>)
    requires |a| == |b| == |c| == |w|
    requires forall j :: 0 <= j < |c| ==> c[j] == a[j] + b[j]
    ensures Dot(c, w) == Dot(a, w) + Dot(b, w)
  {
    if |c| > 0 {
      DotAdd(a[1..], b[1..], c[1..], w[1..]);
      assert c[0] * w[0] == a[0] * w[0] + b[0] * w[0];
    }
  }

  /** A coefficient vector that is 1 at `m` and 0 elsewhere picks out `w[m]`; the zero vector picks out nothing. */
  lemma {:induction false} DotSelect(c: seq<real>, w: seq<real>, m: int)
    requires |c| == |w|
    requires forall j :: 0 <= j < |c| ==> c[j] == if j == m then 1.0 else 0.0
    ensures Dot(c, w) == if 0 <= m < |c| then w[m] else 0.0
  {
    if |c| > 0 {
      DotSelect(c[1..], w[1..], m - 1);
    }
  }

  /** When every term `c[j] * w[j]` equals `w[j]`, the weighted sum is the plain sum. */
  lemma {:induction false} DotPointwise(c: seq<real>, w: seq<real>)
    requires |c| == |w|
    requires forall j :: 0 <= j < |c| ==> c[j] * w[j] == w[j]
    ensures Dot(c, w) == Sum(w)
  {
    if |c| > 0 {
      DotPointwise(c[1..], w[1..]);
    }
  }
}
