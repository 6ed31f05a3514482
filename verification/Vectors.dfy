/** Flat real tensors: inner products and the index maps that move elements between shapes. */
module Vectors {
  import opened Shapes

  type Vec = seq<real>

  function Fill(n: nat, x: real): (v: Vec)
    ensures |v| == n && forall k :: 0 <= k < n ==> v[k] == x
  {
    seq(n, _ => x)
  }

  function Zeros(n: nat): (v: Vec)
    ensures |v| == n && forall k :: 0 <= k < n ==> v[k] == 0.0
  {
    Fill(n, 0.0)
  }

  predicate AllZero(v: Vec) {
    forall k :: 0 <= k < |v| ==> v[k] == 0.0
  }

  function Plus(x: Vec, y: Vec): (z: Vec)
    requires |x| == |y|
    ensures |z| == |x| && forall k :: 0 <= k < |z| ==> z[k] == x[k] + y[k]
  {
    seq(|x|, k requires 0 <= k < |x| => x[k] + y[k])
  }

  /** Multiplication under a name of its own, so that sums of products stay linear to the solver. */
  function Times(x: real, y: real): real {
    x * y
  }

  lemma TimesSum(a: real, b: real, t: real)
    ensures Times(a + b, t) == Times(a, t) + Times(b, t)
  {
  }

  function Dot(x: Vec, y: Vec): real
    requires |x| == |y|
  {
    if |x| == 0 then 0.0
    else Dot(x[..|x| - 1], y[..|y| - 1]) + Times(x[|x| - 1], y[|y| - 1])
  }

  /** Every index of `m` addresses a vector of length `n`. */
  predicate Addresses(m: seq<nat>, n: nat) {
    forall k :: 0 <= k < |m| ==> m[k] < n
  }

  /** Reads: output element `k` is input element `m[k]`. */
  function Gather(m: seq<nat>, x: Vec): (y: Vec)
    requires Addresses(m, |x|)
    ensures |y| == |m| && forall k :: 0 <= k < |m| ==> y[k] == x[m[k]]
  {
    seq(|m|, k requires 0 <= k < |m| => x[m[k]])
  }

  /** Writes: input element `k` is added into output element `m[k]`, in input order. */
  function Scatter(m: seq<nat>, y: Vec, n: nat): (x: Vec)
    requires |m| == |y| && Addresses(m, n)
    ensures |x| == n
  {
    if |m| == 0 then Zeros(n)
    else
      var last := |m| - 1;
      var x := Scatter(m[..last], y[..last], n);
      x[m[last] := x[m[last]] + y[last]]
  }

  lemma {:induction false} DotZero(x: Vec, y: Vec)
    requires |x| == |y| && (AllZero(x) || AllZero(y))
    ensures Dot(x, y) == 0.0
  {
    if |x| > 0 {
      DotZero(x[..|x| - 1], y[..|y| - 1]);
    }
  }

  lemma {:induction false} ScatterZero(m: seq<nat>, y: Vec, n: nat)
    requires |m| == |y| && Addresses(m, n) && AllZero(y)
    ensures AllZero(Scatter(m, y, n))
  {
    if |m| > 0 {
      ScatterZero(m[..|m| - 1], y[..|m| - 1], n);
    }
  }

  /** Inner products agree when their terms do. */
  lemma {:induction false} DotTerms(a: Vec, b: Vec, c: Vec, d: Vec)
    requires |a| == |b| == |c| == |d|
    requires forall k :: 0 <= k < |a| ==> Times(a[k], b[k]) == Times(c[k], d[k])
    ensures Dot(a, b) == Dot(c, d)
  {
    hide Times;
    if |a| > 0 {
      var n := |a| - 1;
      DotTerms(a[..n], b[..n], c[..n], d[..n]);
    }
  }

  /** An inner product splits into two when each of its terms does. */
  lemma {:induction false} DotSplit(a: Vec, b: Vec, c: Vec, d: Vec, e: Vec, f: Vec)
    requires |a| == |b| == |c| == |d| == |e| == |f|
    requires forall k :: 0 <= k < |a| ==> Times(a[k], b[k]) == Times(c[k], d[k]) + Times(e[k], f[k])
    ensures Dot(a, b) == Dot(c, d) + Dot(e, f)
  {
    hide Times;
    if |a| > 0 {
      var n := |a| - 1;
      DotSplit(a[..n], b[..n], c[..n], d[..n], e[..n], f[..n]);
    }
  }

  lemma {:induction false} DotUpdate(x: Vec, y: Vec, j: nat, c: real)
    requires |x| == |y| && j < |x|
    ensures Dot(x[j := x[j] + c], y) == Dot(x, y) + Times(c, y[j])
  {
    var n := |x| - 1;
    var z := x[j := x[j] + c];
    if j == n {
      assert z[..n] == x[..n];
      assert Times(z[n], y[n]) == Times(x[n], y[n]) + Times(c, y[n]);
    } else {
      assert z[..n] == x[..n][j := x[..n][j] + c];
      DotUpdate(x[..n], y[..n], j, c);
    }
  }

  /** Summing along an index map is the adjoint of reading along it. */
  lemma {:induction false} ScatterAdjoint(m: seq<nat>, y: Vec, x: Vec)
    requires |m| == |y| && Addresses(m, |x|)
    ensures Dot(Scatter(m, y, |x|), x) == Dot(y, Gather(m, x))
  {
    if |m| == 0 {
      DotZero(Zeros(|x|), x);
    } else {
      hide Times;
      var last := |m| - 1;
      var z, g := Scatter(m[..last], y[..last], |x|), Gather(m, x);
      ScatterAdjoint(m[..last], y[..last], x);
      DotUpdate(z, x, m[last], y[last]);
      assert g[..last] == Gather(m[..last], x);
    }
  }

  function Basis(n: nat, k: nat): (e: Vec)
    requires k < n
    ensures |e| == n
  {
    Zeros(n)[k := 1.0]
  }

  lemma DotBasis(x: Vec, k: nat)
    requires k < |x|
    ensures Dot(x, Basis(|x|, k)) == x[k]
  {
    var zeros := Zeros(|x|);
    DotUpdate(zeros, x, k, 1.0);
    DotZero(zeros, x);
    assert zeros[k := zeros[k] + 1.0] == Basis(|x|, k);
    DotSymmetric(x, Basis(|x|, k));
  }

  /** A vector is determined by its inner products. */
  lemma DotDetermines(x: Vec, y: Vec)
    requires |x| == |y|
    requires forall v: Vec :: |v| == |x| ==> Dot(x, v) == Dot(y, v)
    ensures x == y
  {
    forall k | 0 <= k < |x|
      ensures x[k] == y[k]
    {
      DotBasis(x, k);
      DotBasis(y, k);
    }
  }

  lemma {:induction false} DotSymmetric(x: Vec, y: Vec)
    requires |x| == |y|
    ensures Dot(x, y) == Dot(y, x)
  {
    if |x| > 0 {
      DotSymmetric(x[..|x| - 1], y[..|y| - 1]);
    }
  }

  lemma GatherIdentity(x: Vec)
    ensures Gather(Identity(|x|), x) == x
  {
  }

  /** Scattering along an index map with a known inverse is reading along that inverse. */
  lemma ScatterInverse(m: seq<nat>, inverse: seq<nat>, y: Vec)
    requires |m| == |inverse| == |y| && Addresses(m, |y|) && Addresses(inverse, |y|)
    requires forall k :: 0 <= k < |m| ==> inverse[m[k]] == k
    requires forall j :: 0 <= j < |m| ==> m[inverse[j]] == j
    ensures Scatter(m, y, |y|) == Gather(inverse, y)
  {
    forall j | 0 <= j < |y|
      ensures Scatter(m, y, |y|)[j] == y[inverse[j]]
    {
      ScatterOnce(m, y, |y|, j, inverse[j]);
    }
  }

  /** An output element written exactly once holds what was written. */
  lemma {:induction false} ScatterOnce(m: seq<nat>, y: Vec, n: nat, j: nat, at: nat)
    requires |m| == |y| && Addresses(m, n) && j < n && at < |m| && m[at] == j
    requires forall k :: 0 <= k < |m| && k != at ==> m[k] != j
    ensures Scatter(m, y, n)[j] == y[at]
  {
    var last := |m| - 1;
    if at == last {
      ScatterNever(m[..last], y[..last], n, j);
    } else {
      ScatterOnce(m[..last], y[..last], n, j, at);
    }
  }

  lemma {:induction false} ScatterNever(m: seq<nat>, y: Vec, n: nat, j: nat)
    requires |m| == |y| && Addresses(m, n) && j < n
    requires forall k :: 0 <= k < |m| ==> m[k] != j
    ensures Scatter(m, y, n)[j] == 0.0
  {
    if |m| > 0 {
      ScatterNever(m[..|m| - 1], y[..|m| - 1], n, j);
    }
  }

  lemma ScatterIdentity(y: Vec)
    ensures Scatter(Identity(|y|), y, |y|) == y
  {
    ScatterInverse(Identity(|y|), Identity(|y|), y);
    GatherIdentity(y);
  }
}
