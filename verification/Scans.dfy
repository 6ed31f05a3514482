/** Reverse rules of the prefix scans, on one line of elements along the scanned axis. */
module Scans {
  import opened Vectors
  import opened Graph

  // Prefix scans

  /** The sum of the first `n` elements. */
  function PartialSum(x: Vec, n: nat): real
    requires n <= |x|
  {
    if n == 0 then 0.0 else PartialSum(x, n - 1) + x[n - 1]
  }

  /** The product of the first `n` elements. */
  function PartialProduct(x: Vec, n: nat): real
    requires n <= |x|
  {
    if n == 0 then 1.0 else Times(PartialProduct(x, n - 1), x[n - 1])
  }

  function Sums(x: Vec): (y: Vec)
    ensures |y| == |x| && forall j :: 0 <= j < |x| ==> y[j] == PartialSum(x, j + 1)
  {
    seq(|x|, j requires 0 <= j < |x| => PartialSum(x, j + 1))
  }

  function Products(x: Vec): (y: Vec)
    ensures |y| == |x| && forall j :: 0 <= j < |x| ==> y[j] == PartialProduct(x, j + 1)
  {
    seq(|x|, j requires 0 <= j < |x| => PartialProduct(x, j + 1))
  }

  function Reversed(x: Vec): (y: Vec)
    ensures |y| == |x| && forall j :: 0 <= j < |x| ==> y[j] == x[|x| - 1 - j]
  {
    seq(|x|, j requires 0 <= j < |x| => x[|x| - 1 - j])
  }

  // Prefix sum

  /** The reverse rule of the prefix sum: a prefix sum of the reversed gradient, reversed back. */
  function SumsVjp(u: Vec): (y: Vec)
    ensures |y| == |u|
  {
    Reversed(Sums(Reversed(u)))
  }

  /** The sum of the elements from `i` on. */
  function SumFrom(u: Vec, i: nat): real
    requires i <= |u|
    decreases |u| - i
  {
    if i == |u| then 0.0 else u[i] + SumFrom(u, i + 1)
  }

  lemma {:induction false} ReversedSum(u: Vec, n: nat)
    requires n <= |u|
    ensures PartialSum(Reversed(u), n) == SumFrom(u, |u| - n)
  {
    if n > 0 {
      ReversedSum(u, n - 1);
    }
  }

  /** It is the suffix sum. */
  lemma SumsVjpIsSuffix(u: Vec, i: nat)
    requires i < |u|
    ensures SumsVjp(u)[i] == SumFrom(u, i)
  {
    ReversedSum(u, |u| - i);
  }

  lemma {:induction false} SumFromSplit(u: Vec, n: nat, i: nat)
    requires i <= n <= |u|
    ensures SumFrom(u, i) == SumFrom(u[..n], i) + SumFrom(u, n)
    decreases n - i
  {
    if i < n {
      SumFromSplit(u, n, i + 1);
    }
  }

  /** A vector whose element `i` is the suffix sum of `u` from `i`. */
  function Suffixes(u: Vec): (y: Vec)
    ensures |y| == |u| && forall i :: 0 <= i < |u| ==> y[i] == SumFrom(u, i)
  {
    seq(|u|, i requires 0 <= i < |u| => SumFrom(u, i))
  }

  lemma {:induction false} DotShift(a: Vec, b: Vec, v: Vec, c: real)
    requires |a| == |b| == |v| && forall k :: 0 <= k < |a| ==> b[k] == a[k] + c
    ensures Dot(b, v) == Dot(a, v) + Times(c, PartialSum(v, |v|))
  {
    if |a| > 0 {
      var n := |a| - 1;
      DotShift(a[..n], b[..n], v[..n], c);
      PrefixSum(v, n, n);
      TimesSum(a[n], c, v[n]);
      TimesOver(c, PartialSum(v, n), v[n]);
    }
  }

  lemma TimesOver(c: real, x: real, y: real)
    ensures Times(c, x + y) == Times(c, x) + Times(c, y)
  {
  }

  lemma {:induction false} PrefixSum(v: Vec, m: nat, n: nat)
    requires n <= m <= |v|
    ensures PartialSum(v[..m], n) == PartialSum(v, n)
  {
    if n > 0 {
      PrefixSum(v, m, n - 1);
    }
  }

  /** The rule is the exact adjoint of the prefix sum. */
  lemma {:induction false} SumsAdjoint(u: Vec, v: Vec)
    requires |u| == |v|
    ensures Dot(SumsVjp(u), v) == Dot(u, Sums(v))
  {
    assert SumsVjp(u) == Suffixes(u) by {
      forall i | 0 <= i < |u|
        ensures SumsVjp(u)[i] == Suffixes(u)[i]
      {
        SumsVjpIsSuffix(u, i);
      }
    }
    SuffixesAdjoint(u, v);
  }

  lemma SuffixesGrow(u: Vec)
    requires |u| > 0
    ensures var n := |u| - 1;
            forall k :: 0 <= k < n ==> Suffixes(u)[..n][k] == Suffixes(u[..n])[k] + u[n]
    ensures Suffixes(u)[|u| - 1] == u[|u| - 1]
  {
    var n := |u| - 1;
    forall k | 0 <= k < n
      ensures Suffixes(u)[..n][k] == Suffixes(u[..n])[k] + u[n]
    {
      SumFromSplit(u, n, k);
    }
    assert SumFrom(u, |u|) == 0.0 && SumFrom(u, n) == u[n] + SumFrom(u, n + 1);
  }

  lemma SumsPrefix(v: Vec, n: nat)
    requires n <= |v|
    ensures Sums(v)[..n] == Sums(v[..n]) && PartialSum(v[..n], n) == PartialSum(v, n)
  {
    forall k | 0 <= k < n
      ensures Sums(v)[k] == Sums(v[..n])[k]
    {
      PrefixSum(v, n, k + 1);
    }
    PrefixSum(v, n, n);
  }

  lemma {:induction false} SuffixesAdjoint(u: Vec, v: Vec)
    requires |u| == |v|
    ensures Dot(Suffixes(u), v) == Dot(u, Sums(v))
  {
    if |u| > 0 {
      hide Times, SumFrom, Suffixes, Sums;
      var n := |u| - 1;
      SuffixesAdjoint(u[..n], v[..n]);
      SuffixesGrow(u);
      DotShift(Suffixes(u[..n]), Suffixes(u)[..n], v[..n], u[n]);
      SumsPrefix(v, n);
      TimesOver(u[n], PartialSum(v, n), v[n]);
    }
  }

  // Prefix product

  /** Ones where `x` is zero. */
  function Mask(x: Vec): (y: Vec)
    ensures |y| == |x| && forall k :: 0 <= k < |x| ==> y[k] == Flag(x[k] == 0.0)
  {
    CompareVec(Eq, x, Zeros(|x|))
  }

  /** `x` with its zeros replaced by ones. */
  function Safe(x: Vec): (y: Vec)
    ensures |y| == |x| && forall k :: 0 <= k < |x| ==> y[k] == if x[k] == 0.0 then 1.0 else x[k]
  {
    SelectVec(Mask(x), Fill(|x|, 1.0), x)
  }

  /** The gradient of the products that contain exactly `zeros` zeros, unweighted by the position itself. */
  function Weighted(u: Vec, x: Vec, zeros: real): (y: Vec)
    requires |u| == |x|
    ensures |y| == |x|
  {
    SelectVec(CompareVec(Eq, Sums(Mask(x)), Fill(|x|, zeros)), BinaryVec(Mul, u, Products(Safe(x))), Zeros(|x|))
  }

  /**
   * The reverse rule of the prefix product: two masked suffix sums, one divided by the zero-replaced input,
   * selected by whether the position itself is zero.
   */
  function ProductsVjp(u: Vec, x: Vec): (y: Vec)
    requires |u| == |x|
    ensures |y| == |x|
  {
    SelectVec(Mask(x), SumsVjp(Weighted(u, x, 1.0)), BinaryVec(Div, SumsVjp(Weighted(u, x, 0.0)), Safe(x)))
  }

  /** The product of the first `n` elements with element `i` left out. */
  function Except(x: Vec, i: nat, n: nat): real
    requires n <= |x|
  {
    if n == 0 then 1.0
    else if n - 1 == i then Except(x, i, n - 1)
    else Times(Except(x, i, n - 1), x[n - 1])
  }

  /** What position `i` owes to the products up to and including positions `from` to `|x| - 1`. */
  function Share(u: Vec, x: Vec, i: nat, from: nat): real
    requires |u| == |x| && from <= |x|
    decreases |x| - from
  {
    if from == |x| then 0.0 else Times(u[from], Except(x, i, from + 1)) + Share(u, x, i, from + 1)
  }

  /** The number of zeros among the first `n` elements. */
  function Nulls(x: Vec, n: nat): nat
    requires n <= |x|
  {
    if n == 0 then 0 else Nulls(x, n - 1) + if x[n - 1] == 0.0 then 1 else 0
  }

  lemma {:induction false} MaskCounts(x: Vec, n: nat)
    requires n <= |x|
    ensures PartialSum(Mask(x), n) == Nulls(x, n) as real
  {
    if n > 0 {
      MaskCounts(x, n - 1);
    }
  }

  lemma TimesZero(a: real)
    ensures Times(a, 0.0) == 0.0 && Times(0.0, a) == 0.0 && Times(a, 1.0) == a && Times(1.0, a) == a
  {
  }

  lemma TimesSwap(a: real, b: real, c: real)
    ensures Times(Times(a, b), c) == Times(Times(a, c), b)
  {
  }

  /**
   * Leaving out element `i`: zero when a zero remains, and otherwise the zero-replaced product short of its own factor.
   */
  lemma {:induction false} ExceptCases(x: Vec, i: nat, n: nat)
    requires i < |x| && n <= |x|
    ensures var own := if i < n && x[i] == 0.0 then 1 else 0;
            Nulls(x, n) >= own &&
            if Nulls(x, n) > own then Except(x, i, n) == 0.0
            else PartialProduct(Safe(x), n) == if i < n then Times(Except(x, i, n), Safe(x)[i]) else Except(x, i, n)
  {
    hide Times;
    if n > 0 {
      ExceptCases(x, i, n - 1);
      var e, s := Except(x, i, n - 1), Safe(x);
      TimesZero(e);
      TimesZero(x[n - 1]);
      TimesZero(s[n - 1]);
      TimesSwap(e, s[i], s[n - 1]);
    }
  }

  lemma WeightedAt(u: Vec, x: Vec, zeros: real, j: nat)
    requires |u| == |x| && j < |x|
    ensures Weighted(u, x, zeros)[j] ==
            if Nulls(x, j + 1) as real == zeros then Times(u[j], PartialProduct(Safe(x), j + 1)) else 0.0
  {
    hide PartialProduct, Safe, Mask, Nulls, PartialSum;
    MaskCounts(x, j + 1);
    var c := CompareVec(Eq, Sums(Mask(x)), Fill(|x|, zeros));
    assert c[j] == CompareValue(Eq, PartialSum(Mask(x), j + 1), zeros);
    var w := BinaryVec(Mul, u, Products(Safe(x)));
    MulIsTimes(u[j], PartialProduct(Safe(x), j + 1));
    hide Times, BinaryValue, CompareValue;
    assert w[j] == BinaryValue(Mul, u[j], PartialProduct(Safe(x), j + 1));
    assert CompareValue(Eq, PartialSum(Mask(x), j + 1), zeros) == Flag(Nulls(x, j + 1) as real == zeros) by {
      CompareIsFlag(PartialSum(Mask(x), j + 1), zeros);
    }
  }

  lemma CompareIsFlag(a: real, b: real)
    ensures CompareValue(Eq, a, b) == Flag(a == b)
  {
  }

  lemma MulIsTimes(a: real, b: real)
    ensures BinaryValue(Mul, a, b) == Times(a, b)
  {
  }

  /** At a zero position only products with no other zero matter, and they are the zero-replaced ones. */
  lemma {:induction false} ZeroShare(u: Vec, x: Vec, i: nat, from: nat)
    requires |u| == |x| && i < |x| && i <= from <= |x| && x[i] == 0.0
    ensures Share(u, x, i, from) == SumFrom(Weighted(u, x, 1.0), from)
    decreases |x| - from
  {
    hide Times, Weighted, Safe, Mask;
    if from < |x| {
      ZeroShare(u, x, i, from + 1);
      WeightedAt(u, x, 1.0, from);
      ExceptCases(x, i, from + 1);
      NullsGrow(x, i + 1, from + 1);
      TimesZero(Except(x, i, from + 1));
      TimesZero(u[from]);
    }
  }

  lemma {:induction false} NullsGrow(x: Vec, m: nat, n: nat)
    requires m <= n <= |x|
    ensures Nulls(x, m) <= Nulls(x, n)
    decreases n
  {
    if m < n {
      NullsGrow(x, m, n - 1);
    }
  }

  /** At a nonzero position the products without zeros matter, each short of the position's own factor. */
  lemma {:induction false} NonzeroShare(u: Vec, x: Vec, i: nat, from: nat)
    requires |u| == |x| && i < |x| && i <= from <= |x| && x[i] != 0.0
    ensures Times(Share(u, x, i, from), x[i]) == SumFrom(Weighted(u, x, 0.0), from)
    decreases |x| - from
  {
    hide Times, Weighted, Safe, Mask;
    if from < |x| {
      NonzeroShare(u, x, i, from + 1);
      WeightedAt(u, x, 0.0, from);
      ExceptCases(x, i, from + 1);
      var e := Except(x, i, from + 1);
      TimesSum(Times(u[from], e), Share(u, x, i, from + 1), x[i]);
      ShareTerm(u[from], e, x[i]);
      TimesZero(u[from]);
      TimesZero(x[i]);
    } else {
      TimesZero(x[i]);
    }
  }

  lemma ShareTerm(u: real, e: real, x: real)
    ensures Times(Times(u, e), x) == Times(u, Times(e, x))
  {
  }

  lemma DivideBack(s: real, x: real, p: real)
    requires x != 0.0 && Times(s, x) == p
    ensures BinaryValue(Div, p, x) == s
  {
    var r := Recip(x);
    assert x * r == 1.0;
    assert (s * x) * r == s * (x * r);
  }

  /**
   * The prefix-product rule is exact for every real line, with any number of zeros anywhere: position `i`
   * receives the sum over the products that contain it of their gradient times their other factors.
   */
  lemma ProductsVjpExact(u: Vec, x: Vec, i: nat)
    requires |u| == |x| && i < |x|
    ensures ProductsVjp(u, x)[i] == Share(u, x, i, i)
  {
    hide Times, Weighted, Share, SumsVjp;
    if x[i] == 0.0 {
      SumsVjpIsSuffix(Weighted(u, x, 1.0), i);
      ZeroShare(u, x, i, i);
    } else {
      SumsVjpIsSuffix(Weighted(u, x, 0.0), i);
      NonzeroShare(u, x, i, i);
      DivideBack(Share(u, x, i, i), x[i], SumFrom(Weighted(u, x, 0.0), i));
    }
  }

  // Dual numbers

  /** The tangent of the product of the first `n` elements when the elements move along `v`. */
  function ProductTangentTo(x: Vec, v: Vec, n: nat): real
    requires |x| == |v| && n <= |x|
  {
    if n == 0 then 0.0
    else Times(ProductTangentTo(x, v, n - 1), x[n - 1]) + Times(PartialProduct(x, n - 1), v[n - 1])
  }

  function ProductTangents(x: Vec, v: Vec): (y: Vec)
    requires |x| == |v|
    ensures |y| == |x| && forall j :: 0 <= j < |x| ==> y[j] == ProductTangentTo(x, v, j + 1)
  {
    seq(|x|, j requires 0 <= j < |x| => ProductTangentTo(x, v, j + 1))
  }

  /** The sum of the left-out products, each weighted by the movement of the element left out. */
  function Leaves(x: Vec, v: Vec, n: nat, m: nat): real
    requires |x| == |v| && m <= |x| && n <= |x|
  {
    if m == 0 then 0.0 else Leaves(x, v, n, m - 1) + Times(Except(x, m - 1, n), v[m - 1])
  }

  lemma {:induction false} ExceptBeyond(x: Vec, i: nat, n: nat)
    requires n <= i && n <= |x|
    ensures Except(x, i, n) == PartialProduct(x, n)
  {
    if n > 0 {
      ExceptBeyond(x, i, n - 1);
    }
  }

  lemma {:induction false} LeavesScale(x: Vec, v: Vec, n: nat, m: nat)
    requires |x| == |v| && m < n <= |x|
    ensures Leaves(x, v, n, m) == Times(Leaves(x, v, n - 1, m), x[n - 1])
  {
    hide Times;
    TimesZero(x[n - 1]);
    if m > 0 {
      LeavesScale(x, v, n, m - 1);
      var e := Except(x, m - 1, n - 1);
      TimesSwap(e, x[n - 1], v[m - 1]);
      TimesSum(Leaves(x, v, n - 1, m - 1), Times(e, v[m - 1]), x[n - 1]);
    }
  }

  /** The dual-number tangent of a product is the sum over its factors. */
  lemma {:induction false} TangentIsLeaves(x: Vec, v: Vec, n: nat)
    requires |x| == |v| && n <= |x|
    ensures ProductTangentTo(x, v, n) == Leaves(x, v, n, n)
  {
    hide Times;
    if n > 0 {
      TangentIsLeaves(x, v, n - 1);
      LeavesScale(x, v, n, n - 1);
      ExceptBeyond(x, n - 1, n - 1);
    }
  }

  /** What the first `n` products owe to position `i`. */
  function ShareTo(u: Vec, x: Vec, i: nat, n: nat): real
    requires |u| == |x| && n <= |x|
  {
    if n == 0 then 0.0
    else ShareTo(u, x, i, n - 1) + if i < n then Times(u[n - 1], Except(x, i, n)) else 0.0
  }

  lemma {:induction false} ShareSplit(u: Vec, x: Vec, i: nat, n: nat)
    requires |u| == |x| && i <= n <= |x|
    ensures ShareTo(u, x, i, |x|) == ShareTo(u, x, i, n) + Share(u, x, i, n)
    decreases |x| - n
  {
    hide Times;
    if n < |x| {
      ShareSplit(u, x, i, n + 1);
    }
  }

  lemma {:induction false} ShareNone(u: Vec, x: Vec, i: nat, n: nat)
    requires |u| == |x| && n <= i && n <= |x|
    ensures ShareTo(u, x, i, n) == 0.0
  {
    if n > 0 {
      ShareNone(u, x, i, n - 1);
    }
  }

  /** The first `m` positions' shares of the first `n` products, paired with a movement. */
  function Owed(u: Vec, x: Vec, v: Vec, n: nat, m: nat): real
    requires |u| == |x| == |v| && n <= |x| && m <= |x|
  {
    if m == 0 then 0.0 else Owed(u, x, v, n, m - 1) + Times(ShareTo(u, x, m - 1, n), v[m - 1])
  }

  /** The first `n` products' gradients paired with their tangents. */
  function Paid(u: Vec, x: Vec, v: Vec, n: nat): real
    requires |u| == |x| == |v| && n <= |x|
  {
    if n == 0 then 0.0 else Paid(u, x, v, n - 1) + Times(u[n - 1], ProductTangentTo(x, v, n))
  }

  lemma {:induction false} OwedNext(u: Vec, x: Vec, v: Vec, n: nat, m: nat)
    requires |u| == |x| == |v| && m <= n && 0 < n <= |x|
    ensures Owed(u, x, v, n, m) == Owed(u, x, v, n - 1, m) + Times(u[n - 1], Leaves(x, v, n, m))
  {
    hide Times;
    TimesZero(u[n - 1]);
    if m > 0 {
      OwedNext(u, x, v, n, m - 1);
      var e := Except(x, m - 1, n);
      TimesSum(ShareTo(u, x, m - 1, n - 1), Times(u[n - 1], e), v[m - 1]);
      ShareTerm(u[n - 1], e, v[m - 1]);
      TimesOver(u[n - 1], Leaves(x, v, n, m - 1), Times(e, v[m - 1]));
    }
  }

  /** Exchanging the two sums: what positions are owed is what products pay. */
  lemma {:induction false} OwedIsPaid(u: Vec, x: Vec, v: Vec, n: nat)
    requires |u| == |x| == |v| && n <= |x|
    ensures Owed(u, x, v, n, n) == Paid(u, x, v, n)
  {
    hide Times;
    if n > 0 {
      OwedIsPaid(u, x, v, n - 1);
      OwedNext(u, x, v, n, n);
      ShareNone(u, x, n - 1, n - 1);
      TimesZero(v[n - 1]);
      TangentIsLeaves(x, v, n);
    }
  }

  lemma {:induction false} DotOwed(u: Vec, x: Vec, v: Vec, m: nat)
    requires |u| == |x| == |v| && m <= |x|
    ensures Dot(ProductsVjp(u, x)[..m], v[..m]) == Owed(u, x, v, |x|, m)
  {
    hide Times, ProductsVjp, Share;
    if m > 0 {
      DotOwed(u, x, v, m - 1);
      var g := ProductsVjp(u, x);
      assert g[..m][..m - 1] == g[..m - 1] && v[..m][..m - 1] == v[..m - 1];
      ProductsVjpExact(u, x, m - 1);
      ShareSplit(u, x, m - 1, m - 1);
      ShareNone(u, x, m - 1, m - 1);
    }
  }

  lemma {:induction false} DotPaid(u: Vec, x: Vec, v: Vec, n: nat)
    requires |u| == |x| == |v| && n <= |x|
    ensures Dot(u[..n], ProductTangents(x, v)[..n]) == Paid(u, x, v, n)
  {
    hide Times;
    if n > 0 {
      DotPaid(u, x, v, n - 1);
      var t := ProductTangents(x, v);
      assert u[..n][..n - 1] == u[..n - 1] && t[..n][..n - 1] == t[..n - 1];
    }
  }

  /** The prefix-product rule is the exact adjoint of the dual-number tangent, zeros or not. */
  lemma ProductsAdjoint(u: Vec, x: Vec, v: Vec)
    requires |u| == |x| == |v|
    ensures Dot(ProductsVjp(u, x), v) == Dot(u, ProductTangents(x, v))
  {
    hide Times, ProductsVjp, Dot;
    var n := |x|;
    DotOwed(u, x, v, n);
    DotPaid(u, x, v, n);
    OwedIsPaid(u, x, v, n);
    assert ProductsVjp(u, x)[..n] == ProductsVjp(u, x) && v[..n] == v && u[..n] == u;
    assert ProductTangents(x, v)[..n] == ProductTangents(x, v);
  }
}
