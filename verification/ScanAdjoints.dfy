/** The scan reverse rules as adjoints on whole tensors, at every rank and axis. */
module ScanAdjoints {
  import opened Shapes
  import opened Axes
  import opened Vectors
  import opened Graph
  import opened Scans
  import opened Extrema
  import opened Lines
  import opened ExtremaLines
  import opened ExtremaAdjoint

  // Inner products line by line

  function Products2(a: Vec, b: Vec): (w: Vec)
    requires |a| == |b|
    ensures |w| == |a| && forall k :: 0 <= k < |w| ==> w[k] == Times(a[k], b[k])
  {
    seq(|a|, k requires 0 <= k < |a| => Times(a[k], b[k]))
  }

  lemma {:induction false} DotIsSum(a: Vec, b: Vec, n: nat)
    requires |a| == |b| && n <= |a|
    ensures Dot(a[..n], b[..n]) == PartialSum(Products2(a, b), n)
  {
    hide Times;
    if n > 0 {
      DotIsSum(a, b, n - 1);
      assert a[..n][..n - 1] == a[..n - 1] && b[..n][..n - 1] == b[..n - 1];
    }
  }

  lemma {:induction false} SumIsDot(w: Vec, n: nat)
    requires n <= |w|
    ensures Dot(w[..n], Fill(n, 1.0)) == PartialSum(w, n)
  {
    if n > 0 {
      SumIsDot(w, n - 1);
      assert w[..n][..n - 1] == w[..n - 1] && Fill(n, 1.0)[..n - 1] == Fill(n - 1, 1.0);
    }
  }

  /** Reducing one axis keeps the total. */
  lemma TotalKept(s: Shape, axis: nat, w: Vec)
    requires axis < |s| && |w| == Numel(s)
    ensures Fits(Kept(s, [axis]), s)
    ensures var kept := Kept(s, [axis]);
            PartialSum(SumDown(kept, s, w), Numel(kept)) == PartialSum(w, |w|)
  {
    hide Numel, Dot, Kept;
    var kept := Kept(s, [axis]);
    KeptFits(s, [axis]);
    var m, down := OperandMap(kept, s), SumDown(kept, s, w);
    ScatterAdjoint(m, w, Fill(Numel(kept), 1.0));
    assert Gather(m, Fill(Numel(kept), 1.0)) == Fill(Numel(s), 1.0);
    SumIsDot(w, |w|);
    SumIsDot(down, |down|);
    assert w[..|w|] == w && down[..|down|] == down;
  }

  /** On every line, `a` with `b` and `p` with `q` have the same inner product. */
  ghost predicate LinesAgree(s: Shape, axis: nat, a: Vec, b: Vec, p: Vec, q: Vec)
    requires axis < |s| && |a| == |b| == |p| == |q| == Numel(s)
  {
    forall c :: InRange(s, c) ==>
      Dot(Line(s, axis, a, c), Line(s, axis, b, c)) == Dot(Line(s, axis, p, c), Line(s, axis, q, c))
  }

  /** Two inner products of tensors agree when they agree on every line. */
  lemma DotByLines(s: Shape, axis: nat, a: Vec, b: Vec, p: Vec, q: Vec)
    requires axis < |s| && |a| == |b| == |p| == |q| == Numel(s)
    requires LinesAgree(s, axis, a, b, p, q)
    ensures Dot(a, b) == Dot(p, q)
  {
    hide Dot, Kept, SumDown, LinesAgree, Fits, Numel;
    var n, v, w := Numel(s), Products2(a, b), Products2(p, q);
    TotalKept(s, axis, v);
    TotalKept(s, axis, w);
    DownAlike(s, axis, a, b, p, q);
    DotIsSum(a, b, n);
    DotIsSum(p, q, n);
    assert a[..n] == a && b[..n] == b && p[..n] == p && q[..n] == q;
  }

  lemma DownAlike(s: Shape, axis: nat, a: Vec, b: Vec, p: Vec, q: Vec)
    requires axis < |s| && |a| == |b| == |p| == |q| == Numel(s)
    requires LinesAgree(s, axis, a, b, p, q)
    ensures Fits(Kept(s, [axis]), s)
    ensures SumDown(Kept(s, [axis]), s, Products2(a, b)) == SumDown(Kept(s, [axis]), s, Products2(p, q))
  {
    hide Numel, Kept, SumDown, LinesAgree, Products2;
    var kept := Kept(s, [axis]);
    KeptFits(s, [axis]);
    var down, other := SumDown(kept, s, Products2(a, b)), SumDown(kept, s, Products2(p, q));
    forall k: nat | k < Numel(kept)
      ensures down[k] == other[k]
    {
      ReducedAlike(s, axis, a, b, p, q, k);
    }
  }

  lemma ReducedAlike(s: Shape, axis: nat, a: Vec, b: Vec, p: Vec, q: Vec, k: nat)
    requires axis < |s| && |a| == |b| == |p| == |q| == Numel(s) && k < Numel(Kept(s, [axis]))
    requires LinesAgree(s, axis, a, b, p, q)
    ensures Fits(Kept(s, [axis]), s)
    ensures SumDown(Kept(s, [axis]), s, Products2(a, b))[k] == SumDown(Kept(s, [axis]), s, Products2(p, q))[k]
  {
    hide Numel, Dot, SumDown, Line, Offset;
    var kept := Kept(s, [axis]);
    KeptFits(s, [axis]);
    if Numel(s) > 0 {
      var c := Coords(kept, k);
      Positives(s, axis);
      assert InRange(s, c) && Moved(c, axis, 0) == c;
      SumAlong(s, axis, Products2(a, b), c);
      SumAlong(s, axis, Products2(p, q), c);
      OffsetOfCoords(kept, k);
      LineProducts(s, axis, a, b, c);
      LineProducts(s, axis, p, q, c);
    } else {
      assert Products2(a, b) == Products2(p, q);
    }
  }

  lemma Positives(s: Shape, axis: nat)
    requires axis < |s| && Numel(s) > 0
    ensures s[axis] > 0
  {
    Positive(s, axis);
  }

  lemma LineProducts(s: Shape, axis: nat, a: Vec, b: Vec, c: seq<nat>)
    requires axis < |s| && InRange(s, c) && |a| == |b| == Numel(s)
    ensures PartialSum(Line(s, axis, Products2(a, b), c), s[axis]) == Dot(Line(s, axis, a, c), Line(s, axis, b, c))
  {
    hide Dot, Times;
    var x, y := Line(s, axis, a, c), Line(s, axis, b, c);
    assert Line(s, axis, Products2(a, b), c) == Products2(x, y);
    DotIsSum(x, y, s[axis]);
    assert x[..s[axis]] == x && y[..s[axis]] == y;
  }

  // The rules

  /** The cumulative-sum rule is the adjoint of the cumulative sum of a tensor. */
  lemma SumsAdjointAlong(s: Shape, axis: nat, u: Vec, v: Vec)
    requires axis < |s| && |u| == |v| == Numel(s)
    ensures Dot(SumsVjpAlong(s, axis, u), v) == Dot(u, AlongAxis(PrefixSums, s, axis, v))
  {
    hide Numel, Dot, Line, SumsVjpAlong, AlongAxis, SumsVjp, InRange;
    var g, t := SumsVjpAlong(s, axis, u), AlongAxis(PrefixSums, s, axis, v);
    forall c | InRange(s, c)
      ensures Dot(Line(s, axis, g, c), Line(s, axis, v, c)) == Dot(Line(s, axis, u, c), Line(s, axis, t, c))
    {
      SumsVjpLines(s, axis, u, c);
      LineOfAlong(PrefixSums, s, axis, v, c);
      SumsAdjoint(Line(s, axis, u, c), Line(s, axis, v, c));
    }
    DotByLines(s, axis, g, v, u, t);
  }

  datatype TangentOp = OfProducts | OfBests(kind: Extremum)

  function TangentsOf(op: TangentOp, x: Vec, v: Vec): (t: Vec)
    requires |x| == |v|
    ensures |t| == |x|
  {
    match op case OfProducts => ProductTangents(x, v) case OfBests(kind) => BestsTangents(kind, x, v)
  }

  /** The dual-number tangent of a scan of `x` along one axis, line by line. */
  function TangentsAlong(op: TangentOp, s: Shape, axis: nat, x: Vec, v: Vec): (t: Vec)
    requires axis < |s| && |x| == |v| == Numel(s)
    ensures |t| == Numel(s)
    ensures forall n :: 0 <= n < |t| ==> t[n] == TangentAt(op, s, axis, x, v, n)
  {
    seq(Numel(s), n requires 0 <= n < Numel(s) => TangentAt(op, s, axis, x, v, n))
  }

  function TangentAt(op: TangentOp, s: Shape, axis: nat, x: Vec, v: Vec, n: nat): real
    requires axis < |s| && |x| == |v| == Numel(s) && n < Numel(s)
  {
    var c := Coords(s, n);
    TangentsOf(op, Line(s, axis, x, c), Line(s, axis, v, c))[c[axis]]
  }

  lemma LineOfTangents(op: TangentOp, s: Shape, axis: nat, x: Vec, v: Vec, c: seq<nat>)
    requires axis < |s| && InRange(s, c) && |x| == |v| == Numel(s)
    ensures Line(s, axis, TangentsAlong(op, s, axis, x, v), c) ==
            TangentsOf(op, Line(s, axis, x, c), Line(s, axis, v, c))
  {
    hide TangentsOf;
    LineInside(s, axis, c);
    forall j: nat | j < s[axis]
      ensures Line(s, axis, TangentsAlong(op, s, axis, x, v), c)[j] ==
              TangentsOf(op, Line(s, axis, x, c), Line(s, axis, v, c))[j]
    {
      SameLine(s, axis, c, j);
      CoordsOfOffset(s, Moved(c, axis, j));
    }
  }

  /** The cumulative-product rule is the adjoint of the tangent of the cumulative product, zeros or not. */
  lemma ProductsAdjointAlong(s: Shape, axis: nat, u: Vec, x: Vec, v: Vec)
    requires axis < |s| && |u| == |x| == |v| == Numel(s)
    ensures Dot(ProductsVjpAlong(s, axis, u, x), v) == Dot(u, TangentsAlong(OfProducts, s, axis, x, v))
  {
    hide Numel, Dot, Line, ProductsVjpAlong, ProductsVjp, TangentsAlong, ProductTangents, InRange;
    var g, t := ProductsVjpAlong(s, axis, u, x), TangentsAlong(OfProducts, s, axis, x, v);
    forall c | InRange(s, c)
      ensures Dot(Line(s, axis, g, c), Line(s, axis, v, c)) == Dot(Line(s, axis, u, c), Line(s, axis, t, c))
    {
      ProductsVjpLines(s, axis, u, x, c);
      LineOfTangents(OfProducts, s, axis, x, v, c);
      ProductsAdjoint(Line(s, axis, u, c), Line(s, axis, x, c), Line(s, axis, v, c));
    }
    DotByLines(s, axis, g, v, u, t);
  }

  /** Without ties the cumulative-extremum rule is the adjoint of the tangent of the cumulative extremum. */
  lemma BestsAdjointAlong(kind: Extremum, s: Shape, axis: nat, u: Vec, x: Vec, v: Vec)
    requires axis < |s| && |u| == |x| == |v| == Numel(s)
    requires forall c :: InRange(s, c) ==> NeverTied(kind, Line(s, axis, x, c))
    ensures Dot(BestsVjpAlong(s, axis, u, x, AlongAxis(PrefixBests(kind), s, axis, x)), v) ==
            Dot(u, TangentsAlong(OfBests(kind), s, axis, x, v))
  {
    hide Numel, Dot, Line, BestsVjpAlong, BestsVjp, TangentsAlong, BestsTangents, AlongAxis, NeverTied, InRange;
    var values := AlongAxis(PrefixBests(kind), s, axis, x);
    var g, t := BestsVjpAlong(s, axis, u, x, values), TangentsAlong(OfBests(kind), s, axis, x, v);
    forall c | InRange(s, c)
      ensures Dot(Line(s, axis, g, c), Line(s, axis, v, c)) == Dot(Line(s, axis, u, c), Line(s, axis, t, c))
    {
      BestsVjpLines(s, axis, u, x, values, c);
      LineOfAlong(PrefixBests(kind), s, axis, x, c);
      LineOfTangents(OfBests(kind), s, axis, x, v, c);
      UntiedIsAdjoint(kind, Line(s, axis, u, c), Line(s, axis, x, c), Line(s, axis, v, c));
    }
    DotByLines(s, axis, g, v, u, t);
  }
}
