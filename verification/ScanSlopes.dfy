/** The reverse rules of the prefix scans are derivatives: of the scanned line, weighted by the gradient. */
module ScanSlopes {
  import opened Vectors
  import opened Calculus
  import opened Scans
  import opened Extrema
  import opened ExtremaAdjoint

  // A weighted sum of differentiable elements

  function Element(y: real -> Vec, n: nat, j: nat): (f: real -> real)
    requires j < n && forall e :: |y(e)| == n
    ensures forall e :: f(e) == y(e)[j]
  {
    (e: real) => y(e)[j]
  }

  function DotTo(u: Vec, t: Vec, m: nat): real
    requires m <= |u| == |t|
  {
    Dot(u[..m], t[..m])
  }

  function Weighed(u: Vec, y: real -> Vec, m: nat): (f: real -> real)
    requires m <= |u| && forall e :: |y(e)| == |u|
    ensures forall e :: f(e) == DotTo(u, y(e), m)
  {
    (e: real) => DotTo(u, y(e), m)
  }

  function Term(u: real, f: real -> real): (g: real -> real)
    ensures forall e :: g(e) == Times(u, f(e))
  {
    (e: real) => Times(u, f(e))
  }

  lemma TermSlope(u: real, f: real -> real, d: real)
    requires Slope(f, d)
    ensures Slope(Term(u, f), Times(u, d))
  {
    hide Slope, Term;
    var level := (e: real) => u;
    SlopeConstant(level, 1.0);
    SlopeProduct(level, f, Term(u, f), 0.0, d);
    assert Cross(0.0, f(0.0), u, d) == Times(u, d);
  }

  lemma {:induction false} WeighedSlope(u: Vec, y: real -> Vec, t: Vec, m: nat)
    requires m <= |u| == |t| && forall e :: |y(e)| == |u|
    requires forall j :: 0 <= j < |u| ==> Slope(Element(y, |u|, j), t[j])
    ensures Slope(Weighed(u, y, m), DotTo(u, t, m))
  {
    hide Slope, Element, Weighed, Term, Times, DotTo;
    if m == 0 {
      NothingWeighed(u, y, t);
    } else {
      var n := m - 1;
      WeighedSlope(u, y, t, n);
      TermSlope(u[n], Element(y, |u|, n), t[n]);
      OneMore(u, y, n);
      DotNext(u, t, n);
      SlopeSum(Weighed(u, y, n), Term(u[n], Element(y, |u|, n)), Weighed(u, y, m), DotTo(u, t, n), Times(u[n], t[n]),
               DotTo(u, t, m));
    }
  }

  lemma NothingWeighed(u: Vec, y: real -> Vec, t: Vec)
    requires |t| == |u| && forall e :: |y(e)| == |u|
    ensures Slope(Weighed(u, y, 0), DotTo(u, t, 0))
  {
    hide Slope, Weighed;
    assert forall e :: Weighed(u, y, 0)(e) == 0.0;
    SlopeConstant(Weighed(u, y, 0), 1.0);
  }

  lemma OneMore(u: Vec, y: real -> Vec, n: nat)
    requires n < |u| && forall e :: |y(e)| == |u|
    ensures forall e :: Weighed(u, y, n + 1)(e) == Weighed(u, y, n)(e) + Term(u[n], Element(y, |u|, n))(e)
  {
    hide Weighed, Term, Element, DotTo, Times;
    forall e
      ensures Weighed(u, y, n + 1)(e) == Weighed(u, y, n)(e) + Term(u[n], Element(y, |u|, n))(e)
    {
      DotNext(u, y(e), n);
    }
  }

  lemma DotNext(u: Vec, y: Vec, n: nat)
    requires n < |u| == |y|
    ensures DotTo(u, y, n + 1) == DotTo(u, y, n) + Times(u[n], y[n])
  {
    assert u[..n + 1][..n] == u[..n] && y[..n + 1][..n] == y[..n];
  }

  lemma DotWhole(u: Vec, y: Vec)
    requires |u| == |y|
    ensures DotTo(u, y, |u|) == Dot(u, y)
  {
    assert u[..|u|] == u && y[..|u|] == y;
  }

  /** A line moving along `v`, scanned and weighted by `u`. */
  function Pairing(u: Vec, y: real -> Vec): (f: real -> real)
    requires forall e :: |y(e)| == |u|
    ensures forall e :: f(e) == Dot(u, y(e))
  {
    (e: real) => Dot(u, y(e))
  }

  lemma PairingSlope(u: Vec, y: real -> Vec, t: Vec)
    requires |u| == |t| && forall e :: |y(e)| == |u|
    requires forall j :: 0 <= j < |u| ==> Slope(Element(y, |u|, j), t[j])
    ensures Slope(Pairing(u, y), Dot(u, t))
  {
    hide Slope, Element, Weighed, Pairing, Dot, DotTo;
    WeighedSlope(u, y, t, |u|);
    DotWhole(u, t);
    forall e
      ensures Weighed(u, y, |u|)(e) == Pairing(u, y)(e)
    {
      DotWhole(u, y(e));
    }
    SlopeLocal(Weighed(u, y, |u|), Pairing(u, y), Dot(u, t), 1.0);
  }

  // Products

  function ProductAlong(x: Vec, v: Vec, n: nat): (f: real -> real)
    requires n <= |x| == |v|
    ensures forall e :: f(e) == PartialProduct(Shifted(x, v, e), n)
  {
    (e: real) => PartialProduct(Shifted(x, v, e), n)
  }

  function Line(x: real, d: real): (f: real -> real)
    ensures forall e :: f(e) == x + Times(e, d)
  {
    (e: real) => x + Times(e, d)
  }

  /** The tangent of a prefix product is its derivative, zeros or not. */
  lemma {:induction false} ProductSlope(x: Vec, v: Vec, n: nat)
    requires n <= |x| == |v|
    ensures Slope(ProductAlong(x, v, n), ProductTangentTo(x, v, n))
  {
    hide Slope, Times, Shifted, PartialProduct, ProductTangentTo, ProductAlong, Line;
    if n == 0 {
      NoProduct(x, v);
      SlopeConstant(ProductAlong(x, v, 0), 1.0);
    } else {
      var line := Line(x[n - 1], v[n - 1]);
      ProductSlope(x, v, n - 1);
      SlopeLine(line, x[n - 1], v[n - 1]);
      ProductStep(x, v, n);
      SlopeProduct(ProductAlong(x, v, n - 1), line, ProductAlong(x, v, n), ProductTangentTo(x, v, n - 1), v[n - 1]);
    }
  }

  lemma NoProduct(x: Vec, v: Vec)
    requires |x| == |v|
    ensures ProductTangentTo(x, v, 0) == 0.0 && forall e :: ProductAlong(x, v, 0)(e) == 1.0
  {
  }

  lemma ProductStep(x: Vec, v: Vec, n: nat)
    requires 0 < n <= |x| == |v|
    ensures forall e :: ProductAlong(x, v, n)(e) == Times(ProductAlong(x, v, n - 1)(e), Line(x[n - 1], v[n - 1])(e))
    ensures ProductTangentTo(x, v, n) ==
            Cross(ProductTangentTo(x, v, n - 1), Line(x[n - 1], v[n - 1])(0.0), ProductAlong(x, v, n - 1)(0.0),
                  v[n - 1])
  {
    hide Line, ProductAlong, Times;
    Still(x, v);
  }

  lemma Still(x: Vec, v: Vec)
    requires |x| == |v|
    ensures Shifted(x, v, 0.0) == x && forall k :: 0 <= k < |x| ==> x[k] + Times(0.0, v[k]) == x[k]
  {
  }

  function ProductsAlong(x: Vec, v: Vec): (y: real -> Vec)
    requires |x| == |v|
    ensures forall e :: |y(e)| == |x| && y(e) == Products(Shifted(x, v, e))
  {
    (e: real) => Products(Shifted(x, v, e))
  }

  /** The cumulative-product rule, paired with a movement, is the derivative of the weighted cumulative product. */
  lemma ProductsDerivative(u: Vec, x: Vec, v: Vec)
    requires |u| == |x| == |v|
    ensures Slope(Pairing(u, ProductsAlong(x, v)), Dot(ProductsVjp(u, x), v))
  {
    hide Slope, Element, Pairing, ProductsAlong, ProductAlong, Products, ProductsVjp, ProductTangentTo, ProductTangents,
      PartialProduct, Shifted, Dot;
    var y, t := ProductsAlong(x, v), ProductTangents(x, v);
    forall j | 0 <= j < |u|
      ensures Slope(Element(y, |u|, j), t[j])
    {
      ProductSlope(x, v, j + 1);
      SlopeLocal(ProductAlong(x, v, j + 1), Element(y, |u|, j), t[j], 1.0);
    }
    PairingSlope(u, y, t);
    ProductsAdjoint(u, x, v);
  }

  // Extrema

  function BestsAlong(kind: Extremum, x: Vec, v: Vec): (y: real -> Vec)
    requires |x| == |v|
    ensures forall e :: |y(e)| == |x| && y(e) == Bests(kind, Shifted(x, v, e))
  {
    (e: real) => Bests(kind, Shifted(x, v, e))
  }

  /** So is the cumulative-extremum rule, where no prefix is tied. */
  lemma BestsDerivative(kind: Extremum, u: Vec, x: Vec, v: Vec)
    requires |u| == |x| == |v| && NeverTied(kind, x)
    ensures Slope(Pairing(u, BestsAlong(kind, x, v)), Dot(BestsVjp(u, x, Bests(kind, x)), v))
  {
    hide Slope, Element, Pairing, BestsAlong, Along, Bests, BestsVjp, BestTangent, BestsTangents, Best, Shifted, Dot,
      Untied;
    var y, t := BestsAlong(kind, x, v), BestsTangents(kind, x, v);
    forall j | 0 <= j < |u|
      ensures Slope(Element(y, |u|, j), t[j])
    {
      BestSlope(kind, x, v, j + 1);
      SlopeLocal(Along(kind, x, v, j + 1), Element(y, |u|, j), t[j], 1.0);
    }
    PairingSlope(u, y, t);
    UntiedIsAdjoint(kind, u, x, v);
  }
}
