/** Derivatives of real functions at zero, by first-order expansion with a bounded remainder. */
module Calculus {
  import opened Vectors

  function Abs(x: real): (a: real)
    ensures a >= 0.0 && (a == x || a == -x)
  {
    if x < 0.0 then -x else x
  }

  function Min(a: real, b: real): real {
    if a < b then a else b
  }

  /** Value `x`, slope `d` and remainder coefficient `u`, at displacement `e`. */
  function Expansion(x: real, d: real, u: real, e: real): real {
    x + Times(e, d) + Times(Times(e, e), u)
  }

  /** `y` is `x` plus `d e` plus `e^2` times something no larger than `c`. */
  ghost predicate Near(y: real, x: real, d: real, c: real, e: real) {
    exists u :: Abs(u) <= c && y == Expansion(x, d, u, e)
  }

  ghost predicate Expands(f: real -> real, d: real, c: real, r: real) {
    0.0 < r <= 1.0 && c >= 0.0 && forall e :: Abs(e) <= r ==> Near(f(e), f(0.0), d, c, e)
  }

  /** `f` is differentiable at zero with derivative `d`. */
  ghost predicate Slope(f: real -> real, d: real) {
    exists c, r :: Expands(f, d, c, r)
  }

  /** Only one number can be the derivative. */
  lemma SlopeUnique(f: real -> real, a: real, b: real)
    requires Slope(f, a) && Slope(f, b)
    ensures a == b
  {
    hide Near, Times;
    var c, r :| Expands(f, a, c, r);
    var p, q :| Expands(f, b, p, q);
    if a != b {
      var s := SmallStep(Abs(a - b), c + p, Min(r, q));
      CloseSlopes(f(s), f(0.0), a, b, s, c, p);
    }
  }

  /** A positive displacement no larger than `cap` whose multiple by `bound` stays below `gap`. */
  lemma SmallStep(gap: real, bound: real, cap: real) returns (s: real)
    requires gap > 0.0 && bound >= 0.0 && cap > 0.0
    ensures 0.0 < s <= cap && Times(bound, s) < gap
  {
    s := Min(cap, gap / (bound + 1.0));
    var t := gap / (bound + 1.0);
    assert t * (bound + 1.0) == gap;
    assert t > 0.0;
    ScaleUp(s, t, bound);
    assert Times(bound, t) == gap - t;
  }

  lemma ScaleUp(s: real, t: real, b: real)
    requires s <= t && b >= 0.0
    ensures Times(b, s) <= Times(b, t)
  {
  }

  lemma TimesLinear(k: real, a: real, b: real)
    ensures Times(k, a + b) == Times(k, a) + Times(k, b)
    ensures Times(k, a - b) == Times(k, a) - Times(k, b)
    ensures Times(k, a) == Times(a, k)
  {
  }

  lemma CloseSlopes(y: real, x: real, a: real, b: real, s: real, c: real, p: real)
    requires 0.0 < s && Near(y, x, a, c, s) && Near(y, x, b, p, s)
    ensures Abs(a - b) <= Times(c + p, s)
  {
    var u :| Abs(u) <= c && y == Expansion(x, a, u, s);
    var v :| Abs(v) <= p && y == Expansion(x, b, v, s);
    hide Times;
    TimesLinear(s, a, b);
    TimesLinear(Times(s, s), u, v);
    CancelStep(a - b, v - u, u - v, s);
    AbsScale(s, v - u, c + p);
    TimesLinear(s, c + p, 0.0);
  }

  lemma CancelStep(d: real, k: real, l: real, s: real)
    requires s > 0.0 && l == -k && Times(s, d) == -Times(Times(s, s), l)
    ensures d == Times(s, k)
  {
    assert s * (d - s * k) == 0.0;
  }

  lemma AbsScale(s: real, k: real, m: real)
    requires s > 0.0 && Abs(k) <= m
    ensures Abs(Times(s, k)) <= Times(s, m)
  {
    ScaleUp(k, m, s);
    ScaleUp(-k, m, s);
    assert Times(s, -k) == -Times(s, k);
  }

  /** Slopes only look at a neighbourhood of zero. */
  lemma SlopeLocal(f: real -> real, g: real -> real, d: real, near: real)
    requires Slope(f, d) && near > 0.0 && forall e :: Abs(e) <= near ==> g(e) == f(e)
    ensures Slope(g, d)
  {
    hide Near;
    var c, r :| Expands(f, d, c, r);
    assert g(0.0) == f(0.0);
    assert Expands(g, d, c, Min(near, r));
  }

  lemma SlopeConstant(f: real -> real, near: real)
    requires near > 0.0 && forall e :: Abs(e) <= near ==> f(e) == f(0.0)
    ensures Slope(f, 0.0)
  {
    forall e | Abs(e) <= Min(near, 1.0)
      ensures Near(f(e), f(0.0), 0.0, 0.0, e)
    {
      assert f(e) == Expansion(f(0.0), 0.0, 0.0, e);
    }
    assert Expands(f, 0.0, 0.0, Min(near, 1.0));
  }

  lemma SlopeLine(f: real -> real, x: real, d: real)
    requires forall e :: f(e) == x + Times(e, d)
    ensures Slope(f, d)
  {
    forall e | Abs(e) <= 1.0
      ensures Near(f(e), f(0.0), d, 0.0, e)
    {
      assert f(e) == x + Times(e, d) && f(0.0) == x + Times(0.0, d);
      assert f(e) == Expansion(f(0.0), d, 0.0, e);
    }
    assert Expands(f, d, 0.0, 1.0);
  }

  // Sums

  lemma SlopeSum(f: real -> real, g: real -> real, h: real -> real, a: real, b: real, d: real)
    requires Slope(f, a) && Slope(g, b) && d == a + b && forall e :: h(e) == f(e) + g(e)
    ensures Slope(h, d)
  {
    hide Near;
    var c, r :| Expands(f, a, c, r);
    var p, q :| Expands(g, b, p, q);
    var s, cap := Min(r, q), c + p;
    forall e | Abs(e) <= s
      ensures Near(h(e), h(0.0), d, cap, e)
    {
      assert h(e) == f(e) + g(e) && h(0.0) == f(0.0) + g(0.0);
      NearSum(f(e), f(0.0), a, c, g(e), g(0.0), b, p, e, h(e), h(0.0), d, cap);
    }
    assert Expands(h, d, cap, s);
  }

  lemma NearSum(y: real, x: real, a: real, c: real, z: real, w: real, b: real, p: real, e: real,
                y': real, x': real, d: real, cap: real)
    requires Near(y, x, a, c, e) && Near(z, w, b, p, e)
    requires y' == y + z && x' == x + w && d == a + b && cap == c + p
    ensures Near(y', x', d, cap, e)
  {
    hide Times;
    var u :| Abs(u) <= c && y == Expansion(x, a, u, e);
    var v :| Abs(v) <= p && z == Expansion(w, b, v, e);
    TimesLinear(e, a, b);
    TimesLinear(Times(e, e), u, v);
    assert y' == Expansion(x', d, u + v, e);
  }

  // Products

  lemma ProductBound(x: real, y: real, a: real, b: real)
    requires Abs(x) <= a && Abs(y) <= b
    ensures Abs(Times(x, y)) <= Times(a, b)
  {
    var s, t := Abs(x), Abs(y);
    assert Abs(x * y) == s * t;
    ScaleUp(s, a, t);
    ScaleUp(t, b, a);
    assert Times(t, a) == Times(a, t) && Times(s, t) == Times(t, s);
  }

  lemma AbsTimes(a: real, b: real)
    ensures Abs(Times(a, b)) == Times(Abs(a), Abs(b))
  {
  }

  lemma SumBound(x: real, y: real, m: real, n: real)
    requires Abs(x) <= m && Abs(y) <= n
    ensures Abs(x + y) <= m + n
  {
  }

  function Cross(a: real, v: real, b: real, u: real): real {
    Times(a, v) + Times(b, u)
  }

  /** The remainder coefficient of a product. */
  function ProductRest(x: real, a: real, u: real, y: real, b: real, v: real, e: real): real {
    Cross(x, v, y, u) + Times(a, b) + (Times(e, Cross(a, v, b, u)) + Times(Times(e, e), Times(u, v)))
  }

  function ProductCap(x: real, a: real, c: real, y: real, b: real, p: real): real {
    Cross(Abs(x), p, Abs(y), c) + Times(Abs(a), Abs(b)) + (Cross(Abs(a), p, Abs(b), c) + Times(c, p))
  }

  lemma ProductExpansion(x: real, a: real, u: real, y: real, b: real, v: real, e: real)
    ensures Times(Expansion(x, a, u, e), Expansion(y, b, v, e)) ==
            Expansion(Times(x, y), Cross(a, y, x, b), ProductRest(x, a, u, y, b, v, e), e)
  {
  }

  lemma CrossBound(a: real, v: real, b: real, u: real, c: real, p: real)
    requires Abs(u) <= c && Abs(v) <= p
    ensures Abs(Cross(a, v, b, u)) <= Cross(Abs(a), p, Abs(b), c)
  {
    hide Times;
    ProductBound(a, v, Abs(a), p);
    ProductBound(b, u, Abs(b), c);
  }

  lemma Shrink(e: real, t: real, m: real)
    requires Abs(e) <= 1.0 && Abs(t) <= m
    ensures Abs(Times(e, t)) <= m
  {
    ProductBound(e, t, 1.0, m);
  }

  lemma ProductRestBound(x: real, a: real, u: real, c: real, y: real, b: real, v: real, p: real, e: real)
    requires Abs(u) <= c && Abs(v) <= p && Abs(e) <= 1.0
    ensures Abs(ProductRest(x, a, u, y, b, v, e)) <= ProductCap(x, a, c, y, b, p)
  {
    hide Times, Abs, Cross;
    CrossBound(x, v, y, u, c, p);
    AbsTimes(a, b);
    CrossBound(a, v, b, u, c, p);
    Shrink(e, Cross(a, v, b, u), Cross(Abs(a), p, Abs(b), c));
    ProductBound(u, v, c, p);
    Shrink(e, e, 1.0);
    Shrink(Times(e, e), Times(u, v), Times(c, p));
    SumBound(Cross(x, v, y, u), Times(a, b), Cross(Abs(x), p, Abs(y), c), Times(Abs(a), Abs(b)));
    SumBound(Times(e, Cross(a, v, b, u)), Times(Times(e, e), Times(u, v)), Cross(Abs(a), p, Abs(b), c), Times(c, p));
    SumBound(Cross(x, v, y, u) + Times(a, b), Times(e, Cross(a, v, b, u)) + Times(Times(e, e), Times(u, v)),
             Cross(Abs(x), p, Abs(y), c) + Times(Abs(a), Abs(b)), Cross(Abs(a), p, Abs(b), c) + Times(c, p));
  }

  lemma NearProduct(y: real, x: real, a: real, c: real, z: real, w: real, b: real, p: real, e: real)
    requires Near(y, x, a, c, e) && Near(z, w, b, p, e) && Abs(e) <= 1.0
    ensures Near(Times(y, z), Times(x, w), Cross(a, w, x, b), ProductCap(x, a, c, w, b, p), e)
  {
    hide Expansion, ProductRest, ProductCap, Times, Cross, Abs;
    var u :| Abs(u) <= c && y == Expansion(x, a, u, e);
    var v :| Abs(v) <= p && z == Expansion(w, b, v, e);
    ProductExpansion(x, a, u, w, b, v, e);
    ProductRestBound(x, a, u, c, w, b, v, p, e);
  }

  lemma SlopeProduct(f: real -> real, g: real -> real, h: real -> real, a: real, b: real)
    requires Slope(f, a) && Slope(g, b) && forall e :: h(e) == Times(f(e), g(e))
    ensures Slope(h, Cross(a, g(0.0), f(0.0), b))
  {
    hide Near, Times, Cross, ProductCap;
    var c, r :| Expands(f, a, c, r);
    var p, q :| Expands(g, b, p, q);
    var x, y, s := f(0.0), g(0.0), Min(r, q);
    var cap := ProductCap(x, a, c, y, b, p);
    forall e | Abs(e) <= s
      ensures Near(h(e), h(0.0), Cross(a, y, x, b), cap, e)
    {
      assert h(e) == Times(f(e), g(e)) && h(0.0) == Times(x, y);
      NearProduct(f(e), x, a, c, g(e), y, b, p, e);
    }
    CapNonNegative(h(0.0), h(0.0), Cross(a, y, x, b), cap);
    assert Expands(h, Cross(a, y, x, b), cap, s);
  }

  lemma CapNonNegative(y: real, x: real, d: real, c: real)
    requires Near(y, x, d, c, 0.0)
    ensures c >= 0.0
  {
  }

  // The reciprocal of a function that does not vanish at zero

  /** The remainder coefficient of a reciprocal: `i` and `g` are the reciprocals at zero and at `e`. */
  function RecipRest(x: real, a: real, u: real, i: real, g: real, e: real): real {
    ((i * i) * g) * (a * (a + e * u) - u * x)
  }

  lemma RecipExpansion(x: real, a: real, u: real, e: real, i: real, y: real, g: real)
    requires x * i == 1.0 && y * g == 1.0 && y == Expansion(x, a, u, e)
    ensures g == Expansion(i, -(a * (i * i)), RecipRest(x, a, u, i, g, e), e)
  {
    var h := e * a + (e * e) * u;
    var k := (i * i) * g;
    RecipDifference(x, i, y, g, h);
    RecipProduct(x, i, y, g, h);
    assert (e * e) * RecipRest(x, a, u, i, g, e) == k * ((e * a) * h - ((e * e) * u) * x);
    assert i * i == k * x + k * h;
    assert e * (a * (i * i)) == (e * a) * (k * x + k * h);
    assert i - g == (k * x) * h;
  }

  /** The difference of two reciprocals over their displacement. */
  lemma RecipDifference(x: real, i: real, y: real, g: real, h: real)
    requires x * i == 1.0 && y * g == 1.0 && y == x + h
    ensures i - g == ((i * i) * g * x) * h
  {
    assert (i - g) == i * (y * g) - g * (x * i);
    assert i * (y * g) - g * (x * i) == (i * g) * h;
    assert (i * i) * g * x == (i * g) * (x * i);
  }

  lemma RecipProduct(x: real, i: real, y: real, g: real, h: real)
    requires x * i == 1.0 && y * g == 1.0 && y == x + h
    ensures i * i == ((i * i) * g) * x + ((i * i) * g) * h
  {
    assert ((i * i) * g) * x + ((i * i) * g) * h == (i * i) * (y * g);
  }

  /** Near zero, a differentiable function strays less than `gap` from its value. */
  lemma Continuous(f: real -> real, d: real, gap: real) returns (near: real)
    requires Slope(f, d) && gap > 0.0
    ensures 0.0 < near <= 1.0 && forall e :: Abs(e) <= near ==> Abs(f(e) - f(0.0)) < gap
  {
    hide Near, Times;
    var c, r :| Expands(f, d, c, r);
    near := SmallStep(gap, Abs(d) + c, r);
    forall e | Abs(e) <= near
      ensures Abs(f(e) - f(0.0)) < gap
    {
      NearDistance(f(e), f(0.0), d, c, e);
      ScaleUp(Abs(e), near, Abs(d) + c);
    }
  }

  lemma NearDistance(y: real, x: real, d: real, c: real, e: real)
    requires Near(y, x, d, c, e) && Abs(e) <= 1.0
    ensures Abs(y - x) <= Times(Abs(d) + c, Abs(e))
  {
    hide Times, Abs;
    var u :| Abs(u) <= c && y == Expansion(x, d, u, e);
    Shrink(e, u, c);
    ProductBound(e, Times(e, u), Abs(e), c);
    TimesRegroup(e, u);
    ProductBound(e, d, Abs(e), Abs(d));
    SumBound(Times(e, d), Times(Times(e, e), u), Times(Abs(e), Abs(d)), Times(Abs(e), c));
    TimesLinear(Abs(e), Abs(d), c);
    TimesLinear(Abs(e), Abs(d) + c, 0.0);
  }

  lemma TimesRegroup(e: real, u: real)
    ensures Times(Times(e, e), u) == Times(e, Times(e, u))
  {
  }

  function RecipCap(x: real, a: real, c: real, i: real): real {
    Times(Times(Times(Abs(i), Abs(i)), 2.0 * Abs(i)), Times(Abs(a), Abs(a) + c) + Times(c, Abs(x)))
  }

  lemma RecipRestBound(x: real, a: real, u: real, c: real, i: real, g: real, e: real)
    requires Abs(u) <= c && Abs(e) <= 1.0 && Abs(g) <= 2.0 * Abs(i)
    ensures Abs(RecipRest(x, a, u, i, g, e)) <= RecipCap(x, a, c, i)
  {
    RecipRestTimes(x, a, u, i, g, e);
    hide Times, Abs, RecipRest;
    Shrink(e, u, c);
    SumBound(a, Times(e, u), Abs(a), c);
    ProductBound(a, a + Times(e, u), Abs(a), Abs(a) + c);
    AbsNegate(u);
    ProductBound(-u, x, c, Abs(x));
    SumBound(Times(a, a + Times(e, u)), Times(-u, x), Times(Abs(a), Abs(a) + c), Times(c, Abs(x)));
    ProductBound(i, i, Abs(i), Abs(i));
    ProductBound(Times(i, i), g, Times(Abs(i), Abs(i)), 2.0 * Abs(i));
    ProductBound(Times(Times(i, i), g), Times(a, a + Times(e, u)) + Times(-u, x),
                 Times(Times(Abs(i), Abs(i)), 2.0 * Abs(i)), Times(Abs(a), Abs(a) + c) + Times(c, Abs(x)));
  }

  lemma AbsNegate(u: real)
    ensures Abs(-u) == Abs(u)
  {
  }

  lemma RecipRestTimes(x: real, a: real, u: real, i: real, g: real, e: real)
    ensures RecipRest(x, a, u, i, g, e) == Times(Times(Times(i, i), g), Times(a, a + Times(e, u)) + Times(-u, x))
  {
  }

  lemma NearRecip(y: real, x: real, a: real, c: real, e: real, i: real, g: real, d: real)
    requires Near(y, x, a, c, e) && Abs(e) <= 1.0 && Times(x, i) == 1.0 && Times(y, g) == 1.0
    requires Abs(g) <= 2.0 * Abs(i) && d == Times(-Times(i, i), a)
    ensures Near(g, i, d, RecipCap(x, a, c, i), e)
  {
    hide Expansion, RecipRest, RecipCap, Abs;
    var u :| Abs(u) <= c && y == Expansion(x, a, u, e);
    RecipExpansion(x, a, u, e, i, y, g);
    assert d == -(a * (i * i));
    RecipRestBound(x, a, u, c, i, g, e);
  }

  /** Half the distance to zero keeps a reciprocal within twice its size. */
  lemma HalfAway(x: real, y: real, i: real, g: real)
    requires Times(x, i) == 1.0 && Times(y, g) == 1.0 && Abs(y - x) < Abs(x) / 2.0
    ensures Abs(g) <= 2.0 * Abs(i)
  {
    var ax, ay, ai, ag := Abs(x), Abs(y), Abs(i), Abs(g);
    AbsTimes(x, i);
    AbsTimes(y, g);
    assert ay >= ax / 2.0;
    assert ax * ai == 1.0 && ay * ag == 1.0;
    ScaleUp(ax / 2.0, ay, ag);
    assert ag * (ax / 2.0) <= 1.0;
    ScaleUp(ag * (ax / 2.0), 1.0, 2.0 * ai);
    assert (2.0 * ai) * (ag * (ax / 2.0)) == ag * (ax * ai);
  }

  lemma SlopeRecip(f: real -> real, h: real -> real, a: real, i: real)
    requires Slope(f, a) && f(0.0) != 0.0 && Times(f(0.0), i) == 1.0
    requires forall e :: f(e) != 0.0 ==> Times(f(e), h(e)) == 1.0
    ensures Slope(h, Times(-Times(i, i), a))
  {
    hide Near, Times, RecipCap;
    var x, d := f(0.0), Times(-Times(i, i), a);
    var near := Continuous(f, a, Abs(x) / 2.0);
    var c, r :| Expands(f, a, c, r);
    var cap, s := RecipCap(x, a, c, i), Min(near, r);
    RecipUnique(x, i, h(0.0));
    forall e | Abs(e) <= s
      ensures Near(h(e), h(0.0), d, cap, e)
    {
      assert Abs(f(e) - x) < Abs(x) / 2.0;
      HalfAway(x, f(e), i, h(e));
      NearRecip(f(e), x, a, c, e, i, h(e), d);
    }
    CapNonNegative(h(0.0), h(0.0), d, cap);
    assert Expands(h, d, cap, s);
  }

  lemma RecipUnique(x: real, i: real, j: real)
    requires Times(x, i) == 1.0 && Times(x, j) == 1.0
    ensures i == j
  {
    assert i == i * (x * j) && j == j * (x * i);
  }
}
