/** When the cumulative-extremum rule is the derivative: exactly where no prefix has a tie. */
module ExtremaAdjoint {
  import opened Vectors
  import opened Graph
  import opened Calculus
  import opened Scans
  import opened Extrema

  /** The movement of the best of the first `n` elements, dual-number style. */
  function BestTangent(kind: Extremum, x: Vec, v: Vec, n: nat): real
    requires 0 < n <= |x| == |v|
  {
    if n == 1 then v[0]
    else if Beats(kind, x[n - 1], Best(kind, x, n - 1)) then v[n - 1]
    else BestTangent(kind, x, v, n - 1)
  }

  function BestsTangents(kind: Extremum, x: Vec, v: Vec): (t: Vec)
    requires |x| == |v|
    ensures |t| == |x| && forall j :: 0 <= j < |x| ==> t[j] == BestTangent(kind, x, v, j + 1)
  {
    seq(|x|, j requires 0 <= j < |x| => BestTangent(kind, x, v, j + 1))
  }

  /** The position of the best of the first `n` elements: the first one, when several tie. */
  function Leader(kind: Extremum, x: Vec, n: nat): (w: nat)
    requires 0 < n <= |x|
    ensures w < n && x[w] == Best(kind, x, n)
  {
    if n == 1 then 0
    else if Beats(kind, x[n - 1], Best(kind, x, n - 1)) then n - 1
    else Leader(kind, x, n - 1)
  }

  /** The best moves with its leader. */
  lemma {:induction false} BestFollows(kind: Extremum, x: Vec, v: Vec, n: nat)
    requires 0 < n <= |x| == |v|
    ensures BestTangent(kind, x, v, n) == v[Leader(kind, x, n)]
  {
    if n > 1 {
      BestFollows(kind, x, v, n - 1);
    }
  }

  /** Only one of the first `n` elements is their best. */
  ghost predicate Untied(kind: Extremum, x: Vec, n: nat)
    requires 0 < n <= |x|
  {
    forall i, k :: 0 <= i < n && 0 <= k < n && x[i] == Best(kind, x, n) && x[k] == Best(kind, x, n) ==> i == k
  }

  // A prefix without a tie

  lemma {:induction false} CountUntied(kind: Extremum, x: Vec, j: nat, w: nat, m: nat)
    requires j < |x| && m <= |x| && Untied(kind, x, j + 1) && w <= j && x[w] == Best(kind, x, j + 1)
    ensures Count(x, Bests(kind, x), j, m) == if w < m then 1.0 else 0.0
  {
    if m > 0 {
      CountUntied(kind, x, j, w, m - 1);
    }
  }

  /** Its winner gets its whole gradient and nobody else gets any. */
  lemma ShareUntied(kind: Extremum, u: Vec, x: Vec, i: nat, j: nat, w: nat)
    requires |u| == |x| && i < |x| && j < |x| && Untied(kind, x, j + 1) && w <= j && x[w] == Best(kind, x, j + 1)
    ensures Contribution(u, x, Bests(kind, x), i, j) == if i == w then u[j] else 0.0
  {
    CountUntied(kind, x, j, w, |x|);
  }

  /** What prefix `j` sends to the first `m` positions, paired with a movement. */
  function SentAlong(u: Vec, x: Vec, values: Vec, v: Vec, j: nat, m: nat): real
    requires |u| == |values| == |x| == |v| && j < |x| && m <= |x|
  {
    if m == 0 then 0.0 else SentAlong(u, x, values, v, j, m - 1) + Times(Contribution(u, x, values, m - 1, j), v[m - 1])
  }

  lemma {:induction false} SentUntied(kind: Extremum, u: Vec, x: Vec, v: Vec, j: nat, w: nat, m: nat)
    requires |u| == |x| == |v| && j < |x| && m <= |x|
    requires Untied(kind, x, j + 1) && w <= j && x[w] == Best(kind, x, j + 1)
    ensures SentAlong(u, x, Bests(kind, x), v, j, m) == if w < m then Times(u[j], v[w]) else 0.0
    decreases m
  {
    hide Contribution, Untied, Times;
    if m > 0 {
      SentUntied(kind, u, x, v, j, w, m - 1);
      ShareUntied(kind, u, x, m - 1, j, w);
      TimesZero(v[m - 1]);
    }
  }

  // Exchanging the sums over positions and over prefixes

  /** What the first `m` positions receive from the first `n` prefixes, paired with a movement. */
  function ReceivedAlong(u: Vec, x: Vec, values: Vec, v: Vec, n: nat, m: nat): real
    requires |u| == |values| == |x| == |v| && n <= |x| && m <= |x|
  {
    if m == 0 then 0.0
    else ReceivedAlong(u, x, values, v, n, m - 1) + Times(Received(u, x, values, m - 1, n), v[m - 1])
  }

  lemma {:induction false} ReceivedNone(u: Vec, x: Vec, values: Vec, v: Vec, m: nat)
    requires |u| == |values| == |x| == |v| && m <= |x|
    ensures ReceivedAlong(u, x, values, v, 0, m) == 0.0
  {
    if m > 0 {
      ReceivedNone(u, x, values, v, m - 1);
    }
  }

  lemma {:induction false} ReceivedNext(u: Vec, x: Vec, values: Vec, v: Vec, n: nat, m: nat)
    requires |u| == |values| == |x| == |v| && 0 < n <= |x| && m <= |x|
    ensures ReceivedAlong(u, x, values, v, n, m) ==
            ReceivedAlong(u, x, values, v, n - 1, m) + SentAlong(u, x, values, v, n - 1, m)
    decreases m
  {
    hide Contribution, Times;
    if m > 0 {
      ReceivedNext(u, x, values, v, n, m - 1);
      TimesSum(Received(u, x, values, m - 1, n - 1), Contribution(u, x, values, m - 1, n - 1), v[m - 1]);
    }
  }

  lemma {:induction false} DotReceived(u: Vec, x: Vec, values: Vec, v: Vec, m: nat)
    requires |u| == |values| == |x| == |v| && m <= |x|
    ensures Dot(BestsVjp(u, x, values)[..m], v[..m]) == ReceivedAlong(u, x, values, v, |x|, m)
  {
    hide Received, Times;
    if m > 0 {
      DotReceived(u, x, values, v, m - 1);
      var g := BestsVjp(u, x, values);
      assert g[..m][..m - 1] == g[..m - 1] && v[..m][..m - 1] == v[..m - 1];
    }
  }

  ghost predicate NeverTied(kind: Extremum, x: Vec) {
    forall n :: 0 < n <= |x| ==> Untied(kind, x, n)
  }

  lemma {:induction false} ReceivedIsTangent(kind: Extremum, u: Vec, x: Vec, v: Vec, n: nat)
    requires |u| == |x| == |v| && n <= |x| && NeverTied(kind, x)
    ensures ReceivedAlong(u, x, Bests(kind, x), v, n, |x|) == Dot(u[..n], BestsTangents(kind, x, v)[..n])
  {
    hide SentAlong, Times, Untied, BestTangent;
    if n == 0 {
      ReceivedNone(u, x, Bests(kind, x), v, |x|);
    } else {
      ReceivedIsTangent(kind, u, x, v, n - 1);
      ReceivedNext(u, x, Bests(kind, x), v, n, |x|);
      BestFollows(kind, x, v, n);
      SentUntied(kind, u, x, v, n - 1, Leader(kind, x, n), |x|);
      var t := BestsTangents(kind, x, v);
      assert u[..n][..n - 1] == u[..n - 1] && t[..n][..n - 1] == t[..n - 1];
    }
  }

  ghost predicate IsAdjoint(kind: Extremum, x: Vec, u: Vec, v: Vec)
    requires |u| == |x| == |v|
  {
    Dot(BestsVjp(u, x, Bests(kind, x)), v) == Dot(u, BestsTangents(kind, x, v))
  }

  lemma UntiedIsAdjoint(kind: Extremum, u: Vec, x: Vec, v: Vec)
    requires |u| == |x| == |v| && NeverTied(kind, x)
    ensures IsAdjoint(kind, x, u, v)
  {
    hide NeverTied, Dot, Times;
    var n := |x|;
    DotReceived(u, x, Bests(kind, x), v, n);
    ReceivedIsTangent(kind, u, x, v, n);
    var g, t := BestsVjp(u, x, Bests(kind, x)), BestsTangents(kind, x, v);
    assert g[..n] == g && v[..n] == v && u[..n] == u && t[..n] == t;
  }

  // A prefix with a tie

  lemma {:induction false} ReceivedBasis(x: Vec, values: Vec, i: nat, j: nat, n: nat)
    requires |values| == |x| && i < |x| && j < |x| && n <= |x|
    ensures Received(Basis(|x|, j), x, values, i, n) ==
            if j < n then Contribution(Basis(|x|, j), x, values, i, j) else 0.0
  {
    if n > 0 {
      ReceivedBasis(x, values, i, j, n - 1);
      if n - 1 != j {
        NothingSent(Winner(x, values, i, n - 1), Count(x, values, n - 1, |x|));
        assert Basis(|x|, j)[n - 1] == 0.0;
      }
    }
  }

  lemma NothingSent(w: real, count: real)
    ensures BinaryValue(Div, BinaryValue(Mul, w, 0.0), count) == 0.0
  {
  }

  lemma TiedShare(kind: Extremum, x: Vec, i: nat, j: nat)
    requires i <= j < |x| && x[i] == Best(kind, x, j + 1)
    ensures Contribution(Basis(|x|, j), x, Bests(kind, x), i, j) != 0.0
  {
    hide Count;
    WinnersExist(kind, x, j);
    ShareOfOne(Count(x, Bests(kind, x), j, |x|));
    assert Winner(x, Bests(kind, x), i, j) == 1.0 && Basis(|x|, j)[j] == 1.0;
  }

  lemma ShareOfOne(count: real)
    requires count >= 1.0
    ensures BinaryValue(Div, BinaryValue(Mul, 1.0, 1.0), count) != 0.0
  {
    assert (1.0 / count) * count == 1.0;
  }

  /** A tied position that does not lead receives a share all the same. */
  lemma TiedIsNotAdjoint(kind: Extremum, x: Vec, n: nat) returns (u: Vec, v: Vec)
    requires 0 < n <= |x| && !Untied(kind, x, n)
    ensures |u| == |x| == |v| && !IsAdjoint(kind, x, u, v)
  {
    hide Dot, Contribution, Count, BestTangent, Received, Leader;
    var j, w := n - 1, Leader(kind, x, n);
    var a, b :| 0 <= a < n && 0 <= b < n && x[a] == Best(kind, x, n) && x[b] == Best(kind, x, n) && a != b;
    var i: nat := if w == a then b else a;
    u, v := Basis(|x|, j), Basis(|x|, i);
    DotBasis(BestsVjp(u, x, Bests(kind, x)), i);
    ReceivedBasis(x, Bests(kind, x), i, j, |x|);
    TiedShare(kind, x, i, j);
    DotSymmetric(u, BestsTangents(kind, x, v));
    DotBasis(BestsTangents(kind, x, v), j);
    BestFollows(kind, x, v, n);
  }

  /** The rule is the adjoint of the tangent exactly where no prefix has a tie. */
  lemma AdjointExactlyWithoutTies(kind: Extremum, x: Vec)
    ensures NeverTied(kind, x) <==> forall u: Vec, v: Vec :: |u| == |x| == |v| ==> IsAdjoint(kind, x, u, v)
  {
    hide IsAdjoint, Untied;
    if NeverTied(kind, x) {
      forall u: Vec, v: Vec | |u| == |x| == |v|
        ensures IsAdjoint(kind, x, u, v)
      {
        UntiedIsAdjoint(kind, u, x, v);
      }
    } else {
      var n :| 0 < n <= |x| && !Untied(kind, x, n);
      var u, v := TiedIsNotAdjoint(kind, x, n);
    }
  }

  // Without a tie the tangent is the derivative

  function Shifted(x: Vec, v: Vec, e: real): (y: Vec)
    requires |x| == |v|
    ensures |y| == |x| && forall k :: 0 <= k < |x| ==> y[k] == x[k] + Times(e, v[k])
  {
    seq(|x|, k requires 0 <= k < |x| => x[k] + Times(e, v[k]))
  }

  /** A strictly better element stays better under small movements. */
  lemma StaysAhead(kind: Extremum, a: real, b: real, s: real, t: real) returns (near: real)
    requires Beats(kind, a, b)
    ensures 0.0 < near <= 1.0 && forall e :: Abs(e) <= near ==> Beats(kind, a + Times(e, s), b + Times(e, t))
  {
    near := SmallStep(Abs(a - b), Abs(s - t), 1.0);
    forall e | Abs(e) <= near
      ensures Beats(kind, a + Times(e, s), b + Times(e, t))
    {
      MovesLittle(e, near, s - t);
      TimesLinear(e, s, t);
    }
  }

  lemma MovesLittle(e: real, near: real, d: real)
    requires Abs(e) <= near
    ensures Abs(Times(e, d)) <= Times(Abs(d), near)
  {
    ScaleUp(e, near, Abs(d));
    ScaleUp(-e, near, Abs(d));
    assert Times(e, d) == if d < 0.0 then Times(Abs(d), -e) else Times(Abs(d), e);
  }

  /** Whether position `w` beats the first `m` others. */
  ghost predicate Ahead(kind: Extremum, x: Vec, w: nat, m: nat)
    requires m <= |x| && w < |x|
  {
    forall k :: 0 <= k < m && k != w ==> Beats(kind, x[w], x[k])
  }

  lemma {:induction false} AllStayBehind(kind: Extremum, x: Vec, v: Vec, w: nat, m: nat) returns (near: real)
    requires m <= |x| == |v| && w < |x| && Ahead(kind, x, w, m)
    ensures 0.0 < near <= 1.0 && forall e :: Abs(e) <= near ==> Ahead(kind, Shifted(x, v, e), w, m)
  {
    if m == 0 {
      near := 1.0;
    } else {
      near := AllStayBehind(kind, x, v, w, m - 1);
      if m - 1 != w {
        var step := StaysAhead(kind, x[w], x[m - 1], v[w], v[m - 1]);
        near := Min(near, step);
      }
    }
  }

  lemma UntiedAhead(kind: Extremum, x: Vec, n: nat)
    requires 0 < n <= |x| && Untied(kind, x, n)
    ensures Ahead(kind, x, Leader(kind, x, n), n)
  {
    var i := BestIsBest(kind, x, n);
  }

  lemma AheadIsBest(kind: Extremum, x: Vec, w: nat, n: nat)
    requires w < n <= |x| && Ahead(kind, x, w, n)
    ensures Best(kind, x, n) == x[w]
  {
    var i := BestIsBest(kind, x, n);
  }

  /** The best of the first `n` elements as the line moves along `v`. */
  function Along(kind: Extremum, x: Vec, v: Vec, n: nat): (f: real -> real)
    requires 0 < n <= |x| == |v|
    ensures forall e :: f(e) == Best(kind, Shifted(x, v, e), n)
  {
    (e: real) => Best(kind, Shifted(x, v, e), n)
  }

  /** The best of an untied prefix is differentiable, and its tangent is its derivative. */
  lemma BestSlope(kind: Extremum, x: Vec, v: Vec, n: nat)
    requires 0 < n <= |x| == |v| && Untied(kind, x, n)
    ensures Slope(Along(kind, x, v, n), BestTangent(kind, x, v, n))
  {
    hide Best, Slope, Ahead, Untied, Times, Along;
    var w := Leader(kind, x, n);
    BestFollows(kind, x, v, n);
    UntiedAhead(kind, x, n);
    var near := AllStayBehind(kind, x, v, w, n);
    var line := (e: real) => x[w] + Times(e, v[w]);
    SlopeLine(line, x[w], v[w]);
    forall e | Abs(e) <= near
      ensures Along(kind, x, v, n)(e) == line(e)
    {
      AheadIsBest(kind, Shifted(x, v, e), w, n);
    }
    SlopeLocal(line, Along(kind, x, v, n), v[w], near);
  }

  // At a tie there is no derivative

  /** A derivative is the slope of any straight part to the right. */
  lemma SlopeFromRight(f: real -> real, a: real, b: real)
    requires Slope(f, a) && forall e :: e > 0.0 ==> f(e) == f(0.0) + Times(e, b)
    ensures a == b
  {
    hide Near, Times;
    var c, r :| Expands(f, a, c, r);
    if a != b {
      var s := SmallStep(Abs(a - b), c, r);
      assert Near(f(s), f(0.0), b, 0.0, s) by {
        StraightNear(f(s), f(0.0), b, s);
      }
      CloseSlopes(f(s), f(0.0), a, b, s, c, 0.0);
    }
  }

  lemma StraightNear(y: real, x: real, d: real, e: real)
    requires y == x + Times(e, d)
    ensures Near(y, x, d, 0.0, e)
  {
    assert y == Expansion(x, d, 0.0, e);
  }

  /** Reading a function backwards turns its derivative around. */
  lemma SlopeReflected(f: real -> real, g: real -> real, d: real)
    requires Slope(f, d) && forall e :: g(e) == f(-e)
    ensures Slope(g, -d)
  {
    hide Near;
    var c, r :| Expands(f, d, c, r);
    forall e | Abs(e) <= r
      ensures Near(g(e), g(0.0), -d, c, e)
    {
      assert Abs(-e) <= r && g(0.0) == f(0.0);
      NearReflected(f(-e), f(0.0), d, c, e);
    }
    assert Expands(g, -d, c, r);
  }

  lemma NearReflected(y: real, x: real, d: real, c: real, e: real)
    requires Near(y, x, d, c, -e)
    ensures Near(y, x, -d, c, e)
  {
    var u :| Abs(u) <= c && y == Expansion(x, d, u, -e);
    assert Times(-e, d) == Times(e, -d) && Times(-e, -e) == Times(e, e);
    assert y == Expansion(x, -d, u, e);
  }

  /** Moving one of two tied positions moves the best when it moves ahead, and not when it falls behind. */
  lemma TiedMoves(kind: Extremum, x: Vec, n: nat, a: nat, b: nat, e: real)
    requires 0 < n <= |x| && a < n && b < n && a != b && x[a] == Best(kind, x, n) == x[b]
    ensures Best(kind, Shifted(x, Basis(|x|, a), e), n) ==
            Best(kind, x, n) + if Beats(kind, e, 0.0) then e else 0.0
  {
    hide Best;
    var y := Shifted(x, Basis(|x|, a), e);
    BasisMoves(x, a, e);
    var i := BestIsBest(kind, x, n);
    if Beats(kind, e, 0.0) {
      AheadIsBest(kind, y, a, n);
    } else {
      var j := BestIsBest(kind, y, n);
      assert !Beats(kind, y[b], y[j]) && !Beats(kind, x[j], x[i]);
    }
  }

  lemma BasisMoves(x: Vec, a: nat, e: real)
    requires a < |x|
    ensures forall k :: 0 <= k < |x| ==> Shifted(x, Basis(|x|, a), e)[k] == if k == a then x[k] + e else x[k]
  {
  }

  /** The slope of a turning function to the right of zero. */
  function RightSide(kind: Extremum): real {
    if kind == Maximum then 1.0 else 0.0
  }

  lemma SlopeOnRight(kind: Extremum, f: real -> real, y: real, d: real)
    requires Slope(f, d) && forall e :: f(e) == y + if Beats(kind, e, 0.0) then e else 0.0
    ensures d == RightSide(kind)
  {
    hide Slope;
    forall e | e > 0.0
      ensures f(e) == f(0.0) + Times(e, RightSide(kind))
    {
      OneOrNone(e);
    }
    SlopeFromRight(f, d, RightSide(kind));
  }

  lemma SlopeOnLeft(kind: Extremum, g: real -> real, y: real, d: real)
    requires Slope(g, d) && forall e :: g(e) == y + if Beats(kind, -e, 0.0) then -e else 0.0
    ensures d == RightSide(kind) - 1.0
  {
    hide Slope;
    forall e | e > 0.0
      ensures g(e) == g(0.0) + Times(e, RightSide(kind) - 1.0)
    {
      OneOrNone(e);
    }
    SlopeFromRight(g, d, RightSide(kind) - 1.0);
  }

  /** A function that turns at zero has no derivative there. */
  lemma KinkHasNoSlope(kind: Extremum, f: real -> real, y: real, d: real)
    requires forall e :: f(e) == y + if Beats(kind, e, 0.0) then e else 0.0
    ensures !Slope(f, d)
  {
    hide Slope, Beats;
    if Slope(f, d) {
      var g := (e: real) => f(-e);
      SlopeReflected(f, g, d);
      SlopeOnRight(kind, f, y, d);
      SlopeOnLeft(kind, g, y, -d);
    }
  }

  /** At a tie the best has no derivative in the direction of one tied position alone. */
  lemma TiedHasNoSlope(kind: Extremum, x: Vec, n: nat) returns (v: Vec)
    requires 0 < n <= |x| && !Untied(kind, x, n)
    ensures |v| == |x| && forall d :: !Slope(Along(kind, x, v, n), d)
  {
    hide Best, Slope, Along, Beats;
    var a: nat, b: nat :| a < n && b < n && x[a] == Best(kind, x, n) && x[b] == Best(kind, x, n) && a != b;
    v := Basis(|x|, a);
    var f := Along(kind, x, v, n);
    forall e
      ensures f(e) == Best(kind, x, n) + if Beats(kind, e, 0.0) then e else 0.0
    {
      TiedMoves(kind, x, n, a, b, e);
    }
    forall d
      ensures !Slope(f, d)
    {
      KinkHasNoSlope(kind, f, Best(kind, x, n), d);
    }
  }

  lemma OneOrNone(e: real)
    ensures Times(e, 1.0) == e && Times(e, 0.0) == 0.0 && Times(e, -1.0) == -e
  {
  }

  ghost predicate Differentiable(kind: Extremum, x: Vec, v: Vec, n: nat)
    requires 0 < n <= |x| == |v|
  {
    exists d :: Slope(Along(kind, x, v, n), d)
  }

  /** The best of a prefix is differentiable in every direction exactly when the prefix has no tie. */
  lemma DifferentiableExactlyWithoutTie(kind: Extremum, x: Vec, n: nat)
    requires 0 < n <= |x|
    ensures Untied(kind, x, n) <==> forall v: Vec :: |v| == |x| ==> Differentiable(kind, x, v, n)
  {
    hide Slope, Along, Untied, BestTangent;
    if Untied(kind, x, n) {
      forall v: Vec | |v| == |x|
        ensures Differentiable(kind, x, v, n)
      {
        BestSlope(kind, x, v, n);
      }
    } else {
      var v := TiedHasNoSlope(kind, x, n);
    }
  }
}
