/** Forward-mode tangents are the derivatives of the evaluated graph. */
module Derivative {
  import opened Shapes
  import opened Axes
  import opened Vectors
  import opened Graph
  import opened Reverse
  import opened Calculus

  function Shifted(x: Vec, v: Vec, e: real): (y: Vec)
    requires |v| == |x|
    ensures |y| == |x| && forall k :: 0 <= k < |y| ==> y[k] == x[k] + Times(e, v[k])
  {
    seq(|x|, k requires 0 <= k < |x| => x[k] + Times(e, v[k]))
  }

  /** Node `i` does not follow its operands: it is replaced already, or it is a gradient barrier. */
  ghost predicate Held(ns: Arena, pt: Point, i: nat)
    requires i < |ns|
  {
    Pinned(pt, i, ns[i]) || ns[i].op.Detach?
  }

  /** The point at displacement `e`: the target moves along `d` and every held node keeps its value. */
  ghost function Displaced(ns: Arena, pt: Point, d: Direction, e: real): Point
    requires WellFormed(ns) && Aims(ns, d)
  {
    var vs := Values(ns, pt);
    Point(pt.feeds,
          map i: nat | 0 <= i < |ns| && (i == d.at || Held(ns, pt, i)) ::
            if i == d.at then Shifted(vs[i], d.v, e) else vs[i])
  }

  /** Element `k` of node `i` as a function of the displacement. */
  ghost function Curve(ns: Arena, pt: Point, d: Direction, i: nat, k: nat): real -> real
    requires WellFormed(ns) && Aims(ns, d) && i < |ns| && k < Numel(ns[i].shape)
  {
    (e: real) => Values(ns, Displaced(ns, pt, d, e))[i][k]
  }

  lemma DisplacedValue(ns: Arena, pt: Point, d: Direction, e: real, i: nat)
    requires WellFormed(ns) && Aims(ns, d) && i < |ns|
    ensures NodeOk(ns[..i], ns[i])
    ensures var vs, ws := Values(ns, pt), Values(ns, Displaced(ns, pt, d, e));
            Sized(ns[..i], ws[..i]) &&
            ws[i] == if i == d.at then Shifted(vs[i], d.v, e)
                     else if Held(ns, pt, i) then vs[i]
                     else Evaluate(ns[..i], ns[i], ws[..i], pt.feeds)
  {
    hide Values, WellFormed, Evaluate;
    ValueAt(ns, Displaced(ns, pt, d, e), i);
  }

  /** At displacement zero nothing has moved. */
  lemma {:induction false} AtRest(ns: Arena, pt: Point, d: Direction, i: nat)
    requires WellFormed(ns) && Aims(ns, d) && i <= |ns|
    ensures Values(ns, Displaced(ns, pt, d, 0.0))[..i] == Values(ns, pt)[..i]
  {
    hide Values, WellFormed, Evaluate;
    if i > 0 {
      var vs, ws := Values(ns, pt), Values(ns, Displaced(ns, pt, d, 0.0));
      AtRest(ns, pt, d, i - 1);
      DisplacedValue(ns, pt, d, 0.0, i - 1);
      ValueAt(ns, pt, i - 1);
      assert Shifted(vs[i - 1], vs[i - 1], 0.0) == vs[i - 1];
      if i - 1 == d.at {
        assert Shifted(vs[i - 1], d.v, 0.0) == vs[i - 1];
      }
      assert ws[i - 1] == vs[i - 1];
      assert ws[..i] == ws[..i - 1] + [ws[i - 1]] && vs[..i] == vs[..i - 1] + [vs[i - 1]];
    }
  }

  lemma CurveStart(ns: Arena, pt: Point, d: Direction, i: nat, k: nat)
    requires WellFormed(ns) && Aims(ns, d) && i < |ns| && k < Numel(ns[i].shape)
    ensures Curve(ns, pt, d, i, k)(0.0) == Values(ns, pt)[i][k]
  {
    hide Values, WellFormed, Displaced, NodeOk;
    AtRest(ns, pt, d, |ns|);
    var vs, ws := Values(ns, pt), Values(ns, Displaced(ns, pt, d, 0.0));
    assert vs == vs[..|ns|] && ws == ws[..|ns|];
  }

  /** No kink or pole at the point: divisors and the operands of Relu and Step are nonzero, compared
      operands differ, and selections are made by nodes outside the differentiated part. */
  ghost predicate Smooth(ns: Arena, pt: Point, d: Direction, i: nat)
    requires WellFormed(ns) && i < |ns| && NodeOk(ns, ns[i])
  {
    var vs, s := Values(ns, pt), ns[i].shape;
    match ns[i].op
    case Unary(op, a) =>
      op == Reciprocal || op == Relu || op == Step ==> forall k :: 0 <= k < |vs[a]| ==> vs[a][k] != 0.0
    case Binary(op, a, b) =>
      op == Div ==> forall k :: 0 <= k < |vs[b]| ==> vs[b][k] != 0.0
    case Compare(_, a, b) =>
      forall k :: 0 <= k < Numel(s) ==> Operand(ns, vs, a, s)[k] != Operand(ns, vs, b, s)[k]
    case Select(c, _, _) => c != d.at && BackwardInputs(ns[c].op) == []
    case _ => true
  }

  lemma NodeOkEverywhere(ns: Arena, i: nat)
    requires WellFormed(ns) && i < |ns|
    ensures NodeOk(ns, ns[i]) && NodeOk(ns[..i], ns[i])
  {
    hide WellFormed, LinearOk, Fits;
    WellFormedPrefix(ns, i);
  }

  /** The derivative statement for one element of one node. */
  ghost predicate Follows(ns: Arena, pt: Point, d: Direction, i: nat, k: nat)
    requires WellFormed(ns) && Aims(ns, d) && i < |ns| && k < Numel(ns[i].shape)
  {
    Slope(Curve(ns, pt, d, i, k), Tangents(ns, pt, d)[i][k])
  }

  lemma HeldFollows(ns: Arena, pt: Point, d: Direction, i: nat, k: nat)
    requires WellFormed(ns) && Aims(ns, d) && i < |ns| && k < Numel(ns[i].shape)
    requires i == d.at || Held(ns, pt, i)
    ensures Follows(ns, pt, d, i, k)
  {
    hide Values, WellFormed, Tangents, Slope, Times, Evaluate;
    TangentAt(ns, pt, d, i);
    var f, x := Curve(ns, pt, d, i, k), Values(ns, pt)[i][k];
    forall e
      ensures f(e) == if i == d.at then x + Times(e, d.v[k]) else x
    {
      DisplacedValue(ns, pt, d, e, i);
    }
    if i == d.at {
      SlopeLine(f, x, d.v[k]);
    } else {
      SlopeConstant(f, 1.0);
    }
  }

  lemma UnaryFollows(ns: Arena, pt: Point, d: Direction, i: nat, k: nat)
    requires WellFormed(ns) && Aims(ns, d) && i < |ns| && k < Numel(ns[i].shape)
    requires i != d.at && !Held(ns, pt, i) && ns[i].op.Unary? && NodeOk(ns[..i], ns[i]) && NodeOk(ns, ns[i])
    requires Smooth(ns, pt, d, i) && Follows(ns, pt, d, ns[i].op.input, k)
    ensures Follows(ns, pt, d, i, k)
  {
    hide Values, WellFormed, Tangents, Slope, Times, Curve;
    TangentAt(ns, pt, d, i);
    var op, a := ns[i].op.uop, ns[i].op.input;
    var h, f := Curve(ns, pt, d, i, k), Curve(ns, pt, d, a, k);
    var t, x := Tangents(ns, pt, d)[a][k], Values(ns, pt)[a][k];
    CurveStart(ns, pt, d, a, k);
    forall e
      ensures h(e) == UnaryValue(op, f(e))
    {
      UnaryCurve(ns, pt, d, i, k, e);
    }
    UnaryChain(op, f, h, x, t);
  }

  lemma UnaryCurve(ns: Arena, pt: Point, d: Direction, i: nat, k: nat, e: real)
    requires WellFormed(ns) && Aims(ns, d) && i < |ns| && k < Numel(ns[i].shape)
    requires i != d.at && !Held(ns, pt, i) && ns[i].op.Unary? && NodeOk(ns[..i], ns[i])
    ensures Curve(ns, pt, d, i, k)(e) == UnaryValue(ns[i].op.uop, Curve(ns, pt, d, ns[i].op.input, k)(e))
  {
    hide Values, WellFormed;
    DisplacedValue(ns, pt, d, e, i);
  }

  /** The chain rule for each unary operation. */
  lemma UnaryChain(op: UnaryOp, f: real -> real, h: real -> real, x: real, t: real)
    requires Slope(f, t) && f(0.0) == x && forall e :: h(e) == UnaryValue(op, f(e))
    requires op == Reciprocal || op == Relu || op == Step ==> x != 0.0
    ensures Slope(h, Times(UnarySlope(op, x), t))
  {
    hide Slope, Times;
    match op
    case Neg => NegateChain(f, h, t);
    case Square => SquareChain(f, h, x, t);
    case Reciprocal => RecipChain(f, h, x, t);
    case Relu => ReluChain(f, h, x, t);
    case Step => StepChain(f, h, x, t);
  }

  lemma NegateChain(f: real -> real, h: real -> real, t: real)
    requires Slope(f, t) && forall e :: h(e) == -f(e)
    ensures Slope(h, Times(-1.0, t))
  {
    hide Slope;
    var minus := (e: real) => -1.0;
    SlopeConstant(minus, 1.0);
    SlopeProduct(minus, f, h, 0.0, t);
    assert Cross(0.0, f(0.0), minus(0.0), t) == Times(-1.0, t);
  }

  lemma SquareChain(f: real -> real, h: real -> real, x: real, t: real)
    requires Slope(f, t) && f(0.0) == x && forall e :: h(e) == f(e) * f(e)
    ensures Slope(h, Times(2.0 * x, t))
  {
    hide Slope;
    SlopeProduct(f, f, h, t, t);
    assert Cross(t, x, x, t) == Times(2.0 * x, t);
  }

  lemma RecipTimes(x: real)
    requires x != 0.0
    ensures Times(x, Recip(x)) == 1.0
  {
  }

  lemma RecipChain(f: real -> real, h: real -> real, x: real, t: real)
    requires Slope(f, t) && f(0.0) == x && x != 0.0 && forall e :: h(e) == Recip(f(e))
    ensures Slope(h, Times(UnarySlope(Reciprocal, x), t))
  {
    hide Slope;
    var i := Recip(x);
    RecipTimes(x);
    forall e | f(e) != 0.0
      ensures Times(f(e), h(e)) == 1.0
    {
      RecipTimes(f(e));
    }
    SlopeRecip(f, h, t, i);
    assert Times(i, i) == i * i;
  }

  lemma ReluChain(f: real -> real, h: real -> real, x: real, t: real)
    requires Slope(f, t) && f(0.0) == x && x != 0.0
    requires forall e :: h(e) == if f(e) > 0.0 then f(e) else 0.0
    ensures Slope(h, Times(Flag(x > 0.0), t))
  {
    hide Slope;
    var near := Continuous(f, t, Abs(x));
    forall e | Abs(e) <= near
      ensures h(e) == if x > 0.0 then f(e) else 0.0
    {
      assert Abs(f(e) - f(0.0)) < Abs(x) && h(e) == if f(e) > 0.0 then f(e) else 0.0;
    }
    if x > 0.0 {
      SlopeLocal(f, h, t, near);
      assert Times(1.0, t) == t;
    } else {
      assert Abs(0.0) <= near;
      SlopeConstant(h, near);
      assert Times(0.0, t) == 0.0;
    }
  }

  lemma StepChain(f: real -> real, h: real -> real, x: real, t: real)
    requires Slope(f, t) && f(0.0) == x && x != 0.0 && forall e :: h(e) == Flag(f(e) > 0.0)
    ensures Slope(h, Times(0.0, t))
  {
    hide Slope;
    var near := Continuous(f, t, Abs(x));
    forall e | Abs(e) <= near
      ensures h(e) == h(0.0)
    {
      assert Abs(f(e) - f(0.0)) < Abs(x) && h(e) == Flag(f(e) > 0.0) && h(0.0) == Flag(f(0.0) > 0.0);
    }
    SlopeConstant(h, near);
    assert Times(0.0, t) == 0.0;
  }

  /** The chain rule for each binary operation. */
  lemma BinaryChain(op: BinaryOp, f: real -> real, g: real -> real, inverse: real -> real, h: real -> real, s: real,
                    t: real)
    requires Slope(f, s) && Slope(g, t) && forall e :: h(e) == BinaryValue(op, f(e), g(e))
    requires forall e :: inverse(e) == Recip(g(e))
    requires op == Div ==> g(0.0) != 0.0
    ensures Slope(h, Times(LeftSlope(op, f(0.0), g(0.0)), s) + Times(RightSlope(op, f(0.0), g(0.0)), t))
  {
    hide Slope;
    var x, y := f(0.0), g(0.0);
    match op
    case Add => SlopeSum(f, g, h, s, t, Times(1.0, s) + Times(1.0, t));
    case Sub => DifferenceChain(f, g, h, s, t);
    case Mul =>
      SlopeProduct(f, g, h, s, t);
      assert Cross(s, y, x, t) == Times(y, s) + Times(x, t);
    case Div =>
      forall e
        ensures h(e) == Times(f(e), inverse(e))
      {
      }
      QuotientChain(f, g, inverse, h, s, t);
  }

  lemma DifferenceChain(f: real -> real, g: real -> real, h: real -> real, s: real, t: real)
    requires Slope(f, s) && Slope(g, t) && forall e :: h(e) == f(e) - g(e)
    ensures Slope(h, Times(1.0, s) + Times(-1.0, t))
  {
    hide Slope;
    var minus := (e: real) => -g(e);
    NegateChain(g, minus, t);
    SlopeSum(f, minus, h, s, Times(-1.0, t), Times(1.0, s) + Times(-1.0, t));
  }

  lemma QuotientChain(f: real -> real, g: real -> real, inverse: real -> real, h: real -> real, s: real, t: real)
    requires Slope(f, s) && Slope(g, t) && g(0.0) != 0.0
    requires (forall e :: inverse(e) == Recip(g(e))) && (forall e :: h(e) == Times(f(e), inverse(e)))
    ensures Slope(h, Times(LeftSlope(Div, f(0.0), g(0.0)), s) + Times(RightSlope(Div, f(0.0), g(0.0)), t))
  {
    hide Slope, Times, Recip, Cross, UnarySlope, LeftSlope, RightSlope;
    var x, y := f(0.0), g(0.0);
    RecipChain(g, inverse, y, t);
    SlopeProduct(f, inverse, h, s, Times(UnarySlope(Reciprocal, y), t));
    QuotientRule(x, y, s, t);
  }

  lemma QuotientRule(x: real, y: real, s: real, t: real)
    requires y != 0.0
    ensures Cross(s, Recip(y), x, Times(UnarySlope(Reciprocal, y), t)) ==
            Times(LeftSlope(Div, x, y), s) + Times(RightSlope(Div, x, y), t)
  {
    var i := Recip(y);
    assert Recip(y * y) == i * i by {
      assert y * y != 0.0;
      assert (y * y) * (i * i) == (y * i) * (y * i) == 1.0;
      RecipTimes(y * y);
      RecipUnique(y * y, i * i, Recip(y * y));
    }
    assert x * (-(i * i) * t) == -(x * (i * i)) * t;
  }

  ghost function InverseCurve(ns: Arena, pt: Point, d: Direction, i: nat, k: nat): (f: real -> real)
    requires WellFormed(ns) && Aims(ns, d) && i < |ns| && k < Numel(ns[i].shape)
    ensures forall e :: f(e) == Recip(Curve(ns, pt, d, i, k)(e))
  {
    (e: real) => Recip(Values(ns, Displaced(ns, pt, d, e))[i][k])
  }

  /** At a smooth point a divisor is not zero. */
  lemma DivisorAway(ns: Arena, pt: Point, d: Direction, i: nat, k: nat, r: nat)
    requires WellFormed(ns) && Aims(ns, d) && i < |ns| && k < Numel(ns[i].shape)
    requires i != d.at && !Held(ns, pt, i) && ns[i].op.Binary? && NodeOk(ns[..i], ns[i]) && NodeOk(ns, ns[i])
    requires r == OperandMap(ns[ns[i].op.rhs].shape, ns[i].shape)[k] && Smooth(ns, pt, d, i)
    ensures ns[i].op.bop == Div ==> Curve(ns, pt, d, ns[i].op.rhs, r)(0.0) != 0.0
  {
    hide Values, WellFormed, Curve, OperandMap;
    CurveStart(ns, pt, d, ns[i].op.rhs, r);
    if ns[i].op.bop == Div {
      assert Operand(ns, Values(ns, pt), ns[i].op.rhs, ns[i].shape)[k] != 0.0;
    }
  }

  lemma BinaryFollows(ns: Arena, pt: Point, d: Direction, i: nat, k: nat, l: nat, r: nat)
    requires WellFormed(ns) && Aims(ns, d) && i < |ns| && k < Numel(ns[i].shape)
    requires i != d.at && !Held(ns, pt, i) && ns[i].op.Binary? && NodeOk(ns[..i], ns[i]) && NodeOk(ns, ns[i])
    requires l == OperandMap(ns[ns[i].op.lhs].shape, ns[i].shape)[k]
    requires r == OperandMap(ns[ns[i].op.rhs].shape, ns[i].shape)[k]
    requires Smooth(ns, pt, d, i) && Follows(ns, pt, d, ns[i].op.lhs, l) && Follows(ns, pt, d, ns[i].op.rhs, r)
    ensures Follows(ns, pt, d, i, k)
  {
    hide Values, WellFormed, Tangents, Slope, Times, Curve, LeftSlope, RightSlope, OperandMap, InverseCurve, Recip,
         BinaryValue, Smooth, LinearOk, Fits;
    BinaryMoves(ns, pt, d, i, k, l, r);
    DivisorAway(ns, pt, d, i, k, r);
    var op, a, b := ns[i].op.bop, ns[i].op.lhs, ns[i].op.rhs;
    var h, f, g := Curve(ns, pt, d, i, k), Curve(ns, pt, d, a, l), Curve(ns, pt, d, b, r);
    forall e
      ensures h(e) == BinaryValue(op, f(e), g(e))
    {
      BinaryCurve(ns, pt, d, i, k, l, r, e);
    }
    BinaryChain(op, f, g, InverseCurve(ns, pt, d, b, r), h, Tangents(ns, pt, d)[a][l], Tangents(ns, pt, d)[b][r]);
  }

  /** The tangent of a binary node's element, from its operands' elements. */
  lemma BinaryMoves(ns: Arena, pt: Point, d: Direction, i: nat, k: nat, l: nat, r: nat)
    requires WellFormed(ns) && Aims(ns, d) && i < |ns| && k < Numel(ns[i].shape)
    requires i != d.at && !Held(ns, pt, i) && ns[i].op.Binary? && NodeOk(ns[..i], ns[i]) && NodeOk(ns, ns[i])
    requires l == OperandMap(ns[ns[i].op.lhs].shape, ns[i].shape)[k]
    requires r == OperandMap(ns[ns[i].op.rhs].shape, ns[i].shape)[k]
    ensures var op, a, b, ts := ns[i].op.bop, ns[i].op.lhs, ns[i].op.rhs, Tangents(ns, pt, d);
            var x, y := Curve(ns, pt, d, a, l)(0.0), Curve(ns, pt, d, b, r)(0.0);
            ts[i][k] == Times(LeftSlope(op, x, y), ts[a][l]) + Times(RightSlope(op, x, y), ts[b][r])
  {
    hide Values, WellFormed, Tangents, Times, Curve, LeftSlope, RightSlope, OperandMap;
    TangentAt(ns, pt, d, i);
    CurveStart(ns, pt, d, ns[i].op.lhs, l);
    CurveStart(ns, pt, d, ns[i].op.rhs, r);
  }

  lemma BinaryCurve(ns: Arena, pt: Point, d: Direction, i: nat, k: nat, l: nat, r: nat, e: real)
    requires WellFormed(ns) && Aims(ns, d) && i < |ns| && k < Numel(ns[i].shape)
    requires i != d.at && !Held(ns, pt, i) && ns[i].op.Binary? && NodeOk(ns[..i], ns[i])
    requires l == OperandMap(ns[ns[i].op.lhs].shape, ns[i].shape)[k]
    requires r == OperandMap(ns[ns[i].op.rhs].shape, ns[i].shape)[k]
    ensures Curve(ns, pt, d, i, k)(e) ==
            BinaryValue(ns[i].op.bop, Curve(ns, pt, d, ns[i].op.lhs, l)(e), Curve(ns, pt, d, ns[i].op.rhs, r)(e))
  {
    hide Values, WellFormed, OperandMap;
    DisplacedValue(ns, pt, d, e, i);
  }

  // Comparisons and selections

  lemma CompareCurve(ns: Arena, pt: Point, d: Direction, i: nat, k: nat, l: nat, r: nat, e: real)
    requires WellFormed(ns) && Aims(ns, d) && i < |ns| && k < Numel(ns[i].shape)
    requires i != d.at && !Held(ns, pt, i) && ns[i].op.Compare? && NodeOk(ns[..i], ns[i])
    requires l == OperandMap(ns[ns[i].op.lhs].shape, ns[i].shape)[k]
    requires r == OperandMap(ns[ns[i].op.rhs].shape, ns[i].shape)[k]
    ensures Curve(ns, pt, d, i, k)(e) ==
            CompareValue(ns[i].op.cop, Curve(ns, pt, d, ns[i].op.lhs, l)(e), Curve(ns, pt, d, ns[i].op.rhs, r)(e))
  {
    hide Values, WellFormed, OperandMap;
    DisplacedValue(ns, pt, d, e, i);
  }

  /** A comparison of operands that differ keeps its outcome for a while. */
  lemma CompareFlat(ns: Arena, pt: Point, d: Direction, i: nat, k: nat, l: nat, r: nat) returns (near: real)
    requires WellFormed(ns) && Aims(ns, d) && i < |ns| && k < Numel(ns[i].shape)
    requires i != d.at && !Held(ns, pt, i) && ns[i].op.Compare? && NodeOk(ns[..i], ns[i]) && NodeOk(ns, ns[i])
    requires l == OperandMap(ns[ns[i].op.lhs].shape, ns[i].shape)[k]
    requires r == OperandMap(ns[ns[i].op.rhs].shape, ns[i].shape)[k]
    requires Smooth(ns, pt, d, i) && Follows(ns, pt, d, ns[i].op.lhs, l) && Follows(ns, pt, d, ns[i].op.rhs, r)
    ensures near > 0.0
    ensures forall e :: Abs(e) <= near ==> Curve(ns, pt, d, i, k)(e) == Curve(ns, pt, d, i, k)(0.0)
  {
    hide Values, WellFormed, Tangents, Slope, Curve, OperandMap;
    var a, b, vs := ns[i].op.lhs, ns[i].op.rhs, Values(ns, pt);
    var h, f, g := Curve(ns, pt, d, i, k), Curve(ns, pt, d, a, l), Curve(ns, pt, d, b, r);
    CurveStart(ns, pt, d, a, l);
    CurveStart(ns, pt, d, b, r);
    assert f(0.0) != g(0.0) by {
      assert Operand(ns, vs, a, ns[i].shape)[k] != Operand(ns, vs, b, ns[i].shape)[k];
    }
    var gap := Abs(f(0.0) - g(0.0)) / 2.0;
    var p := Continuous(f, Tangents(ns, pt, d)[a][l], gap);
    var q := Continuous(g, Tangents(ns, pt, d)[b][r], gap);
    near := Min(p, q);
    CompareCurve(ns, pt, d, i, k, l, r, 0.0);
    forall e | Abs(e) <= near
      ensures h(e) == h(0.0)
    {
      assert Abs(f(e) - f(0.0)) < gap && Abs(g(e) - g(0.0)) < gap;
      CompareCurve(ns, pt, d, i, k, l, r, e);
    }
  }

  lemma CompareFollows(ns: Arena, pt: Point, d: Direction, i: nat, k: nat, l: nat, r: nat)
    requires WellFormed(ns) && Aims(ns, d) && i < |ns| && k < Numel(ns[i].shape)
    requires i != d.at && !Held(ns, pt, i) && ns[i].op.Compare? && NodeOk(ns[..i], ns[i]) && NodeOk(ns, ns[i])
    requires l == OperandMap(ns[ns[i].op.lhs].shape, ns[i].shape)[k]
    requires r == OperandMap(ns[ns[i].op.rhs].shape, ns[i].shape)[k]
    requires Smooth(ns, pt, d, i) && Follows(ns, pt, d, ns[i].op.lhs, l) && Follows(ns, pt, d, ns[i].op.rhs, r)
    ensures Follows(ns, pt, d, i, k)
  {
    hide Values, WellFormed, Tangents, Slope, Curve, OperandMap;
    TangentAt(ns, pt, d, i);
    var near := CompareFlat(ns, pt, d, i, k, l, r);
    SlopeConstant(Curve(ns, pt, d, i, k), near);
  }

  /** The condition of a selection does not change near the point. */
  lemma ConditionFlat(ns: Arena, pt: Point, d: Direction, c: nat, k: nat) returns (near: real)
    requires WellFormed(ns) && Aims(ns, d) && c < |ns| && k < Numel(ns[c].shape)
    requires c != d.at && BackwardInputs(ns[c].op) == [] && NodeOk(ns, ns[c]) && NodeOk(ns[..c], ns[c])
    requires ns[c].op.Compare? && !Held(ns, pt, c) ==>
               Smooth(ns, pt, d, c) &&
               Follows(ns, pt, d, ns[c].op.lhs, OperandMap(ns[ns[c].op.lhs].shape, ns[c].shape)[k]) &&
               Follows(ns, pt, d, ns[c].op.rhs, OperandMap(ns[ns[c].op.rhs].shape, ns[c].shape)[k])
    ensures near > 0.0
    ensures forall e :: Abs(e) <= near ==> Curve(ns, pt, d, c, k)(e) == Curve(ns, pt, d, c, k)(0.0)
  {
    hide Values, WellFormed, Follows, Smooth, Fits, LinearOk;
    if ns[c].op.Compare? && !Held(ns, pt, c) {
      near := CompareFlat(ns, pt, d, c, k, OperandMap(ns[ns[c].op.lhs].shape, ns[c].shape)[k],
                          OperandMap(ns[ns[c].op.rhs].shape, ns[c].shape)[k]);
    } else {
      near := 1.0;
      DisplacedValue(ns, pt, d, 0.0, c);
      forall e | Abs(e) <= near
        ensures Curve(ns, pt, d, c, k)(e) == Curve(ns, pt, d, c, k)(0.0)
      {
        DisplacedValue(ns, pt, d, e, c);
      }
    }
  }

  lemma EvaluateSelect(ns: Arena, n: Node, vs: seq<Vec>, feeds: map<string, Vec>, k: nat)
    requires NodeOk(ns, n) && Sized(ns, vs) && n.op.Select? && k < Numel(n.shape)
    ensures var c, t, f := n.op.condition, n.op.onTrue, n.op.onFalse;
            Evaluate(ns, n, vs, feeds)[k] ==
              if vs[c][OperandMap(ns[c].shape, n.shape)[k]] != 0.0
              then vs[t][OperandMap(ns[t].shape, n.shape)[k]] else vs[f][OperandMap(ns[f].shape, n.shape)[k]]
  {
    hide OperandMap, Fits, Numel;
  }

  lemma SelectCurve(ns: Arena, pt: Point, d: Direction, i: nat, k: nat, m: nat, l: nat, r: nat, e: real)
    requires WellFormed(ns) && Aims(ns, d) && i < |ns| && k < Numel(ns[i].shape)
    requires i != d.at && !Held(ns, pt, i) && ns[i].op.Select? && NodeOk(ns[..i], ns[i])
    requires m == OperandMap(ns[ns[i].op.condition].shape, ns[i].shape)[k]
    requires l == OperandMap(ns[ns[i].op.onTrue].shape, ns[i].shape)[k]
    requires r == OperandMap(ns[ns[i].op.onFalse].shape, ns[i].shape)[k]
    ensures var op := ns[i].op;
            Curve(ns, pt, d, i, k)(e) ==
              if Curve(ns, pt, d, op.condition, m)(e) != 0.0 then Curve(ns, pt, d, op.onTrue, l)(e)
              else Curve(ns, pt, d, op.onFalse, r)(e)
  {
    hide Values, WellFormed, OperandMap, Fits, Numel, Held, Evaluate;
    DisplacedValue(ns, pt, d, e, i);
    EvaluateSelect(ns[..i], ns[i], Values(ns, Displaced(ns, pt, d, e))[..i], pt.feeds, k);
  }

  lemma SelectTangent(ns: Arena, pt: Point, d: Direction, i: nat, k: nat, m: nat, l: nat, r: nat)
    requires WellFormed(ns) && Aims(ns, d) && i < |ns| && k < Numel(ns[i].shape)
    requires i != d.at && !Held(ns, pt, i) && ns[i].op.Select? && NodeOk(ns[..i], ns[i])
    requires m == OperandMap(ns[ns[i].op.condition].shape, ns[i].shape)[k]
    requires l == OperandMap(ns[ns[i].op.onTrue].shape, ns[i].shape)[k]
    requires r == OperandMap(ns[ns[i].op.onFalse].shape, ns[i].shape)[k]
    ensures var op, ts := ns[i].op, Tangents(ns, pt, d);
            ts[i][k] == if Values(ns, pt)[op.condition][m] != 0.0 then ts[op.onTrue][l] else ts[op.onFalse][r]
  {
    hide Values, WellFormed, Tangents, OperandMap;
    TangentAt(ns, pt, d, i);
  }

  lemma SelectFollows(ns: Arena, pt: Point, d: Direction, i: nat, k: nat, m: nat, l: nat, r: nat, near: real)
    requires WellFormed(ns) && Aims(ns, d) && i < |ns| && k < Numel(ns[i].shape)
    requires i != d.at && !Held(ns, pt, i) && ns[i].op.Select? && NodeOk(ns[..i], ns[i])
    requires m == OperandMap(ns[ns[i].op.condition].shape, ns[i].shape)[k]
    requires l == OperandMap(ns[ns[i].op.onTrue].shape, ns[i].shape)[k]
    requires r == OperandMap(ns[ns[i].op.onFalse].shape, ns[i].shape)[k]
    requires near > 0.0
    requires var f := Curve(ns, pt, d, ns[i].op.condition, m); forall e :: Abs(e) <= near ==> f(e) == f(0.0)
    requires Follows(ns, pt, d, ns[i].op.onTrue, l) && Follows(ns, pt, d, ns[i].op.onFalse, r)
    ensures Follows(ns, pt, d, i, k)
  {
    hide Values, WellFormed, Tangents, Slope, Curve, OperandMap, Held, Fits, Numel;
    SelectTangent(ns, pt, d, i, k, m, l, r);
    var op, ts := ns[i].op, Tangents(ns, pt, d);
    var h, c := Curve(ns, pt, d, i, k), Curve(ns, pt, d, op.condition, m);
    var f, g := Curve(ns, pt, d, op.onTrue, l), Curve(ns, pt, d, op.onFalse, r);
    CurveStart(ns, pt, d, op.condition, m);
    forall e | Abs(e) <= near
      ensures h(e) == if c(0.0) != 0.0 then f(e) else g(e)
    {
      SelectCurve(ns, pt, d, i, k, m, l, r, e);
    }
    if c(0.0) != 0.0 {
      SlopeLocal(f, h, ts[op.onTrue][l], near);
    } else {
      SlopeLocal(g, h, ts[op.onFalse][r], near);
    }
  }

  // Linear operations

  /** Element `j` of the scatter of the first `n` elements of node `a`. */
  ghost function ScatterCurve(ns: Arena, pt: Point, d: Direction, a: nat, m: seq<nat>, n: nat, size: nat,
                              j: nat): real -> real
    requires WellFormed(ns) && Aims(ns, d) && a < |ns| && |m| == Numel(ns[a].shape) && Addresses(m, size) && n <= |m|
    requires j < size
  {
    (e: real) => Scatter(m[..n], Values(ns, Displaced(ns, pt, d, e))[a][..n], size)[j]
  }

  lemma ScatterCurveNext(ns: Arena, pt: Point, d: Direction, a: nat, m: seq<nat>, n: nat, size: nat, j: nat, e: real)
    requires WellFormed(ns) && Aims(ns, d) && a < |ns| && |m| == Numel(ns[a].shape) && Addresses(m, size) && j < size
    requires 0 < n <= |m|
    ensures ScatterCurve(ns, pt, d, a, m, n, size, j)(e) ==
            ScatterCurve(ns, pt, d, a, m, n - 1, size, j)(e) +
            if m[n - 1] == j then Curve(ns, pt, d, a, n - 1)(e) else 0.0
  {
    hide Values, WellFormed;
    ScatterNext(m, Values(ns, Displaced(ns, pt, d, e))[a], n, size, j);
  }

  lemma ScatterNext(m: seq<nat>, y: Vec, n: nat, size: nat, j: nat)
    requires |m| == |y| && Addresses(m, size) && 0 < n <= |m| && j < size
    ensures Scatter(m[..n], y[..n], size)[j] ==
            Scatter(m[..n - 1], y[..n - 1], size)[j] + if m[n - 1] == j then y[n - 1] else 0.0
  {
    assert m[..n][..n - 1] == m[..n - 1] && y[..n][..n - 1] == y[..n - 1];
  }

  lemma {:induction false} ScatterFollows(ns: Arena, pt: Point, d: Direction, a: nat, m: seq<nat>, n: nat, size: nat,
                                          j: nat)
    requires WellFormed(ns) && Aims(ns, d) && a < |ns| && |m| == Numel(ns[a].shape) && Addresses(m, size) && j < size
    requires n <= |m| && forall k :: 0 <= k < |m| ==> Follows(ns, pt, d, a, k)
    ensures Slope(ScatterCurve(ns, pt, d, a, m, n, size, j), Scatter(m[..n], Tangents(ns, pt, d)[a][..n], size)[j])
    decreases n
  {
    hide Values, WellFormed, Tangents, Slope, Follows, Fits;
    if n == 0 {
      SlopeConstant(ScatterCurve(ns, pt, d, a, m, n, size, j), 1.0);
    } else {
      ScatterFollows(ns, pt, d, a, m, n - 1, size, j);
      ScatterStep(ns, pt, d, a, m, n, size, j);
    }
  }

  lemma ScatterStep(ns: Arena, pt: Point, d: Direction, a: nat, m: seq<nat>, n: nat, size: nat, j: nat)
    requires WellFormed(ns) && Aims(ns, d) && a < |ns| && |m| == Numel(ns[a].shape) && Addresses(m, size) && j < size
    requires 0 < n <= |m| && Follows(ns, pt, d, a, n - 1)
    requires Slope(ScatterCurve(ns, pt, d, a, m, n - 1, size, j),
                   Scatter(m[..n - 1], Tangents(ns, pt, d)[a][..n - 1], size)[j])
    ensures Slope(ScatterCurve(ns, pt, d, a, m, n, size, j), Scatter(m[..n], Tangents(ns, pt, d)[a][..n], size)[j])
  {
    hide Values, WellFormed, Tangents, Slope, Curve, Scatter, ScatterCurve;
    var ts, h := Tangents(ns, pt, d)[a], ScatterCurve(ns, pt, d, a, m, n, size, j);
    ScatterNext(m, ts, n, size, j);
    var f := ScatterCurve(ns, pt, d, a, m, n - 1, size, j);
    forall e
      ensures h(e) == f(e) + if m[n - 1] == j then Curve(ns, pt, d, a, n - 1)(e) else 0.0
    {
      ScatterCurveNext(ns, pt, d, a, m, n, size, j, e);
    }
    if m[n - 1] == j {
      SlopeSum(f, Curve(ns, pt, d, a, n - 1), h, Scatter(m[..n - 1], ts[..n - 1], size)[j], ts[n - 1],
               Scatter(m[..n], ts[..n], size)[j]);
    } else {
      SlopeLocal(f, h, Scatter(m[..n], ts[..n], size)[j], 1.0);
    }
  }

  lemma DownFollows(ns: Arena, pt: Point, d: Direction, a: nat, inner: Shape, h: real -> real, j: nat)
    requires WellFormed(ns) && Aims(ns, d) && a < |ns| && Fits(inner, ns[a].shape) && j < Numel(inner)
    requires forall k :: 0 <= k < Numel(ns[a].shape) ==> Follows(ns, pt, d, a, k)
    requires forall e :: h(e) == SumDown(inner, ns[a].shape, Values(ns, Displaced(ns, pt, d, e))[a])[j]
    ensures Slope(h, SumDown(inner, ns[a].shape, Tangents(ns, pt, d)[a])[j])
  {
    hide Values, WellFormed, Tangents, Slope, Scatter, OperandMap, Follows;
    var m, size := OperandMap(inner, ns[a].shape), Numel(inner);
    ScatterFollows(ns, pt, d, a, m, |m|, size, j);
    var f, t := ScatterCurve(ns, pt, d, a, m, |m|, size, j), Tangents(ns, pt, d)[a];
    assert m[..|m|] == m && t[..|m|] == t;
    forall e
      ensures h(e) == f(e)
    {
      var y := Values(ns, Displaced(ns, pt, d, e))[a];
      assert y[..|m|] == y;
    }
    SlopeLocal(f, h, SumDown(inner, ns[a].shape, t)[j], 1.0);
  }

  ghost predicate LinearOp(op: Op) {
    op.Contiguous? || op.Sum? || op.SumTo? || op.Reshape? || op.Permute? || op.Expand?
  }

  lemma LinearCurve(ns: Arena, pt: Point, d: Direction, i: nat, j: nat, e: real)
    requires WellFormed(ns) && Aims(ns, d) && i < |ns| && j < Numel(ns[i].shape)
    requires i != d.at && !Held(ns, pt, i) && NodeOk(ns[..i], ns[i]) && LinearOp(ns[i].op)
    ensures var a := ns[i].op.input;
            LinearOk(ns[a].shape, ns[i]) &&
            Curve(ns, pt, d, i, j)(e) == Linear(ns[a].shape, ns[i], Values(ns, Displaced(ns, pt, d, e))[a])[j] &&
            Tangents(ns, pt, d)[i] == Linear(ns[a].shape, ns[i], Tangents(ns, pt, d)[a])
  {
    hide Values, WellFormed, Tangents, Linear, LinearOk;
    DisplacedValue(ns, pt, d, e, i);
    TangentAt(ns, pt, d, i);
  }

  /** A reduction sums to `inner`, which has the node's element count. */
  lemma ReductionFollows(ns: Arena, pt: Point, d: Direction, i: nat, j: nat, inner: Shape)
    requires WellFormed(ns) && Aims(ns, d) && i < |ns| && j < Numel(ns[i].shape)
    requires i != d.at && !Held(ns, pt, i) && NodeOk(ns[..i], ns[i]) && NodeOk(ns, ns[i]) && LinearOp(ns[i].op)
    requires forall k :: 0 <= k < Numel(ns[ns[i].op.input].shape) ==> Follows(ns, pt, d, ns[i].op.input, k)
    requires Fits(inner, ns[ns[i].op.input].shape) && Numel(inner) == Numel(ns[i].shape)
    requires forall x: Vec :: |x| == Numel(ns[ns[i].op.input].shape) ==>
               Linear(ns[ns[i].op.input].shape, ns[i], x) == SumDown(inner, ns[ns[i].op.input].shape, x)
    ensures Follows(ns, pt, d, i, j)
  {
    hide Values, WellFormed, Tangents, Slope, SumDown, Held, Follows, Linear, LinearOk, Numel, Fits;
    LinearCurve(ns, pt, d, i, j, 0.0);
    var a, s, h := ns[i].op.input, ns[ns[i].op.input].shape, Curve(ns, pt, d, i, j);
    forall e
      ensures h(e) == SumDown(inner, s, Values(ns, Displaced(ns, pt, d, e))[a])[j]
    {
      LinearCurve(ns, pt, d, i, j, e);
    }
    DownFollows(ns, pt, d, a, inner, h, j);
    assert Tangents(ns, pt, d)[i] == SumDown(inner, s, Tangents(ns, pt, d)[a]);
    FollowsFrom(ns, pt, d, i, j);
  }

  lemma FollowsFrom(ns: Arena, pt: Point, d: Direction, i: nat, k: nat)
    requires WellFormed(ns) && Aims(ns, d) && i < |ns| && k < Numel(ns[i].shape)
    requires Slope(Curve(ns, pt, d, i, k), Tangents(ns, pt, d)[i][k])
    ensures Follows(ns, pt, d, i, k)
  {
  }

  /** The element `k` of the operand that element `j` of a rearrangement reads. */
  lemma RearrangementFollows(ns: Arena, pt: Point, d: Direction, i: nat, j: nat, k: nat)
    requires WellFormed(ns) && Aims(ns, d) && i < |ns| && j < Numel(ns[i].shape)
    requires i != d.at && !Held(ns, pt, i) && NodeOk(ns[..i], ns[i]) && NodeOk(ns, ns[i]) && LinearOp(ns[i].op)
    requires k < Numel(ns[ns[i].op.input].shape) && Follows(ns, pt, d, ns[i].op.input, k)
    requires forall x: Vec :: |x| == Numel(ns[ns[i].op.input].shape) ==>
               Linear(ns[ns[i].op.input].shape, ns[i], x)[j] == x[k]
    ensures Follows(ns, pt, d, i, j)
  {
    hide Values, WellFormed, Tangents, Slope, Held, Follows, Linear, LinearOk, Numel, Displaced, Curve;
    LinearCurve(ns, pt, d, i, j, 0.0);
    var a, h := ns[i].op.input, Curve(ns, pt, d, i, j);
    forall e
      ensures h(e) == Values(ns, Displaced(ns, pt, d, e))[a][k]
    {
      LinearCurve(ns, pt, d, i, j, e);
    }
    ReadFollows(ns, pt, d, a, k, h, Tangents(ns, pt, d)[i][j]);
    FollowsFrom(ns, pt, d, i, j);
  }

  lemma LinearFollows(ns: Arena, pt: Point, d: Direction, i: nat, j: nat)
    requires WellFormed(ns) && Aims(ns, d) && i < |ns| && j < Numel(ns[i].shape)
    requires i != d.at && !Held(ns, pt, i) && NodeOk(ns[..i], ns[i]) && NodeOk(ns, ns[i]) && LinearOp(ns[i].op)
    requires forall k :: 0 <= k < Numel(ns[ns[i].op.input].shape) ==> Follows(ns, pt, d, ns[i].op.input, k)
    ensures Follows(ns, pt, d, i, j)
  {
    hide Values, WellFormed, Tangents, OperandMap, PermuteMap, SumDown, Kept, Held, Follows;
    var s := ns[ns[i].op.input].shape;
    match ns[i].op
    case Sum(_, axes, keepdim) =>
      KeptFits(s, axes);
      ReducedNumel(s, axes, keepdim);
      ReductionFollows(ns, pt, d, i, j, Kept(s, axes));
    case SumTo(_) => ReductionFollows(ns, pt, d, i, j, ns[i].shape);
    case Permute(_, axes) => RearrangementFollows(ns, pt, d, i, j, PermuteMap(s, axes)[j]);
    case Expand(_) => RearrangementFollows(ns, pt, d, i, j, OperandMap(s, ns[i].shape)[j]);
    case _ => RearrangementFollows(ns, pt, d, i, j, j);
  }

  /** An element that is read from one element of another node. */
  lemma ReadFollows(ns: Arena, pt: Point, d: Direction, a: nat, k: nat, h: real -> real, t: real)
    requires WellFormed(ns) && Aims(ns, d) && a < |ns| && k < Numel(ns[a].shape) && Follows(ns, pt, d, a, k)
    requires forall e :: h(e) == Values(ns, Displaced(ns, pt, d, e))[a][k]
    requires t == Tangents(ns, pt, d)[a][k]
    ensures Slope(h, t)
  {
    hide Values, WellFormed, Tangents, Slope;
    SlopeLocal(Curve(ns, pt, d, a, k), h, t, 1.0);
  }

  /** The operands whose values node `op` is computed from; a gradient barrier is held, so it has none. */
  function Operands(op: Op): (operands: seq<nat>)
    ensures forall j :: j in BackwardInputs(op) ==> j in operands
  {
    match op
    case Compare(_, l, r) => [l, r]
    case Select(c, t, f) => [c, t, f]
    case _ => BackwardInputs(op)
  }

  /** Nodes closed under operands, up to the target and the held nodes, without a kink or a pole at the point. */
  ghost predicate SmoothSlice(ns: Arena, pt: Point, d: Direction, slice: set<nat>)
    requires WellFormed(ns)
  {
    forall i :: i in slice ==>
      i < |ns| && (i != d.at && !Held(ns, pt, i) ==> NodeOk(ns, ns[i]) && Smooth(ns, pt, d, i) && Covered(ns, i, slice))
  }

  predicate Covered(ns: Arena, i: nat, slice: set<nat>)
    requires i < |ns|
  {
    forall j :: j in Operands(ns[i].op) ==> j in slice
  }

  /** Forward-mode tangents are derivatives, wherever the nodes they are computed from are smooth. */
  lemma {:induction false} TangentIsDerivative(ns: Arena, pt: Point, d: Direction, slice: set<nat>, i: nat,
                                               k: nat)
    requires WellFormed(ns) && Aims(ns, d) && i < |ns| && k < Numel(ns[i].shape)
    requires SmoothSlice(ns, pt, d, slice) && i in slice
    ensures Slope(Curve(ns, pt, d, i, k), Tangents(ns, pt, d)[i][k])
    decreases i
  {
    hide Values, WellFormed, Tangents, Slope, Curve, OperandMap, Fits, LinearOk;
    NodeOkEverywhere(ns, i);
    var op, s := ns[i].op, ns[i].shape;
    if i == d.at || Held(ns, pt, i) {
      HeldFollows(ns, pt, d, i, k);
    } else if op.Unary? {
      TangentIsDerivative(ns, pt, d, slice, op.input, k);
      UnaryFollows(ns, pt, d, i, k);
    } else if op.Binary? || op.Compare? {
      var l, r := OperandMap(ns[op.lhs].shape, s)[k], OperandMap(ns[op.rhs].shape, s)[k];
      TangentIsDerivative(ns, pt, d, slice, op.lhs, l);
      TangentIsDerivative(ns, pt, d, slice, op.rhs, r);
      if op.Binary? {
        BinaryFollows(ns, pt, d, i, k, l, r);
      } else {
        CompareFollows(ns, pt, d, i, k, l, r);
      }
    } else if op.Select? {
      SelectIsDerivative(ns, pt, d, slice, i, k);
    } else if op.Input? || op.Constant? {
      LeafFollows(ns, pt, d, i, k);
    } else {
      forall j | 0 <= j < Numel(ns[op.input].shape)
        ensures Follows(ns, pt, d, op.input, j)
      {
        TangentIsDerivative(ns, pt, d, slice, op.input, j);
      }
      LinearFollows(ns, pt, d, i, k);
    }
  }

  lemma LeafFollows(ns: Arena, pt: Point, d: Direction, i: nat, k: nat)
    requires WellFormed(ns) && Aims(ns, d) && i < |ns| && k < Numel(ns[i].shape)
    requires i != d.at && !Held(ns, pt, i) && (ns[i].op.Input? || ns[i].op.Constant?)
    ensures Follows(ns, pt, d, i, k)
  {
    hide Values, WellFormed, Tangents, Slope;
    TangentAt(ns, pt, d, i);
    var f := Curve(ns, pt, d, i, k);
    DisplacedValue(ns, pt, d, 0.0, i);
    forall e
      ensures f(e) == f(0.0)
    {
      DisplacedValue(ns, pt, d, e, i);
    }
    SlopeConstant(f, 1.0);
  }

  lemma {:induction false} SelectIsDerivative(ns: Arena, pt: Point, d: Direction, slice: set<nat>, i: nat,
                                              k: nat)
    requires WellFormed(ns) && Aims(ns, d) && i < |ns| && k < Numel(ns[i].shape)
    requires SmoothSlice(ns, pt, d, slice) && i in slice
    requires i != d.at && !Held(ns, pt, i) && ns[i].op.Select?
    ensures Follows(ns, pt, d, i, k)
    decreases i, 0
  {
    hide Values, WellFormed, Tangents, Slope, Curve, OperandMap, Fits, LinearOk;
    NodeOkEverywhere(ns, i);
    var op, s := ns[i].op, ns[i].shape;
    var c := op.condition;
    NodeOkEverywhere(ns, c);
    var m, l, r := OperandMap(ns[c].shape, s)[k], OperandMap(ns[op.onTrue].shape, s)[k],
      OperandMap(ns[op.onFalse].shape, s)[k];
    assert Smooth(ns, pt, d, i);
    TangentIsDerivative(ns, pt, d, slice, op.onTrue, l);
    TangentIsDerivative(ns, pt, d, slice, op.onFalse, r);
    if ns[c].op.Compare? && !Held(ns, pt, c) {
      TangentIsDerivative(ns, pt, d, slice, ns[c].op.lhs, OperandMap(ns[ns[c].op.lhs].shape, ns[c].shape)[m]);
      TangentIsDerivative(ns, pt, d, slice, ns[c].op.rhs, OperandMap(ns[ns[c].op.rhs].shape, ns[c].shape)[m]);
    }
    var near := ConditionFlat(ns, pt, d, c, m);
    SelectFollows(ns, pt, d, i, k, m, l, r, near);
  }
}
