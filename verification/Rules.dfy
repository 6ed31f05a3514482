/** The local reverse rules, as node builders, and the gradients they compute. */
module Rules {
  import opened Shapes
  import opened Axes
  import opened Vectors
  import opened Graph
  import opened Builders

  function UnaryRule(ns: Arena, op: UnaryOp, up: nat, node: nat, input: nat): Built {
    match op
    case Neg => PushUnary(ns, Neg, up)
    case Reciprocal =>
      var n := PushUnary(ns, Neg, up);
      var m := PushBinary(n.ns, Mul, n.id, node);
      PushBinary(m.ns, Mul, m.id, node)
    case Square =>
      var two := PushConstant(ns, [], 2.0);
      var scale := PushBinary(two.ns, Mul, two.id, input);
      PushBinary(scale.ns, Mul, up, scale.id)
    case Relu =>
      var mask := PushUnary(ns, Step, input);
      PushBinary(mask.ns, Mul, up, mask.id)
    case Step => PushConstant(ns, ShapeOf(ns, input), 0.0)
  }

  function LeftRule(ns: Arena, op: BinaryOp, up: nat, l: nat, r: nat): Built {
    match op
    case Add => Built(ns, up)
    case Sub => Built(ns, up)
    case Mul => PushBinary(ns, Mul, up, r)
    case Div => PushDiv(ns, up, r)
  }

  function RightRule(ns: Arena, op: BinaryOp, up: nat, l: nat, r: nat): Built {
    match op
    case Add => Built(ns, up)
    case Sub => PushUnary(ns, Neg, up)
    case Mul => PushBinary(ns, Mul, up, l)
    case Div =>
      var square := PushBinary(ns, Mul, r, r);
      var numerator := PushBinary(square.ns, Mul, up, l);
      var quotient := PushDiv(numerator.ns, numerator.id, square.id);
      PushUnary(quotient.ns, Neg, quotient.id)
  }

  /** The reverse of each operation that is linear in its one operand. */
  function LinearRule(ns: Arena, op: Op, up: nat): Built
    requires op.Contiguous? || op.Sum? || op.SumTo? || op.Reshape? || op.Permute? || op.Expand?
  {
    var s := ShapeOf(ns, op.input);
    match op
    case Contiguous(_) => Built(ns, up)
    case Sum(_, axes, keepdim) =>
      var kept := if keepdim || !Normalized(axes, |s|) then ShapeOf(ns, up) else Reinserted(s, axes, |axes|);
      var reshaped := PushReshape(ns, up, kept);
      PushExpand(reshaped.ns, reshaped.id, s)
    case SumTo(_) => PushExpand(ns, up, s)
    case Reshape(_) => PushReshape(ns, up, s)
    case Permute(_, axes) => if Permutes(axes, |axes|) then PushPermute(ns, up, Inverse(axes)) else Built(ns, up)
    case Expand(_) => PushUnbroadcast(ns, up, s)
  }

  // What the rules compute: the gradient times the slope, element by element

  ghost function LeftShare(op: BinaryOp, g: Vec, a: Vec, b: Vec): (y: Vec)
    requires |g| == |a| == |b|
    ensures |y| == |g| && forall k :: 0 <= k < |y| ==> y[k] == Times(g[k], LeftSlope(op, a[k], b[k]))
  {
    seq(|g|, k requires 0 <= k < |g| => Times(g[k], LeftSlope(op, a[k], b[k])))
  }

  ghost function RightShare(op: BinaryOp, g: Vec, a: Vec, b: Vec): (y: Vec)
    requires |g| == |a| == |b|
    ensures |y| == |g| && forall k :: 0 <= k < |y| ==> y[k] == Times(g[k], RightSlope(op, a[k], b[k]))
  {
    seq(|g|, k requires 0 <= k < |g| => Times(g[k], RightSlope(op, a[k], b[k])))
  }

  ghost function UnaryShare(op: UnaryOp, g: Vec, x: Vec): (y: Vec)
    requires |g| == |x|
    ensures |y| == |g| && forall k :: 0 <= k < |y| ==> y[k] == Times(g[k], UnarySlope(op, x[k]))
  {
    seq(|g|, k requires 0 <= k < |g| => Times(g[k], UnarySlope(op, x[k])))
  }

  lemma LeftShareCases(op: BinaryOp, g: Vec, a: Vec, b: Vec)
    requires |g| == |a| == |b|
    ensures op == Add || op == Sub ==> LeftShare(op, g, a, b) == g
    ensures op == Mul || op == Div ==> LeftShare(op, g, a, b) == BinaryVec(op, g, b)
  {
    var y := LeftShare(op, g, a, b);
    if op == Add || op == Sub {
      assert forall k :: 0 <= k < |y| ==> y[k] == g[k];
    } else {
      var z := BinaryVec(op, g, b);
      assert forall k :: 0 <= k < |y| ==> y[k] == z[k];
    }
  }

  lemma LeftRuleGrown(ns: Arena, op: BinaryOp, up: nat, l: nat, r: nat, pt: Point)
    requires WellFormed(ns) && Below(pt, |ns|) && up < |ns| && l < |ns| && r < |ns|
    requires Fits(ns[l].shape, ns[up].shape) && Fits(ns[r].shape, ns[up].shape)
    ensures var vs, s := Values(ns, pt), ns[up].shape;
            Grown(ns, LeftRule(ns, op, up, l, r), s, pt,
                  LeftShare(op, vs[up], Operand(ns, vs, l, s), Operand(ns, vs, r, s)))
  {
    hide Values, WellFormed, Evaluate;
    var vs, s := Values(ns, pt), ns[up].shape;
    LeftShareCases(op, vs[up], Operand(ns, vs, l, s), Operand(ns, vs, r, s));
    match op
    case Add =>
    case Sub =>
    case Mul => BinaryGrownLeft(ns, Mul, up, r, pt);
    case Div => DivGrownLeft(ns, up, r, pt);
  }

  lemma RightShareCases(op: BinaryOp, g: Vec, a: Vec, b: Vec)
    requires |g| == |a| == |b|
    ensures op == Add ==> RightShare(op, g, a, b) == g
    ensures op == Sub ==> RightShare(op, g, a, b) == UnaryVec(Neg, g)
    ensures op == Mul ==> RightShare(op, g, a, b) == BinaryVec(Mul, g, a)
  {
    var y := RightShare(op, g, a, b);
    assert op == Add ==> forall k :: 0 <= k < |y| ==> y[k] == g[k];
    assert op == Sub ==> forall k :: 0 <= k < |y| ==> y[k] == UnaryVec(Neg, g)[k];
    assert op == Mul ==> forall k :: 0 <= k < |y| ==> y[k] == BinaryVec(Mul, g, a)[k];
  }

  lemma RightShareDiv(g: Vec, a: Vec, m: seq<nat>, y: Vec)
    requires |g| == |a| == |m| && Addresses(m, |y|)
    ensures RightShare(Div, g, a, Gather(m, y)) ==
            UnaryVec(Neg, BinaryVec(Div, BinaryVec(Mul, g, a), Gather(m, BinaryVec(Mul, y, y))))
  {
    var p := RightShare(Div, g, a, Gather(m, y));
    var q := UnaryVec(Neg, BinaryVec(Div, BinaryVec(Mul, g, a), Gather(m, BinaryVec(Mul, y, y))));
    forall k | 0 <= k < |g|
      ensures p[k] == q[k]
    {
      var r := Recip(y[m[k]] * y[m[k]]);
      assert p[k] == g[k] * -(a[k] * r);
      assert q[k] == -((g[k] * a[k]) * r);
    }
  }

  /** The square of the divisor and the numerator of the quotient rule. */
  lemma QuotientPartsGrown(ns: Arena, up: nat, l: nat, r: nat, pt: Point)
    requires WellFormed(ns) && Below(pt, |ns|) && up < |ns| && l < |ns| && r < |ns|
    requires Fits(ns[l].shape, ns[up].shape)
    ensures var vs, s := Values(ns, pt), ns[up].shape;
            var square := PushBinary(ns, Mul, r, r);
            var numerator := PushBinary(square.ns, Mul, up, l);
            Grown(ns, square, ns[r].shape, pt, BinaryVec(Mul, vs[r], vs[r])) &&
            Grown(square.ns, numerator, s, pt, BinaryVec(Mul, vs[up], Operand(ns, vs, l, s)))
  {
    hide Values, WellFormed, Evaluate;
    var vs, s := Values(ns, pt), ns[up].shape;
    OperandMapSelf(ns[r].shape);
    BinaryGrownLeft(ns, Mul, r, r, pt);
    OperandSelf(ns, vs, r);
    var square := PushBinary(ns, Mul, r, r);
    BinaryGrownLeft(square.ns, Mul, up, l, pt);
  }

  lemma NegatedQuotientGrown(ns: Arena, a: nat, b: nat, pt: Point)
    requires WellFormed(ns) && Below(pt, |ns|) && a < |ns| && b < |ns|
    requires Fits(ns[b].shape, ns[a].shape)
    ensures var vs, s, quotient := Values(ns, pt), ns[a].shape, PushDiv(ns, a, b);
            Grown(ns, PushUnary(quotient.ns, Neg, quotient.id), s, pt,
                  UnaryVec(Neg, BinaryVec(Div, vs[a], Operand(ns, vs, b, s))))
  {
    hide Values, WellFormed, Evaluate, PushDiv;
    DivGrownLeft(ns, a, b, pt);
    var quotient := PushDiv(ns, a, b);
    UnaryGrown(quotient.ns, Neg, quotient.id, pt);
  }

  lemma DivRightRuleGrown(ns: Arena, up: nat, l: nat, r: nat, pt: Point)
    requires WellFormed(ns) && Below(pt, |ns|) && up < |ns| && l < |ns| && r < |ns|
    requires Fits(ns[l].shape, ns[up].shape) && Fits(ns[r].shape, ns[up].shape)
    ensures var vs, s := Values(ns, pt), ns[up].shape;
            Grown(ns, RightRule(ns, Div, up, l, r), s, pt,
                  RightShare(Div, vs[up], Operand(ns, vs, l, s), Operand(ns, vs, r, s)))
  {
    hide Values, WellFormed, Evaluate, PushDiv, PushUnary, PushBinary, BinaryVec, UnaryVec, OperandMap, RightRule,
         Numel;
    var vs, s, t := Values(ns, pt), ns[up].shape, ns[r].shape;
    QuotientPartsGrown(ns, up, l, r, pt);
    var square := PushBinary(ns, Mul, r, r);
    var numerator := PushBinary(square.ns, Mul, up, l);
    var quotient := PushDiv(numerator.ns, numerator.id, square.id);
    var rule := PushUnary(quotient.ns, Neg, quotient.id);
    RightRuleDiv(ns, up, l, r);
    var g, a, m := vs[up], Operand(ns, vs, l, s), OperandMap(t, s);
    QuotientTailGrown(ns, square, numerator, rule, pt, BinaryVec(Mul, vs[r], vs[r]), BinaryVec(Mul, g, a), s, t);
    RightShareDiv(g, a, m, vs[r]);
  }

  lemma RightRuleDiv(ns: Arena, up: nat, l: nat, r: nat)
    ensures var square := PushBinary(ns, Mul, r, r);
            var numerator := PushBinary(square.ns, Mul, up, l);
            var quotient := PushDiv(numerator.ns, numerator.id, square.id);
            RightRule(ns, Div, up, l, r) == PushUnary(quotient.ns, Neg, quotient.id)
  {
    hide PushBinary, PushDiv, PushUnary;
  }

  lemma QuotientTailGrown(ns: Arena, square: Built, numerator: Built, rule: Built, pt: Point,
                          d: Vec, n: Vec, s: Shape, t: Shape)
    requires Below(pt, |ns|) && Fits(t, s)
    requires Grown(ns, square, t, pt, d) && Grown(square.ns, numerator, s, pt, n)
    requires var quotient := PushDiv(numerator.ns, numerator.id, square.id);
             rule == PushUnary(quotient.ns, Neg, quotient.id)
    ensures |d| == Numel(t) && |n| == Numel(s)
    ensures Grown(ns, rule, s, pt, UnaryVec(Neg, BinaryVec(Div, n, Gather(OperandMap(t, s), d))))
  {
    hide Values, WellFormed, Evaluate, PushDiv, PushUnary, PushBinary, BinaryVec, UnaryVec, OperandMap;
    assert numerator.ns[square.id].shape == t && Values(numerator.ns, pt)[square.id] == d;
    NegatedQuotientGrown(numerator.ns, numerator.id, square.id, pt);
    var y := UnaryVec(Neg, BinaryVec(Div, n, Gather(OperandMap(t, s), d)));
    GrownAfter(square.ns, numerator, rule, s, s, pt, y);
    GrownAfter(ns, square, rule, t, s, pt, y);
  }

  lemma RightRuleGrown(ns: Arena, op: BinaryOp, up: nat, l: nat, r: nat, pt: Point)
    requires WellFormed(ns) && Below(pt, |ns|) && up < |ns| && l < |ns| && r < |ns|
    requires Fits(ns[l].shape, ns[up].shape) && Fits(ns[r].shape, ns[up].shape)
    ensures var vs, s := Values(ns, pt), ns[up].shape;
            Grown(ns, RightRule(ns, op, up, l, r), s, pt,
                  RightShare(op, vs[up], Operand(ns, vs, l, s), Operand(ns, vs, r, s)))
  {
    hide Values, WellFormed, Evaluate;
    var vs, s := Values(ns, pt), ns[up].shape;
    RightShareCases(op, vs[up], Operand(ns, vs, l, s), Operand(ns, vs, r, s));
    match op
    case Add =>
    case Sub => UnaryGrown(ns, Neg, up, pt);
    case Mul => BinaryGrownLeft(ns, Mul, up, l, pt);
    case Div => DivRightRuleGrown(ns, up, l, r, pt);
  }

  lemma ReciprocalRuleGrown(ns: Arena, up: nat, node: nat, input: nat, pt: Point)
    requires WellFormed(ns) && Below(pt, |ns|) && up < |ns| && node < |ns| && input < |ns|
    requires ns[node].shape == ns[input].shape == ns[up].shape
    ensures var vs := Values(ns, pt);
            Grown(ns, UnaryRule(ns, Reciprocal, up, node, input), ns[up].shape, pt,
                  BinaryVec(Mul, BinaryVec(Mul, UnaryVec(Neg, vs[up]), vs[node]), vs[node]))
  {
    hide Values, WellFormed, Evaluate, BinaryVec, UnaryVec;
    var vs, s := Values(ns, pt), ns[up].shape;
    OperandMapSelf(s);
    UnaryGrown(ns, Neg, up, pt);
    var n := PushUnary(ns, Neg, up);
    BinaryGrownLeft(n.ns, Mul, n.id, node, pt);
    OperandSelf(n.ns, Values(n.ns, pt), node);
    var m := PushBinary(n.ns, Mul, n.id, node);
    BinaryGrownLeft(m.ns, Mul, m.id, node, pt);
    OperandSelf(m.ns, Values(m.ns, pt), node);
    var r := PushBinary(m.ns, Mul, m.id, node);
    var y := BinaryVec(Mul, BinaryVec(Mul, UnaryVec(Neg, vs[up]), vs[node]), vs[node]);
    GrownAfter(n.ns, m, r, s, s, pt, y);
    GrownAfter(ns, n, r, s, s, pt, y);
  }

  lemma ReciprocalShare(g: Vec, x: Vec, r: Vec)
    requires |g| == |x| && r == UnaryVec(Reciprocal, x)
    ensures UnaryShare(Reciprocal, g, x) == BinaryVec(Mul, BinaryVec(Mul, UnaryVec(Neg, g), r), r)
  {
    var p, q := UnaryShare(Reciprocal, g, x), BinaryVec(Mul, BinaryVec(Mul, UnaryVec(Neg, g), r), r);
    forall k | 0 <= k < |g|
      ensures p[k] == q[k]
    {
      assert p[k] == g[k] * -(r[k] * r[k]);
      assert q[k] == (-g[k] * r[k]) * r[k];
    }
  }

  lemma SquareRuleGrown(ns: Arena, up: nat, node: nat, input: nat, pt: Point)
    requires WellFormed(ns) && Below(pt, |ns|) && up < |ns| && input < |ns| && ns[input].shape == ns[up].shape
    ensures var vs := Values(ns, pt);
            Grown(ns, UnaryRule(ns, Square, up, node, input), ns[up].shape, pt, UnaryShare(Square, vs[up], vs[input]))
  {
    hide Values, WellFormed, Evaluate, BinaryVec, UnaryShare;
    var vs, s := Values(ns, pt), ns[up].shape;
    ConstantGrown(ns, [], 2.0, pt);
    var two := PushConstant(ns, [], 2.0);
    FitsIffBroadcast([], s);
    BinaryGrown(two.ns, Mul, two.id, input, s, pt);
    OperandSelf(two.ns, Values(two.ns, pt), input);
    var scale := PushBinary(two.ns, Mul, two.id, input);
    OperandMapSelf(s);
    BinaryGrownLeft(scale.ns, Mul, up, scale.id, pt);
    OperandSelf(scale.ns, Values(scale.ns, pt), scale.id);
    SquareShare(vs[up], vs[input], Operand(two.ns, Values(two.ns, pt), two.id, s));
    var r, y := PushBinary(scale.ns, Mul, up, scale.id), UnaryShare(Square, vs[up], vs[input]);
    GrownAfter(two.ns, scale, r, s, s, pt, y);
    GrownAfter(ns, two, r, [], s, pt, y);
  }

  lemma SquareShare(g: Vec, x: Vec, twos: Vec)
    requires |g| == |x| == |twos| && forall k :: 0 <= k < |twos| ==> twos[k] == 2.0
    ensures UnaryShare(Square, g, x) == BinaryVec(Mul, g, BinaryVec(Mul, twos, x))
  {
    var p, q := UnaryShare(Square, g, x), BinaryVec(Mul, g, BinaryVec(Mul, twos, x));
    forall k | 0 <= k < |g|
      ensures p[k] == q[k]
    {
    }
  }

  lemma UnaryShareCases(op: UnaryOp, g: Vec, x: Vec)
    requires |g| == |x|
    ensures op == Neg ==> UnaryShare(op, g, x) == UnaryVec(Neg, g)
    ensures op == Relu ==> UnaryShare(op, g, x) == BinaryVec(Mul, g, UnaryVec(Step, x))
    ensures op == Step ==> UnaryShare(op, g, x) == Fill(|g|, 0.0)
  {
    var y := UnaryShare(op, g, x);
    assert op == Neg ==> forall k :: 0 <= k < |y| ==> y[k] == UnaryVec(Neg, g)[k];
    assert op == Relu ==> forall k :: 0 <= k < |y| ==> y[k] == BinaryVec(Mul, g, UnaryVec(Step, x))[k];
    assert op == Step ==> forall k :: 0 <= k < |y| ==> y[k] == 0.0;
  }

  lemma ReluRuleGrown(ns: Arena, up: nat, node: nat, input: nat, pt: Point)
    requires WellFormed(ns) && Below(pt, |ns|) && up < |ns| && input < |ns| && ns[input].shape == ns[up].shape
    ensures var vs := Values(ns, pt);
            Grown(ns, UnaryRule(ns, Relu, up, node, input), ns[up].shape, pt,
                  BinaryVec(Mul, vs[up], UnaryVec(Step, vs[input])))
  {
    hide Values, WellFormed, Evaluate, BinaryVec, UnaryVec;
    var vs, s := Values(ns, pt), ns[up].shape;
    UnaryGrown(ns, Step, input, pt);
    var mask := PushUnary(ns, Step, input);
    OperandMapSelf(s);
    BinaryGrownLeft(mask.ns, Mul, up, mask.id, pt);
    OperandSelf(mask.ns, Values(mask.ns, pt), mask.id);
    var y := BinaryVec(Mul, vs[up], UnaryVec(Step, vs[input]));
    GrownAfter(ns, mask, UnaryRule(ns, Relu, up, node, input), s, s, pt, y);
  }

  lemma NegRuleGrown(ns: Arena, up: nat, node: nat, input: nat, pt: Point)
    requires WellFormed(ns) && Below(pt, |ns|) && up < |ns|
    ensures Grown(ns, UnaryRule(ns, Neg, up, node, input), ns[up].shape, pt, UnaryVec(Neg, Values(ns, pt)[up]))
  {
    UnaryGrown(ns, Neg, up, pt);
    assert UnaryRule(ns, Neg, up, node, input) == PushUnary(ns, Neg, up) by {
      hide PushUnary;
    }
  }

  lemma StepRuleGrown(ns: Arena, up: nat, node: nat, input: nat, pt: Point)
    requires WellFormed(ns) && Below(pt, |ns|) && up < |ns| && input < |ns| && ns[input].shape == ns[up].shape
    ensures Grown(ns, UnaryRule(ns, Step, up, node, input), ns[up].shape, pt, Fill(Numel(ns[up].shape), 0.0))
  {
    hide Values, WellFormed, Evaluate, PushConstant, Fill, Numel, Grown;
    ConstantGrown(ns, ShapeOf(ns, input), 0.0, pt);
  }

  lemma UnaryRuleGrown(ns: Arena, op: UnaryOp, up: nat, node: nat, input: nat, pt: Point)
    requires WellFormed(ns) && Below(pt, |ns|) && up < |ns| && node < |ns| && input < |ns|
    requires ns[node].shape == ns[input].shape == ns[up].shape
    ensures var r, vs := UnaryRule(ns, op, up, node, input), Values(ns, pt);
            Extended(ns, r, ns[up].shape, pt) &&
            (vs[node] == UnaryVec(op, vs[input]) ==>
               Grown(ns, r, ns[up].shape, pt, UnaryShare(op, vs[up], vs[input])))
  {
    hide Values, WellFormed, Evaluate, BinaryVec, UnaryVec, UnaryShare, UnaryRule, Fits, Numel;
    var vs := Values(ns, pt);
    UnaryShareCases(op, vs[up], vs[input]);
    match op
    case Neg => NegRuleGrown(ns, up, node, input, pt);
    case Step => StepRuleGrown(ns, up, node, input, pt);
    case Square => SquareRuleGrown(ns, up, node, input, pt);
    case Relu => ReluRuleGrown(ns, up, node, input, pt);
    case Reciprocal =>
      ReciprocalRuleGrown(ns, up, node, input, pt);
      if vs[node] == UnaryVec(Reciprocal, vs[input]) {
        ReciprocalShare(vs[up], vs[input], vs[node]);
      }
  }

  lemma SelectGrown(ns: Arena, c: nat, t: nat, f: nat, pt: Point)
    requires WellFormed(ns) && Below(pt, |ns|) && c < |ns| && t < |ns| && f < |ns|
    requires ns[t].shape == ns[f].shape && Fits(ns[c].shape, ns[t].shape)
    ensures var vs, s := Values(ns, pt), ns[t].shape;
            Grown(ns, PushSelect(ns, c, t, f), s, pt, SelectVec(Operand(ns, vs, c, s), vs[t], vs[f]))
  {
    var vs, s := Values(ns, pt), ns[t].shape;
    OperandMapSelf(s);
    FitsIffBroadcast(s, s);
    FitsIffBroadcast(ns[c].shape, s);
    OperandSelf(ns, vs, t);
    OperandSelf(ns, vs, f);
    PushGrown(ns, Select(c, t, f), s, pt);
  }

  /** The gradient a linear operation sends to its operand of shape `s`. */
  ghost function LinearShare(s: Shape, n: Node, g: Vec): (y: Vec)
    requires LinearOk(s, n) && |g| == Numel(n.shape)
    ensures |y| == Numel(s)
  {
    match n.op
    case Sum(_, axes, keepdim) =>
      KeptFits(s, axes);
      ReducedNumel(s, axes, keepdim);
      Gather(OperandMap(Kept(s, axes), s), g)
    case SumTo(_) => Gather(OperandMap(n.shape, s), g)
    case Permute(_, axes) =>
      PermuteMapsInverse(s, axes);
      Gather(PermuteMap(n.shape, Inverse(axes)), g)
    case Expand(_) => SumDown(s, n.shape, g)
    case _ => g
  }

  lemma SumRuleGrown(ns: Arena, n: Node, up: nat, pt: Point)
    requires WellFormed(ns) && Below(pt, |ns|) && up < |ns| && n.op.Sum? && n.op.input < |ns|
    requires LinearOk(ns[n.op.input].shape, n) && ns[up].shape == n.shape
    ensures var s := ns[n.op.input].shape;
            Grown(ns, LinearRule(ns, n.op, up), s, pt, LinearShare(s, n, Values(ns, pt)[up]))
  {
    hide Values, WellFormed, Evaluate, PushReshape, PushExpand, Numel, OperandMap;
    var s, axes, keepdim := ns[n.op.input].shape, n.op.axes, n.op.keepdim;
    var kept := Kept(s, axes);
    ReinsertedIsKept(s, axes);
    KeptFits(s, axes);
    ReducedNumel(s, axes, keepdim);
    ReshapeGrown(ns, up, kept, pt);
    var reshaped := PushReshape(ns, up, kept);
    ExpandGrown(reshaped.ns, reshaped.id, s, pt);
    GrownAfter(ns, reshaped, PushExpand(reshaped.ns, reshaped.id, s), kept, s, pt,
               LinearShare(s, n, Values(ns, pt)[up]));
  }

  lemma LinearRuleGrown(ns: Arena, n: Node, up: nat, pt: Point)
    requires WellFormed(ns) && Below(pt, |ns|) && up < |ns|
    requires n.op.Contiguous? || n.op.Sum? || n.op.SumTo? || n.op.Reshape? || n.op.Permute? || n.op.Expand?
    requires n.op.input < |ns| && LinearOk(ns[n.op.input].shape, n) && ns[up].shape == n.shape
    ensures var s := ns[n.op.input].shape;
            Grown(ns, LinearRule(ns, n.op, up), s, pt, LinearShare(s, n, Values(ns, pt)[up]))
  {
    hide Values, WellFormed, Evaluate, PushReshape, PushExpand, PushPermute, PushUnbroadcast;
    var s := ns[n.op.input].shape;
    match n.op
    case Contiguous(_) =>
    case Sum(_, _, _) => SumRuleGrown(ns, n, up, pt);
    case SumTo(_) => ExpandGrown(ns, up, s, pt);
    case Reshape(_) => ReshapeGrown(ns, up, s, pt);
    case Permute(_, axes) =>
      PermutedBack(s, axes);
      PermuteGrown(ns, up, Inverse(axes), pt);
    case Expand(_) => UnbroadcastGrown(ns, up, s, pt);
  }

  // The adjoint identities behind the rules

  lemma DownAdjoint(inner: Shape, outer: Shape, y: Vec, x: Vec)
    requires Fits(inner, outer) && |y| == Numel(outer) && |x| == Numel(inner)
    ensures Dot(SumDown(inner, outer, y), x) == Dot(y, Gather(OperandMap(inner, outer), x))
  {
    ScatterAdjoint(OperandMap(inner, outer), y, x);
  }

  /** What a linear operation sends back is its adjoint. */
  lemma LinearAdjoint(s: Shape, n: Node, g: Vec, x: Vec)
    requires LinearOk(s, n) && |g| == Numel(n.shape) && |x| == Numel(s)
    ensures Dot(LinearShare(s, n, g), x) == Dot(g, Linear(s, n, x))
  {
    hide Dot, OperandMap, PermuteMap, Gather, Scatter;
    match n.op
    case Sum(_, axes, keepdim) =>
      KeptFits(s, axes);
      ReducedNumel(s, axes, keepdim);
      DownAdjoint(Kept(s, axes), s, x, g);
      DotSymmetric(SumDown(Kept(s, axes), s, x), g);
      DotSymmetric(x, LinearShare(s, n, g));
    case SumTo(_) =>
      DownAdjoint(n.shape, s, x, g);
      DotSymmetric(SumDown(n.shape, s, x), g);
      DotSymmetric(x, LinearShare(s, n, g));
    case Permute(_, axes) =>
      PermuteMapsInverse(s, axes);
      var m, back := PermuteMap(s, axes), PermuteMap(n.shape, Inverse(axes));
      ScatterInverse(m, back, g);
      ScatterAdjoint(m, g, x);
    case Expand(_) => DownAdjoint(s, n.shape, g, x);
    case _ =>
  }

  lemma TimesRule(g: real, l: real, s: real, r: real, t: real, y: real, gl: real, gr: real)
    requires y == Times(l, s) + Times(r, t) && gl == Times(g, l) && gr == Times(g, r)
    ensures Times(g, y) == Times(gl, s) + Times(gr, t)
  {
    assert g * (l * s) == (g * l) * s;
    assert g * (r * t) == (g * r) * t;
  }

  lemma TimesAssoc(g: real, l: real, s: real, y: real, gl: real)
    requires y == Times(l, s) && gl == Times(g, l)
    ensures Times(g, y) == Times(gl, s)
  {
    assert g * (l * s) == (g * l) * s;
  }

  /** The two shares of a binary node account for all of its tangent. */
  lemma BinaryAdjoint(op: BinaryOp, g: Vec, a: Vec, b: Vec, s: Vec, t: Vec)
    requires |g| == |a| == |b| == |s| == |t|
    ensures Dot(g, BinaryTangent(op, a, b, s, t)) ==
            Dot(LeftShare(op, g, a, b), s) + Dot(RightShare(op, g, a, b), t)
  {
    hide LeftSlope, RightSlope, Times, Dot;
    var l, r, y := LeftShare(op, g, a, b), RightShare(op, g, a, b), BinaryTangent(op, a, b, s, t);
    forall k | 0 <= k < |g|
      ensures Times(g[k], y[k]) == Times(l[k], s[k]) + Times(r[k], t[k])
    {
      TimesRule(g[k], LeftSlope(op, a[k], b[k]), s[k], RightSlope(op, a[k], b[k]), t[k], y[k], l[k], r[k]);
    }
    DotSplit(g, y, l, s, r, t);
  }

  lemma UnaryAdjoint(op: UnaryOp, g: Vec, x: Vec, t: Vec)
    requires |g| == |x| == |t|
    ensures Dot(g, UnaryTangent(op, x, t)) == Dot(UnaryShare(op, g, x), t)
  {
    hide UnarySlope, Times, Dot;
    var u, y := UnaryShare(op, g, x), UnaryTangent(op, x, t);
    forall k | 0 <= k < |g|
      ensures Times(g[k], y[k]) == Times(u[k], t[k])
    {
      TimesAssoc(g[k], UnarySlope(op, x[k]), t[k], y[k], u[k]);
    }
    DotTerms(g, y, u, t);
  }

  lemma SelectAdjoint(c: Vec, g: Vec, s: Vec, t: Vec)
    requires |c| == |g| == |s| == |t|
    ensures Dot(g, SelectVec(c, s, t)) ==
            Dot(SelectVec(c, g, Fill(|g|, 0.0)), s) + Dot(SelectVec(c, Fill(|g|, 0.0), g), t)
  {
    var z := Fill(|g|, 0.0);
    var y, l, r := SelectVec(c, s, t), SelectVec(c, g, z), SelectVec(c, z, g);
    forall k | 0 <= k < |g|
      ensures Times(g[k], y[k]) == Times(l[k], s[k]) + Times(r[k], t[k])
    {
    }
    DotSplit(g, y, l, s, r, t);
  }
}
