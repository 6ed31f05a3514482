/** Graph builders as arena-to-arena functions, and what each appended node evaluates to. */
module Builders {
  import opened Wrappers
  import opened Shapes
  import opened Axes
  import opened Vectors
  import opened Graph

  /** An arena after a build step, and the node the step returned. */
  datatype Built = Built(ns: Arena, id: nat)

  function ShapeOf(ns: Arena, a: nat): Shape {
    if a < |ns| then ns[a].shape else []
  }

  /** The joined shape, or scalar where the builder would have reported a mismatch. */
  function Joined(a: Shape, b: Shape): Shape {
    match Broadcast(a, b)
    case Some(s) => s
    case None => []
  }

  function Push(ns: Arena, op: Op, s: Shape): Built {
    Built(ns + [Node(op, s)], |ns|)
  }

  function PushConstant(ns: Arena, s: Shape, x: real): Built {
    Push(ns, Constant(Fill(Numel(s), x)), s)
  }

  function PushUnary(ns: Arena, op: UnaryOp, a: nat): Built {
    Push(ns, Unary(op, a), ShapeOf(ns, a))
  }

  function PushBinary(ns: Arena, op: BinaryOp, a: nat, b: nat): Built {
    Push(ns, Binary(op, a, b), Joined(ShapeOf(ns, a), ShapeOf(ns, b)))
  }

  /** True division is the dividend times the reciprocal of the divisor. */
  function PushDiv(ns: Arena, a: nat, b: nat): Built {
    var r := PushUnary(ns, Reciprocal, b);
    PushBinary(r.ns, Mul, a, r.id)
  }

  function PushSelect(ns: Arena, c: nat, t: nat, f: nat): Built {
    Push(ns, Select(c, t, f), Joined(ShapeOf(ns, c), Joined(ShapeOf(ns, t), ShapeOf(ns, f))))
  }

  function PushSum(ns: Arena, a: nat, axes: seq<nat>, keepdim: bool): Built {
    Push(ns, Sum(a, axes, keepdim), ReducedShape(ShapeOf(ns, a), axes, keepdim))
  }

  function PushReshape(ns: Arena, a: nat, s: Shape): Built {
    if ShapeOf(ns, a) == s then Built(ns, a) else Push(ns, Reshape(a), s)
  }

  function PushExpand(ns: Arena, a: nat, s: Shape): Built {
    if ShapeOf(ns, a) == s then Built(ns, a) else Push(ns, Expand(a), s)
  }

  function PushPermute(ns: Arena, a: nat, axes: seq<nat>): Built {
    if axes == Identity(|ShapeOf(ns, a)|) then Built(ns, a)
    else if Permutes(axes, |ShapeOf(ns, a)|) then Push(ns, Permute(a, axes), Permuted(ShapeOf(ns, a), axes))
    else Built(ns, a)
  }

  /** The axes along which `target` was broadcast to `source`, ascending from axis `from`. */
  function BroadcastAxes(source: Shape, target: Shape, from: nat): (axes: seq<nat>)
    requires |target| <= |source| && from <= |source|
    ensures Normalized(axes, |source|)
    ensures forall i :: 0 <= i < |axes| ==> axes[i] >= from
    ensures forall a :: a in axes <==> from <= a < |source| && Collapsed(source, target, a)
    decreases |source| - from
  {
    if from == |source| then []
    else
      var rest := BroadcastAxes(source, target, from + 1);
      if Collapsed(source, target, from) then [from] + rest else rest
  }

  predicate Collapsed(source: Shape, target: Shape, a: nat)
    requires |target| <= |source| && a < |source|
  {
    var padding := |source| - |target|;
    a < padding || (target[a - padding] == 1 && source[a] != 1)
  }

  function PushUnbroadcast(ns: Arena, g: nat, target: Shape): Built {
    var source := ShapeOf(ns, g);
    if source == target || |target| > |source| then Built(ns, g)
    else
      var reduced := PushSum(ns, g, BroadcastAxes(source, target, 0), true);
      PushReshape(reduced.ns, reduced.id, target)
  }

  // What the builders compute

  ghost predicate Below(pt: Point, n: nat) {
    forall i :: i in pt.pinned ==> i < n
  }

  /** `r` extends `ns` by well-formed nodes that keep every old value, and its node has shape `s`. */
  ghost predicate Extended(ns: Arena, r: Built, s: Shape, pt: Point) {
    WellFormed(ns) && ns <= r.ns && WellFormed(r.ns) && r.id < |r.ns| && r.ns[r.id].shape == s &&
    Values(ns, pt) <= Values(r.ns, pt)
  }

  /** ... and its node has value `y`. */
  ghost predicate Grown(ns: Arena, r: Built, s: Shape, pt: Point, y: Vec) {
    Extended(ns, r, s, pt) && Values(r.ns, pt)[r.id] == y
  }

  lemma GrownAfter(ns: Arena, first: Built, r: Built, s: Shape, t: Shape, pt: Point, y: Vec)
    requires Extended(ns, first, s, pt) && Grown(first.ns, r, t, pt, y)
    ensures Grown(ns, r, t, pt, y)
  {
    hide Values, WellFormed;
  }

  lemma ValuesPush(ns: Arena, n: Node, pt: Point)
    requires WellFormed(ns) && NodeOk(ns, n) && Below(pt, |ns|)
    ensures WellFormed(ns + [n])
    ensures Values(ns + [n], pt) == Values(ns, pt) + [Evaluate(ns, n, Values(ns, pt), pt.feeds)]
  {
    WellFormedPush(ns, n);
    var more := ns + [n];
    assert more[..|more| - 1] == ns && more[|more| - 1] == n;
    assert |ns| !in pt.pinned;
  }

  lemma PushGrown(ns: Arena, op: Op, s: Shape, pt: Point)
    requires WellFormed(ns) && NodeOk(ns, Node(op, s)) && Below(pt, |ns|)
    ensures Grown(ns, Push(ns, op, s), s, pt, Evaluate(ns, Node(op, s), Values(ns, pt), pt.feeds))
  {
    ValuesPush(ns, Node(op, s), pt);
  }

  lemma OperandSelf(ns: Arena, vs: seq<Vec>, a: nat)
    requires Sized(ns, vs) && a < |ns|
    ensures Fits(ns[a].shape, ns[a].shape)
    ensures Operand(ns, vs, a, ns[a].shape) == vs[a]
  {
    OperandMapSelf(ns[a].shape);
    GatherIdentity(vs[a]);
  }

  lemma ConstantGrown(ns: Arena, s: Shape, x: real, pt: Point)
    requires WellFormed(ns) && Below(pt, |ns|)
    ensures Grown(ns, PushConstant(ns, s, x), s, pt, Fill(Numel(s), x))
  {
    PushGrown(ns, Constant(Fill(Numel(s), x)), s, pt);
  }

  lemma UnaryGrown(ns: Arena, op: UnaryOp, a: nat, pt: Point)
    requires WellFormed(ns) && Below(pt, |ns|) && a < |ns|
    ensures Grown(ns, PushUnary(ns, op, a), ns[a].shape, pt, UnaryVec(op, Values(ns, pt)[a]))
  {
    PushGrown(ns, Unary(op, a), ns[a].shape, pt);
  }

  lemma BinaryGrown(ns: Arena, op: BinaryOp, a: nat, b: nat, s: Shape, pt: Point)
    requires WellFormed(ns) && Below(pt, |ns|) && a < |ns| && b < |ns|
    requires Broadcast(ns[a].shape, ns[b].shape) == Some(s)
    ensures Fits(ns[a].shape, s) && Fits(ns[b].shape, s)
    ensures var vs := Values(ns, pt);
            Grown(ns, PushBinary(ns, op, a, b), s, pt,
                  BinaryVec(op, Operand(ns, vs, a, s), Operand(ns, vs, b, s)))
  {
    JoinFits(ns[a].shape, ns[b].shape, s);
    PushGrown(ns, Binary(op, a, b), s, pt);
  }

  /** The right operand broadcasts into the left one. */
  lemma BinaryGrownLeft(ns: Arena, op: BinaryOp, a: nat, b: nat, pt: Point)
    requires WellFormed(ns) && Below(pt, |ns|) && a < |ns| && b < |ns|
    requires Fits(ns[b].shape, ns[a].shape)
    ensures var vs, s := Values(ns, pt), ns[a].shape;
            Broadcast(s, ns[b].shape) == Some(s) &&
            Grown(ns, PushBinary(ns, op, a, b), s, pt, BinaryVec(op, vs[a], Operand(ns, vs, b, s)))
  {
    FitsIffBroadcast(ns[b].shape, ns[a].shape);
    BinaryGrown(ns, op, a, b, ns[a].shape, pt);
    OperandSelf(ns, Values(ns, pt), a);
  }

  lemma OperandExtend(ns: Arena, more: Arena, vs: seq<Vec>, ws: seq<Vec>, a: nat, s: Shape)
    requires Sized(ns, vs) && Sized(more, ws) && a < |ns| && ns <= more && vs <= ws
    requires Fits(ns[a].shape, s)
    ensures more[a].shape == ns[a].shape && Operand(more, ws, a, s) == Operand(ns, vs, a, s)
  {
  }

  lemma DivGrownLeft(ns: Arena, a: nat, b: nat, pt: Point)
    requires WellFormed(ns) && Below(pt, |ns|) && a < |ns| && b < |ns|
    requires Fits(ns[b].shape, ns[a].shape)
    ensures var vs, s := Values(ns, pt), ns[a].shape;
            Broadcast(s, ns[b].shape) == Some(s) &&
            Grown(ns, PushDiv(ns, a, b), s, pt, BinaryVec(Div, vs[a], Operand(ns, vs, b, s)))
  {
    hide Values, WellFormed, Evaluate;
    var vs, s := Values(ns, pt), ns[a].shape;
    FitsIffBroadcast(ns[b].shape, s);
    var r := PushUnary(ns, Reciprocal, b);
    UnaryGrown(ns, Reciprocal, b, pt);
    BinaryGrownLeft(r.ns, Mul, a, r.id, pt);
    var ws := Values(r.ns, pt);
    assert ws[a] == vs[a] && ws[r.id] == UnaryVec(Reciprocal, vs[b]);
    ReciprocalQuotient(OperandMap(ns[b].shape, s), vs[a], vs[b]);
    GrownAfter(ns, r, PushDiv(ns, a, b), ns[b].shape, s, pt, BinaryVec(Div, vs[a], Operand(ns, vs, b, s)));
  }

  lemma ReciprocalQuotient(m: seq<nat>, x: Vec, y: Vec)
    requires Addresses(m, |y|) && |m| == |x|
    ensures BinaryVec(Mul, x, Gather(m, UnaryVec(Reciprocal, y))) == BinaryVec(Div, x, Gather(m, y))
  {
    var p, q := BinaryVec(Mul, x, Gather(m, UnaryVec(Reciprocal, y))), BinaryVec(Div, x, Gather(m, y));
    forall k | 0 <= k < |p|
      ensures p[k] == q[k]
    {
    }
  }

  lemma ReshapeGrown(ns: Arena, a: nat, s: Shape, pt: Point)
    requires WellFormed(ns) && Below(pt, |ns|) && a < |ns| && Numel(ns[a].shape) == Numel(s)
    ensures Grown(ns, PushReshape(ns, a, s), s, pt, Values(ns, pt)[a])
  {
    hide Values, WellFormed, Numel;
    if ns[a].shape != s {
      PushGrown(ns, Reshape(a), s, pt);
    }
  }

  lemma ExpandGrown(ns: Arena, a: nat, s: Shape, pt: Point)
    requires WellFormed(ns) && Below(pt, |ns|) && a < |ns| && Fits(ns[a].shape, s)
    ensures Grown(ns, PushExpand(ns, a, s), s, pt, Operand(ns, Values(ns, pt), a, s))
  {
    if ns[a].shape != s {
      PushGrown(ns, Expand(a), s, pt);
    } else {
      OperandSelf(ns, Values(ns, pt), a);
    }
  }

  lemma PermuteGrown(ns: Arena, a: nat, axes: seq<nat>, pt: Point)
    requires WellFormed(ns) && Below(pt, |ns|) && a < |ns| && Permutes(axes, |ns[a].shape|)
    ensures Grown(ns, PushPermute(ns, a, axes), Permuted(ns[a].shape, axes), pt,
                  Gather(PermuteMap(ns[a].shape, axes), Values(ns, pt)[a]))
  {
    hide Values, WellFormed, PermuteMap, Permuted, Evaluate, Permutes, NodeOk, Gather;
    var s := ns[a].shape;
    if axes == Identity(|s|) {
      PermuteNothing(ns, a, pt);
    } else {
      PermuteNodeOk(ns, a, axes);
      PushGrown(ns, Permute(a, axes), Permuted(s, axes), pt);
      PermuteValue(ns, a, axes, pt);
    }
  }

  lemma PermuteNothing(ns: Arena, a: nat, pt: Point)
    requires WellFormed(ns) && a < |ns| && Permutes(Identity(|ns[a].shape|), |ns[a].shape|)
    ensures var s := ns[a].shape;
            Permuted(s, Identity(|s|)) == s && |PermuteMap(s, Identity(|s|))| == Numel(s) &&
            Gather(PermuteMap(s, Identity(|s|)), Values(ns, pt)[a]) == Values(ns, pt)[a]
  {
    hide Values, WellFormed, PermuteMap, Permuted, Permutes, Gather;
    PermuteIdentity(ns[a].shape);
    GatherIdentity(Values(ns, pt)[a]);
  }

  lemma PermuteValue(ns: Arena, a: nat, axes: seq<nat>, pt: Point)
    requires WellFormed(ns) && a < |ns| && Permutes(axes, |ns[a].shape|)
    requires NodeOk(ns, Node(Permute(a, axes), Permuted(ns[a].shape, axes)))
    ensures Evaluate(ns, Node(Permute(a, axes), Permuted(ns[a].shape, axes)), Values(ns, pt), pt.feeds) ==
            Gather(PermuteMap(ns[a].shape, axes), Values(ns, pt)[a])
  {
    hide Values, WellFormed, PermuteMap, Permuted, Permutes, Gather;
  }

  lemma PermuteNodeOk(ns: Arena, a: nat, axes: seq<nat>)
    requires a < |ns| && Permutes(axes, |ns[a].shape|)
    ensures NodeOk(ns, Node(Permute(a, axes), Permuted(ns[a].shape, axes)))
  {
  }

  lemma PermuteIdentity(s: Shape)
    requires Permutes(Identity(|s|), |s|)
    ensures Permuted(s, Identity(|s|)) == s
    ensures PermuteMap(s, Identity(|s|)) == Identity(Numel(s))
  {
    var axes := Identity(|s|);
    assert Permuted(s, axes) == s;
    forall n | 0 <= n < Numel(s)
      ensures PermuteOffset(s, axes, n) == n
    {
      var c := Coords(s, n);
      assert forall a :: 0 <= a < |s| ==> Inverse(axes)[a] == a by {
        forall a | 0 <= a < |s|
          ensures Inverse(axes)[a] == a
        {
          assert axes[Inverse(axes)[a]] == a;
        }
      }
      assert SourceCoords(s, axes, c) == c;
      OffsetOfCoords(s, n);
    }
  }

  /** The shape left by summing the broadcast axes is the target padded with ones. */
  lemma BroadcastAxesKept(source: Shape, target: Shape)
    requires Fits(target, source)
    ensures Kept(source, BroadcastAxes(source, target, 0)) == Ones(|source| - |target|) + target
  {
    assert |target| <= |source|;
    hide BroadcastAxes, Kept, Fits;
    var axes := BroadcastAxes(source, target, 0);
    var kept, padded := Kept(source, axes), Ones(|source| - |target|) + target;
    forall i: nat | i < |source|
      ensures kept[i] == padded[i]
    {
      BroadcastAxisKept(source, target, i);
    }
    assert kept == padded;
  }

  lemma BroadcastAxisKept(source: Shape, target: Shape, i: nat)
    requires Fits(target, source) && i < |source|
    ensures |target| <= |source|
    ensures Kept(source, BroadcastAxes(source, target, 0))[i] == (Ones(|source| - |target|) + target)[i]
  {
    hide BroadcastAxes;
    var padding := |source| - |target|;
    assert i in BroadcastAxes(source, target, 0) <==> Collapsed(source, target, i);
    if i >= padding {
      assert target[i - padding] == 1 || target[i - padding] == source[i - padding + padding];
    }
  }

  /** Un-broadcasting sums the gradient down to the target shape. */
  lemma UnbroadcastGrown(ns: Arena, g: nat, target: Shape, pt: Point)
    requires WellFormed(ns) && Below(pt, |ns|) && g < |ns| && Fits(target, ns[g].shape)
    ensures Grown(ns, PushUnbroadcast(ns, g, target), target, pt,
                  SumDown(target, ns[g].shape, Values(ns, pt)[g]))
  {
    hide Values, WellFormed, Evaluate, SumDown, BroadcastAxes, Kept, PushSum, PushReshape, Numel;
    var source := ns[g].shape;
    var x := Values(ns, pt)[g];
    if source == target {
      SelfDown(source, x);
    } else {
      var axes := BroadcastAxes(source, target, 0);
      KeptDown(source, target, x);
      KeptSumGrown(ns, g, axes, pt);
      var reduced := PushSum(ns, g, axes, true);
      ReshapeGrown(reduced.ns, reduced.id, target, pt);
      GrownAfter(ns, reduced, PushUnbroadcast(ns, g, target), Kept(source, axes), target, pt,
                 SumDown(target, source, x));
    }
  }

  lemma SelfDown(s: Shape, x: Vec)
    requires |x| == Numel(s)
    ensures Fits(s, s) && SumDown(s, s, x) == x
  {
    OperandMapSelf(s);
    ScatterIdentity(x);
  }

  lemma KeptSumGrown(ns: Arena, g: nat, axes: seq<nat>, pt: Point)
    requires WellFormed(ns) && Below(pt, |ns|) && g < |ns| && Normalized(axes, |ns[g].shape|)
    ensures var s := ns[g].shape;
            PushSum(ns, g, axes, true).ns == ns + [Node(Sum(g, axes, true), Kept(s, axes))] &&
            Fits(Kept(s, axes), s) &&
            Grown(ns, PushSum(ns, g, axes, true), Kept(s, axes), pt, SumDown(Kept(s, axes), s, Values(ns, pt)[g]))
  {
    hide Values, WellFormed, Numel, Kept, SumDown, Fits, Normalized;
    KeptFits(ns[g].shape, axes);
    PushGrown(ns, Sum(g, axes, true), Kept(ns[g].shape, axes), pt);
  }

  /** Summing to the kept shape and summing to the target are the same elements. */
  lemma KeptDown(source: Shape, target: Shape, x: Vec)
    requires Fits(target, source) && |x| == Numel(source)
    ensures var kept := Kept(source, BroadcastAxes(source, target, 0));
            Fits(kept, source) && Numel(kept) == Numel(target) &&
            SumDown(kept, source, x) == SumDown(target, source, x)
  {
    BroadcastAxesKept(source, target);
    PaddedMap(target, source);
  }
}
