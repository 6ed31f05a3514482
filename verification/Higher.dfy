/** Gradients are derivatives, and a swept graph can be differentiated again. */
module Higher {
  import opened Wrappers
  import opened Shapes
  import opened Axes
  import opened Vectors
  import opened Graph
  import opened Builders
  import opened Rules
  import opened Reverse
  import opened Closure
  import opened Traversal
  import opened Calculus
  import Derivative

  // Smoothness survives the sweep

  ghost predicate SmoothAt(ns: Arena, pt: Point, d: Direction, i: nat)
    requires WellFormed(ns)
  {
    i < |ns| && NodeOk(ns, ns[i]) && Derivative.Smooth(ns, pt, d, i)
  }

  /** Nodes closed under operands, none with a kink or a pole at the point. */
  ghost predicate CleanSlice(ns: Arena, pt: Point, d: Direction, slice: set<nat>)
    requires WellFormed(ns)
  {
    forall i :: i in slice ==> SmoothAt(ns, pt, d, i) && Derivative.Covered(ns, i, slice)
  }

  /** The slice and all nodes from `base` on are smooth and closed under operands. */
  ghost predicate CleanSince(ns: Arena, pt: Point, d: Direction, base: nat, slice: set<nat>)
    requires WellFormed(ns)
  {
    forall i: nat :: i < |ns| && Within(base, slice, i) ==>
      SmoothAt(ns, pt, d, i) && Reading(base, slice, ns[i].op)
  }

  function Between(n: nat, m: nat): (nodes: set<nat>)
    ensures forall i: nat :: i in nodes <==> n <= i < m
    decreases m
  {
    if m <= n then {} else Between(n, m - 1) + {m - 1}
  }

  lemma SliceSince(ns: Arena, pt: Point, d: Direction, slice: set<nat>)
    requires WellFormed(ns) && CleanSlice(ns, pt, d, slice)
    ensures CleanSince(ns, pt, d, |ns|, slice)
  {
    hide WellFormed, SmoothAt;
  }

  lemma SinceSlice(more: Arena, pt: Point, d: Direction, base: nat, slice: set<nat>)
    requires WellFormed(more) && CleanSince(more, pt, d, base, slice) && forall i :: i in slice ==> i < |more|
    ensures CleanSlice(more, pt, d, slice + Between(base, |more|))
  {
    hide WellFormed, Derivative.Smooth, NodeOk;
    var grown := slice + Between(base, |more|);
    forall i | i in grown
      ensures SmoothAt(more, pt, d, i) && Derivative.Covered(more, i, grown)
    {
      assert Within(base, slice, i);
      OperandsBelow(more, i);
      forall j | j in Derivative.Operands(more[i].op)
        ensures j in grown
      {
        assert Within(base, slice, j);
      }
    }
  }

  lemma OperandsBelow(ns: Arena, i: nat)
    requires WellFormed(ns) && i < |ns|
    ensures forall j :: j in Derivative.Operands(ns[i].op) ==> j < |ns|
  {
    hide WellFormed, LinearOk, Fits;
    Derivative.NodeOkEverywhere(ns, i);
  }

  /** A clean slice holds every node that one of its nodes depends on. */
  lemma {:induction false} ReachedWithin(ns: Arena, pt: Point, d: Direction, slice: set<nat>, a: nat, b: nat)
    requires WellFormed(ns) && CleanSlice(ns, pt, d, slice) && a in slice && Reaches(ns, a, b)
    ensures b in slice
    decreases a
  {
    hide WellFormed, SmoothAt;
    if a != b {
      var j :| j in BackwardInputs(ns[a].op) && j < a && Reaches(ns, j, b);
      assert Derivative.Covered(ns, a, slice) && j in Derivative.Operands(ns[a].op);
      ReachedWithin(ns, pt, d, slice, j, b);
    }
  }

  lemma SmoothExtend(ns: Arena, more: Arena, pt: Point, d: Direction, i: nat)
    requires WellFormed(ns) && WellFormed(more) && ns <= more && SmoothAt(ns, pt, d, i)
    ensures SmoothAt(more, pt, d, i)
  {
    hide Values, WellFormed, LinearOk, Fits;
    ValuesExtend(ns, more, pt);
    Derivative.NodeOkEverywhere(more, i);
    Derivative.NodeOkEverywhere(ns, i);
    var op, s := ns[i].op, ns[i].shape;
    if op.Compare? {
      OperandExtend(ns, more, Values(ns, pt), Values(more, pt), op.lhs, s);
      OperandExtend(ns, more, Values(ns, pt), Values(more, pt), op.rhs, s);
    }
  }

  /** The nodes a reverse rule of operation `routed` may append to an arena with `base` original nodes. */
  ghost predicate Tame(routed: Op, base: nat, more: Arena, i: nat)
    requires i < |more|
  {
    var op := more[i].op;
    Everywhere(op) ||
    (routed.Unary? && routed.uop == Relu && op == Unary(Step, routed.input)) ||
    (routed.Binary? && routed.bop == Div && op.Unary? && op.uop == Reciprocal && op.input < i &&
     (op.input == routed.rhs || (base <= op.input && more[op.input].op == Binary(Mul, routed.rhs, routed.rhs)))) ||
    (routed.Select? && op.Select? && op.condition == routed.condition)
  }

  ghost predicate Tames(routed: Op, base: nat, ns: Arena, more: Arena) {
    ns <= more && forall i: nat :: |ns| <= i < |more| ==> Tame(routed, base, more, i)
  }

  lemma TamesAfter(routed: Op, base: nat, a: Arena, b: Arena, c: Arena)
    requires Tames(routed, base, a, b) && Tames(routed, base, b, c)
    ensures Tames(routed, base, a, c)
  {
    forall i: nat | |a| <= i < |c|
      ensures Tame(routed, base, c, i)
    {
      if i < |b| {
        assert Tame(routed, base, b, i) && c[i] == b[i];
      }
    }
  }

  lemma CreditTames(routed: Op, base: nat, grads: seq<Option<nat>>, j: nat, b: Built)
    ensures Tames(routed, base, b.ns, Credit(grads, j, b).ns)
  {
  }

  lemma UnbroadcastTames(routed: Op, base: nat, ns: Arena, g: nat, target: Shape)
    ensures Tames(routed, base, ns, PushUnbroadcast(ns, g, target).ns)
  {
    hide BroadcastAxes, ReducedShape, Collapsed;
  }

  lemma SettleTames(routed: Op, base: nat, grads: seq<Option<nat>>, ns: Arena, j: nat, g: nat, target: Shape)
    ensures Tames(routed, base, ns, Credit(grads, j, PushUnbroadcast(ns, g, target)).ns)
  {
    hide PushUnbroadcast, Credit;
    UnbroadcastTames(routed, base, ns, g, target);
    CreditTames(routed, base, grads, j, PushUnbroadcast(ns, g, target));
    TamesAfter(routed, base, ns, PushUnbroadcast(ns, g, target).ns,
               Credit(grads, j, PushUnbroadcast(ns, g, target)).ns);
  }

  lemma UnaryTames(base: nat, ns: Arena, op: UnaryOp, up: nat, node: nat, input: nat)
    ensures Tames(Unary(op, input), base, ns, UnaryRule(ns, op, up, node, input).ns)
  {
    hide Joined, ShapeOf, Fill, Numel;
  }

  lemma LinearTames(routed: Op, base: nat, ns: Arena, op: Op, up: nat)
    requires op.Contiguous? || op.Sum? || op.SumTo? || op.Reshape? || op.Permute? || op.Expand?
    ensures Tames(routed, base, ns, LinearRule(ns, op, up).ns)
  {
    hide Reinserted, Normalized, Permutes, Inverse, Permuted, PushUnbroadcast, Fits, ReducedShape;
    match op
    case Expand(a) => UnbroadcastTames(routed, base, ns, up, ShapeOf(ns, a));
    case Sum(a, axes, keepdim) => SumTames(routed, base, ns, op, up);
    case _ =>
  }

  lemma SumTames(routed: Op, base: nat, ns: Arena, op: Op, up: nat)
    requires op.Sum?
    ensures Tames(routed, base, ns, LinearRule(ns, op, up).ns)
  {
    hide Reinserted, Normalized;
  }

  lemma LeftTames(base: nat, ns: Arena, op: BinaryOp, up: nat, l: nat, r: nat)
    requires r < |ns|
    ensures Tames(Binary(op, l, r), base, ns, LeftRule(ns, op, up, l, r).ns)
  {
  }

  lemma RightTames(base: nat, ns: Arena, op: BinaryOp, up: nat, l: nat, r: nat)
    requires base <= |ns|
    ensures Tames(Binary(op, l, r), base, ns, RightRule(ns, op, up, l, r).ns)
  {
    hide Joined;
    if op == Div {
      QuotientTames(base, ns, up, l, r);
    } else {
      assert forall i: nat :: |ns| <= i < |RightRule(ns, op, up, l, r).ns| ==>
               Everywhere(RightRule(ns, op, up, l, r).ns[i].op);
    }
  }

  lemma PushTames(routed: Op, base: nat, ns: Arena, n: Node)
    requires Tame(routed, base, ns + [n], |ns|)
    ensures Tames(routed, base, ns, ns + [n])
  {
  }

  lemma QuotientTames(base: nat, ns: Arena, up: nat, l: nat, r: nat)
    requires base <= |ns|
    ensures Tames(Binary(Div, l, r), base, ns, RightRule(ns, Div, up, l, r).ns)
  {
    hide Joined, ShapeOf, Tames;
    var routed := Binary(Div, l, r);
    var square := PushBinary(ns, Mul, r, r);
    PushTames(routed, base, ns, square.ns[|ns|]);
    var numerator := PushBinary(square.ns, Mul, up, l);
    PushTames(routed, base, square.ns, numerator.ns[|square.ns|]);
    TamesAfter(routed, base, ns, square.ns, numerator.ns);
    var reciprocal := PushUnary(numerator.ns, Reciprocal, square.id);
    assert reciprocal.ns[square.id].op == Binary(Mul, r, r);
    PushTames(routed, base, numerator.ns, reciprocal.ns[|numerator.ns|]);
    TamesAfter(routed, base, ns, numerator.ns, reciprocal.ns);
    var quotient := PushBinary(reciprocal.ns, Mul, numerator.id, reciprocal.id);
    PushTames(routed, base, reciprocal.ns, quotient.ns[|reciprocal.ns|]);
    TamesAfter(routed, base, ns, reciprocal.ns, quotient.ns);
    var negated := PushUnary(quotient.ns, Neg, quotient.id);
    PushTames(routed, base, quotient.ns, negated.ns[|quotient.ns|]);
    TamesAfter(routed, base, ns, quotient.ns, negated.ns);
  }

  lemma BinaryTames(base: nat, s: Sweep, op: BinaryOp, up: nat, l: nat, r: nat, active: seq<nat>)
    requires base <= |s.ns| && r < base
    ensures Tames(Binary(op, l, r), base, s.ns, RouteBinary(s, op, up, l, r, active).ns)
  {
    hide LeftRule, RightRule, PushUnbroadcast, Credit, Tames;
    var routed := Binary(op, l, r);
    var a := if l in active then LeftRule(s.ns, op, up, l, r) else Built(s.ns, up);
    var b := if r in active then RightRule(a.ns, op, up, l, r) else Built(a.ns, up);
    TamesSelf(routed, base, s.ns);
    LeftTames(base, s.ns, op, up, l, r);
    TamesSelf(routed, base, a.ns);
    TamesLonger(routed, base, s.ns, a.ns);
    RightTames(base, a.ns, op, up, l, r);
    TamesAfter(routed, base, s.ns, a.ns, b.ns);
    SettleTames(routed, base, s.grads, b.ns, l, a.id, ShapeOf(b.ns, l));
    var s1 := if l in active then Credit(s.grads, l, PushUnbroadcast(b.ns, a.id, ShapeOf(b.ns, l)))
      else Sweep(b.ns, s.grads);
    if l in active {
      TamesAfter(routed, base, s.ns, b.ns, s1.ns);
    }
    if r in active {
      SettleTames(routed, base, s1.grads, s1.ns, r, b.id, ShapeOf(s1.ns, r));
      TamesAfter(routed, base, s.ns, s1.ns, RouteBinary(s, op, up, l, r, active).ns);
    }
  }

  lemma TamesSelf(routed: Op, base: nat, ns: Arena)
    ensures Tames(routed, base, ns, ns)
  {
  }

  lemma TamesLonger(routed: Op, base: nat, ns: Arena, more: Arena)
    requires Tames(routed, base, ns, more)
    ensures |ns| <= |more|
  {
  }

  lemma SelectTames(base: nat, s: Sweep, up: nat, c: nat, t: nat, f: nat, active: seq<nat>)
    ensures Tames(Select(c, t, f), base, s.ns, RouteSelect(s, up, c, t, f, active).ns)
  {
    hide PushUnbroadcast, Credit;
    var routed := Select(c, t, f);
    var zeros := PushConstant(s.ns, ShapeOf(s.ns, up), 0.0);
    var s1 := Sweep(zeros.ns, s.grads);
    if t in active {
      var g := PushSelect(zeros.ns, c, up, zeros.id);
      SettleTames(routed, base, s.grads, g.ns, t, g.id, ShapeOf(g.ns, t));
      s1 := Credit(s.grads, t, PushUnbroadcast(g.ns, g.id, ShapeOf(g.ns, t)));
      TamesAfter(routed, base, s.ns, g.ns, s1.ns);
    }
    if f in active {
      var g := PushSelect(s1.ns, c, zeros.id, up);
      SettleTames(routed, base, s1.grads, g.ns, f, g.id, ShapeOf(g.ns, f));
      TamesAfter(routed, base, s.ns, s1.ns, g.ns);
      TamesAfter(routed, base, s.ns, g.ns, RouteSelect(s, up, c, t, f, active).ns);
    }
  }

  lemma RouteTames(base: nat, s: Sweep, op: Op, node: nat, up: nat, active: seq<nat>)
    requires base <= |s.ns| && (op.Binary? ==> op.rhs < base)
    ensures Tames(op, base, s.ns, Route(s, op, node, up, active).ns)
  {
    hide RouteBinary, RouteSelect, UnaryRule, LinearRule, Credit, Tames;
    TamesSelf(op, base, s.ns);
    match op
    case Binary(bop, l, r) => BinaryTames(base, s, bop, up, l, r, active);
    case Select(c, t, f) => SelectTames(base, s, up, c, t, f, active);
    case Unary(uop, a) =>
      UnaryTames(base, s.ns, uop, up, node, a);
      CreditTames(op, base, s.grads, a, UnaryRule(s.ns, uop, up, node, a));
      TamesAfter(op, base, s.ns, UnaryRule(s.ns, uop, up, node, a).ns, Route(s, op, node, up, active).ns);
    case Input(_) =>
    case Constant(_) =>
    case Detach(_) =>
    case Compare(_, _, _) =>
    case _ =>
      LinearTames(op, base, s.ns, op, up);
      CreditTames(op, base, s.grads, op.input, LinearRule(s.ns, op, up));
      TamesAfter(op, base, s.ns, LinearRule(s.ns, op, up).ns, Route(s, op, node, up, active).ns);
  }

  /** The squared divisor has no zero where the divisor has none. */
  lemma SquareNonzero(more: Arena, pt: Point, q: nat, r: nat)
    requires WellFormed(more) && q < |more| && q !in pt.pinned && more[q].op == Binary(Mul, r, r)
    requires r < |more| && forall k :: 0 <= k < |Values(more, pt)[r]| ==> Values(more, pt)[r][k] != 0.0
    ensures forall k :: 0 <= k < |Values(more, pt)[q]| ==> Values(more, pt)[q][k] != 0.0
  {
    hide Values, WellFormed, Fits, OperandMap;
    ValueAt(more, pt, q);
    var vs, s := Values(more, pt), more[q].shape;
    var x := Operand(more[..q], vs[..q], r, s);
    forall k | 0 <= k < |vs[q]|
      ensures vs[q][k] != 0.0
    {
      assert x[k] == vs[r][OperandMap(more[r].shape, s)[k]];
      assert vs[q][k] == BinaryValue(Mul, x[k], x[k]);
      NonzeroSquare(x[k]);
    }
  }

  lemma NonzeroSquare(x: real)
    requires x != 0.0
    ensures BinaryValue(Mul, x, x) != 0.0
  {
    NonzeroProduct(x, x, BinaryValue(Mul, x, x));
  }

  lemma NonzeroProduct(a: real, b: real, y: real)
    requires a != 0.0 && b != 0.0 && y == BinaryValue(Mul, a, b)
    ensures y != 0.0
  {
    NonzeroTerms(a, b);
  }

  lemma NonzeroTerms(a: real, b: real)
    requires a != 0.0 && b != 0.0
    ensures a * b != 0.0
  {
  }

  lemma TameSmooth(routed: Op, base: nat, more: Arena, pt: Point, d: Direction, j: nat, i: nat)
    requires WellFormed(more) && Below(pt, base) && i < |more|
    requires SmoothAt(more, pt, d, j) && more[j].op == routed && Tame(routed, base, more, i)
    ensures SmoothAt(more, pt, d, i)
  {
    hide Values, WellFormed, LinearOk, Fits;
    Derivative.NodeOkEverywhere(more, i);
    Derivative.NodeOkEverywhere(more, j);
    var op := more[i].op;
    if op.Unary? && op.uop == Reciprocal && op.input != routed.rhs {
      SquareNonzero(more, pt, op.input, routed.rhs);
    }
  }

  /** The arena grew without a new gradient barrier. */
  ghost predicate Follows(ns: Arena, more: Arena) {
    ns <= more && forall i: nat :: |ns| <= i < |more| ==> !more[i].op.Detach?
  }

  lemma FollowsAfter(a: Arena, b: Arena, c: Arena)
    requires Follows(a, b) && Follows(b, c)
    ensures Follows(a, c)
  {
  }

  lemma FollowsLonger(a: Arena, b: Arena)
    requires Follows(a, b)
    ensures |a| <= |b|
  {
  }

  lemma TamesFollows(routed: Op, base: nat, ns: Arena, more: Arena)
    requires Tames(routed, base, ns, more)
    ensures Follows(ns, more)
  {
    forall i: nat | |ns| <= i < |more|
      ensures !more[i].op.Detach?
    {
      assert Tame(routed, base, more, i);
    }
  }

  lemma VisitSmooth(ns: Arena, s: Sweep, i: nat, active: seq<seq<nat>>, pt: Point, d: Direction, slice: set<nat>)
    requires WellFormed(ns) && ns <= s.ns && WellFormed(s.ns) && CleanSince(s.ns, pt, d, |ns|, slice) && i < |ns|
    requires AllWithin(|ns|, slice, s.grads) && (i < |s.grads| && s.grads[i].Some? ==> i in slice)
    requires Below(pt, |ns|) && WellFormed(Visit(s, i, active).ns)
    ensures var out := Visit(s, i, active);
            Follows(s.ns, out.ns) && CleanSince(out.ns, pt, d, |ns|, slice) && AllWithin(|ns|, slice, out.grads)
  {
    hide Values, WellFormed, Route, Derivative.Smooth, NodeOk, Tame, AllWithin, Reading;
    if i < |active| && i < |s.grads| && |active[i]| > 0 && s.grads[i].Some? {
      var out, op, up := Visit(s, i, active), ns[i].op, s.grads[i].value;
      RightOperandBelow(ns, i);
      RouteTames(|ns|, s, op, i, up, active[i]);
      TamesFollows(op, |ns|, s.ns, out.ns);
      assert Within(|ns|, slice, i);
      assert SmoothAt(s.ns, pt, d, i) && Reading(|ns|, slice, op);
      AllWithinAt(|ns|, slice, s.grads, i);
      RouteCloses(|ns|, slice, s, op, i, up, active[i]);
      SmoothExtend(s.ns, out.ns, pt, d, i);
      forall j: nat | j < |out.ns| && Within(|ns|, slice, j)
        ensures SmoothAt(out.ns, pt, d, j) && Reading(|ns|, slice, out.ns[j].op)
      {
        if j < |s.ns| {
          SmoothExtend(s.ns, out.ns, pt, d, j);
        } else {
          TameSmooth(op, |ns|, out.ns, pt, d, i, j);
        }
      }
    }
  }

  lemma AllWithinAt(base: nat, pool: set<nat>, grads: seq<Option<nat>>, i: nat)
    requires AllWithin(base, pool, grads) && i < |grads| && grads[i].Some?
    ensures Within(base, pool, grads[i].value)
  {
  }

  lemma RightOperandBelow(ns: Arena, i: nat)
    requires WellFormed(ns) && i < |ns|
    ensures ns[i].op.Binary? ==> ns[i].op.rhs < |ns|
  {
    Derivative.NodeOkEverywhere(ns, i);
  }

  lemma {:induction false} SweepSmooth(ns: Arena, root: nat, s: Sweep, k: nat, active: seq<seq<nat>>, at: nat,
                                       pt: Point, d: Direction, slice: set<nat>)
    requires at < |ns| && Serves(ns, root, active, at) && Rooted(ns, root, s.grads) && k <= |ns|
    requires Sound(ns, s, Still()) && Below(pt, |ns|) && WellFormed(s.ns) && CleanSince(s.ns, pt, d, |ns|, slice)
    requires WellFormed(ns) && CleanSlice(ns, pt, d, slice) && root in slice && AllWithin(|ns|, slice, s.grads)
    ensures var out := SweepDown(s, k, active);
            WellFormed(out.ns) && Follows(s.ns, out.ns) && CleanSince(out.ns, pt, d, |ns|, slice) &&
            AllWithin(|ns|, slice, out.grads)
    decreases k
  {
    hide Values, WellFormed, Tangents, Visit, Sound, Serves, Rooted, Aims, Balance, CleanSlice, CleanSince, Follows,
         AllWithin;
    if k == 0 {
      FollowsSelf(s.ns);
    } else {
      var e := Direction(at, Zeros(Numel(ns[at].shape)));
      AtRest(ns, at);
      SoundGrows(ns, s, Still());
      VisitStep(ns, root, s, k - 1, active, Still(), e);
      SoundGrows(ns, Visit(s, k - 1, active), Still());
      VisitedWithin(ns, root, s.grads, k - 1, pt, d, slice);
      VisitSmooth(ns, s, k - 1, active, pt, d, slice);
      SweepSmooth(ns, root, Visit(s, k - 1, active), k - 1, active, at, pt, d, slice);
      FollowsAfter(s.ns, Visit(s, k - 1, active).ns, SweepDown(s, k, active).ns);
    }
  }

  lemma VisitedWithin(ns: Arena, root: nat, grads: seq<Option<nat>>, i: nat, pt: Point, d: Direction,
                      slice: set<nat>)
    requires WellFormed(ns) && CleanSlice(ns, pt, d, slice) && root in slice && Rooted(ns, root, grads) && i < |ns|
    ensures i < |grads| && grads[i].Some? ==> i in slice
  {
    hide WellFormed, CleanSlice, Reaches;
    if i < |grads| && grads[i].Some? {
      ReachedWithin(ns, pt, d, slice, root, i);
    }
  }

  lemma FollowsSelf(ns: Arena)
    ensures Follows(ns, ns)
  {
  }

  lemma PlainSmooth(ns: Arena, more: Arena, pt: Point, d: Direction, from: set<nat>, base: nat, slice: set<nat>)
    requires WellFormed(ns) && WellFormed(more) && PlainlyGrown(ns, more, from) && base <= |ns| && from <= slice
    requires CleanSince(ns, pt, d, base, slice)
    ensures CleanSince(more, pt, d, base, slice) && Follows(ns, more)
  {
    hide Values, WellFormed, LinearOk, Fits, Reading;
    ClosesWider(|ns|, from, base, slice, ns, more);
    forall i: nat | i < |more| && Within(base, slice, i)
      ensures SmoothAt(more, pt, d, i) && Reading(base, slice, more[i].op)
    {
      if i < |ns| {
        SmoothExtend(ns, more, pt, d, i);
      } else {
        Derivative.NodeOkEverywhere(more, i);
      }
    }
  }

  /**
   * Wherever the nodes that the loss and its seed are computed from are smooth, so are those together with all the
   * appended nodes; they hold the gradient node `id`, and no appended node is a gradient barrier.
   */
  ghost predicate KeepsSmooth(ns: Arena, more: Arena, loss: nat, gradient: Option<nat>, id: nat) {
    WellFormed(ns) && WellFormed(more) &&
    forall pt: Point, d: Direction, slice: set<nat> ::
      Below(pt, |ns|) && CleanSlice(ns, pt, d, slice) && loss in slice && SeedSource(gradient) <= slice ==>
        CleanSlice(more, pt, d, slice + Between(|ns|, |more|)) && id in slice + Between(|ns|, |more|) &&
        Follows(ns, more)
  }

  lemma SweptKeepsSmooth(ns: Arena, start: Arena, loss: nat, gradient: Option<nat>, seed: nat, active: seq<seq<nat>>,
                         target: nat, more: Arena, id: nat)
    requires IsSeed(ns, start, loss, gradient, seed) && Serves(ns, loss, active, target) && target < |ns|
    requires var out := SweepDown(Seeded(start, |ns|, loss, seed), |ns|, active);
             PlainlyGrown(out.ns, more, {}) && WellFormed(out.ns) && WellFormed(more) && id < |more| &&
             (|ns| <= id || (target < |out.grads| && out.grads[target] == Some(id)))
    ensures KeepsSmooth(ns, more, loss, gradient, id)
  {
    hide Values, WellFormed, Tangents, Serves, SweepDown, CleanSlice, CleanSince, PlainlyGrown, SeedVec, Balance, Sound,
         Rooted, Aims, Follows, AllWithin;
    var s := Seeded(start, |ns|, loss, seed);
    AtRest(ns, target);
    StartBalance(ns, start, loss, seed, Still(), Direction(target, Zeros(Numel(ns[target].shape))));
    forall pt: Point, d: Direction, slice: set<nat> |
      Below(pt, |ns|) && CleanSlice(ns, pt, d, slice) && loss in slice && SeedSource(gradient) <= slice
      ensures CleanSlice(more, pt, d, slice + Between(|ns|, |more|)) && id in slice + Between(|ns|, |more|)
      ensures Follows(ns, more)
    {
      var out := SweepDown(s, |ns|, active);
      SliceSince(ns, pt, d, slice);
      PlainSmooth(ns, start, pt, d, SeedSource(gradient), |ns|, slice);
      SeededWithin(start, |ns|, loss, seed, slice);
      SweepSmooth(ns, loss, s, |ns|, active, target, pt, d, slice);
      FollowsAfter(ns, start, out.ns);
      FollowsLonger(ns, out.ns);
      PlainSmooth(out.ns, more, pt, d, {}, |ns|, slice);
      FollowsAfter(ns, out.ns, more);
      SliceBelow(ns, pt, d, slice);
      SinceSlice(more, pt, d, |ns|, slice);
      if id < |ns| {
        AllWithinAt(|ns|, slice, out.grads, target);
      }
    }
  }

  lemma SeededWithin(start: Arena, n: nat, root: nat, seed: nat, slice: set<nat>)
    requires root < n && Within(n, slice, seed)
    ensures AllWithin(n, slice, Seeded(start, n, root, seed).grads)
  {
  }

  lemma SliceBelow(ns: Arena, pt: Point, d: Direction, slice: set<nat>)
    requires WellFormed(ns) && CleanSlice(ns, pt, d, slice)
    ensures forall i :: i in slice ==> i < |ns|
  {
    hide WellFormed, NodeOk, Derivative.Smooth;
  }

  // The value of a gradient

  /** The first `n` elements of node `i`, weighted by `w` and summed, as a function of the displacement. */
  ghost function Weighed(ns: Arena, pt: Point, d: Direction, i: nat, w: Vec, n: nat): real -> real
    requires WellFormed(ns) && Aims(ns, d) && i < |ns| && |w| == Numel(ns[i].shape) && n <= |w|
  {
    (e: real) => Dot(w[..n], Values(ns, Derivative.Displaced(ns, pt, d, e))[i][..n])
  }

  /** One weighted element, as a function of the displacement. */
  ghost function Weight(ns: Arena, pt: Point, d: Direction, i: nat, k: nat, w: real): real -> real
    requires WellFormed(ns) && Aims(ns, d) && i < |ns| && k < Numel(ns[i].shape)
  {
    (e: real) => Times(w, Values(ns, Derivative.Displaced(ns, pt, d, e))[i][k])
  }

  lemma WeightSlope(ns: Arena, pt: Point, d: Direction, slice: set<nat>, i: nat, k: nat, w: real)
    requires WellFormed(ns) && Aims(ns, d) && i < |ns| && k < Numel(ns[i].shape)
    requires Derivative.SmoothSlice(ns, pt, d, slice) && i in slice
    ensures Slope(Weight(ns, pt, d, i, k, w), Times(w, Tangents(ns, pt, d)[i][k]))
  {
    hide Values, WellFormed, Tangents, Slope, Times, Cross, Derivative.SmoothSlice, NodeOk;
    Derivative.TangentIsDerivative(ns, pt, d, slice, i, k);
    var c: real -> real := _ => w;
    var f, t := Derivative.Curve(ns, pt, d, i, k), Tangents(ns, pt, d)[i][k];
    SlopeConstant(c, 1.0);
    SlopeProduct(c, f, Weight(ns, pt, d, i, k, w), 0.0, t);
    CrossConstant(f(0.0), w, t);
  }

  lemma CrossConstant(y: real, w: real, t: real)
    ensures Cross(0.0, y, w, t) == Times(w, t)
  {
  }

  lemma WeighedNext(w: Vec, y: Vec, n: nat)
    requires |w| == |y| && 0 < n <= |w|
    ensures Dot(w[..n], y[..n]) == Dot(w[..n - 1], y[..n - 1]) + Times(w[n - 1], y[n - 1])
  {
    assert w[..n][..n - 1] == w[..n - 1] && y[..n][..n - 1] == y[..n - 1];
  }

  lemma {:induction false} WeighedSlope(ns: Arena, pt: Point, d: Direction, slice: set<nat>, i: nat, w: Vec, n: nat)
    requires WellFormed(ns) && Aims(ns, d) && i < |ns| && |w| == Numel(ns[i].shape) && n <= |w|
    requires Derivative.SmoothSlice(ns, pt, d, slice) && i in slice
    ensures Slope(Weighed(ns, pt, d, i, w, n), Dot(w[..n], Tangents(ns, pt, d)[i][..n]))
    decreases n
  {
    if n == 0 {
      SlopeConstant(Weighed(ns, pt, d, i, w, n), 1.0);
    } else {
      WeighedSlope(ns, pt, d, slice, i, w, n - 1);
      WeighedStep(ns, pt, d, slice, i, w, n);
    }
  }

  lemma WeighedStep(ns: Arena, pt: Point, d: Direction, slice: set<nat>, i: nat, w: Vec, n: nat)
    requires WellFormed(ns) && Aims(ns, d) && i < |ns| && |w| == Numel(ns[i].shape) && 0 < n <= |w|
    requires Derivative.SmoothSlice(ns, pt, d, slice) && i in slice
    requires Slope(Weighed(ns, pt, d, i, w, n - 1), Dot(w[..n - 1], Tangents(ns, pt, d)[i][..n - 1]))
    ensures Slope(Weighed(ns, pt, d, i, w, n), Dot(w[..n], Tangents(ns, pt, d)[i][..n]))
  {
    hide Values, WellFormed, Tangents, Slope, Dot, Times, Derivative.SmoothSlice;
    var t, f := Tangents(ns, pt, d)[i], Weighed(ns, pt, d, i, w, n - 1);
    var g, h := Weight(ns, pt, d, i, n - 1, w[n - 1]), Weighed(ns, pt, d, i, w, n);
    WeightSlope(ns, pt, d, slice, i, n - 1, w[n - 1]);
    WeighedNext(w, t, n);
    forall e
      ensures h(e) == f(e) + g(e)
    {
      WeighedNext(w, Values(ns, Derivative.Displaced(ns, pt, d, e))[i], n);
    }
    SlopeSum(f, g, h, Dot(w[..n - 1], t[..n - 1]), Times(w[n - 1], t[n - 1]), Dot(w[..n], t[..n]));
  }

  /** The loss paired with the seed of the request, as the target moves along `v`. */
  ghost function SeededLoss(ns: Arena, pt: Point, loss: nat, target: nat, gradient: Option<nat>, v: Vec): real -> real
    requires WellFormed(ns) && loss < |ns| && Aims(ns, Direction(target, v))
  {
    Weighed(ns, pt, Direction(target, v), loss, SeedVec(ns, pt, loss, gradient), Numel(ns[loss].shape))
  }

  lemma AdjointOf(ns: Arena, more: Arena, loss: nat, target: nat, gradient: Option<nat>, id: nat, pt: Point, v: Vec)
    requires IsGradient(ns, more, loss, target, gradient, id) && Admits(ns, pt, target)
    requires |v| == Numel(ns[target].shape)
    ensures |Values(more, pt)[id]| == |v|
    ensures Dot(Values(more, pt)[id], v) ==
            Dot(SeedVec(ns, pt, loss, gradient), Tangents(ns, pt, Direction(target, v))[loss])
  {
    hide Values, WellFormed, Tangents, Dot, SeedVec, Admits;
    assert AdjointAt(ns, more, pt, loss, target, gradient, id);
  }

  /**
   * A gradient node's value, paired with any direction, is the derivative of the seeded loss in that direction, where
   * the nodes the loss is computed from are smooth.
   */
  lemma GradientIsDerivative(ns: Arena, more: Arena, loss: nat, target: nat, gradient: Option<nat>, id: nat,
                             pt: Point, v: Vec, slice: set<nat>)
    requires IsGradient(ns, more, loss, target, gradient, id) && Admits(ns, pt, target)
    requires |v| == Numel(ns[target].shape)
    requires Derivative.SmoothSlice(ns, pt, Direction(target, v), slice) && loss in slice
    ensures |Values(more, pt)[id]| == |v|
    ensures Slope(SeededLoss(ns, pt, loss, target, gradient, v), Dot(Values(more, pt)[id], v))
  {
    hide Values, WellFormed, Tangents, Slope, Dot, SeedVec, Weighed, Admits, AdjointAt, Derivative.SmoothSlice;
    AdjointOf(ns, more, loss, target, gradient, id, pt, v);
    SeededSlope(ns, pt, loss, target, gradient, v, slice);
  }

  lemma SeededSlope(ns: Arena, pt: Point, loss: nat, target: nat, gradient: Option<nat>, v: Vec, slice: set<nat>)
    requires WellFormed(ns) && loss < |ns| && Aims(ns, Direction(target, v))
    requires Derivative.SmoothSlice(ns, pt, Direction(target, v), slice) && loss in slice
    ensures Slope(SeededLoss(ns, pt, loss, target, gradient, v),
                  Dot(SeedVec(ns, pt, loss, gradient), Tangents(ns, pt, Direction(target, v))[loss]))
  {
    hide Values, WellFormed, Tangents, Slope, Dot, SeedVec, Weighed, Derivative.SmoothSlice;
    var d, n := Direction(target, v), Numel(ns[loss].shape);
    var w, t := SeedVec(ns, pt, loss, gradient), Tangents(ns, pt, d)[loss];
    WeighedSlope(ns, pt, d, slice, loss, w, n);
    assert w[..n] == w && t[..n] == t;
  }

  /** Every direction's derivative of the seeded loss is its pairing with `g`. */
  ghost predicate Represents(ns: Arena, pt: Point, loss: nat, target: nat, gradient: Option<nat>, g: Vec)
    requires WellFormed(ns) && loss < |ns| && target < |ns| && |g| == Numel(ns[target].shape)
  {
    forall v: Vec :: |v| == |g| ==> Slope(SeededLoss(ns, pt, loss, target, gradient, v), Dot(g, v))
  }

  /** The gradient's value is the only vector whose pairings are the derivatives of the seeded loss. */
  lemma GradientDetermined(ns: Arena, more: Arena, loss: nat, target: nat, gradient: Option<nat>, id: nat, pt: Point,
                           g: Vec, slice: set<nat>)
    requires IsGradient(ns, more, loss, target, gradient, id) && Admits(ns, pt, target)
    requires target < |ns| && |g| == Numel(ns[target].shape) && loss in slice
    requires forall v: Vec :: |v| == |g| ==> Derivative.SmoothSlice(ns, pt, Direction(target, v), slice)
    ensures Represents(ns, pt, loss, target, gradient, g) <==> Values(more, pt)[id] == g
  {
    hide Values, WellFormed, Slope, Dot, SeededLoss, Admits, AdjointAt, Derivative.SmoothSlice;
    var h := Values(more, pt)[id];
    assert |h| == |g| by {
      GradientIsDerivative(ns, more, loss, target, gradient, id, pt, g, slice);
    }
    forall v: Vec | |v| == |g|
      ensures Slope(SeededLoss(ns, pt, loss, target, gradient, v), Dot(h, v))
      ensures Represents(ns, pt, loss, target, gradient, g) ==> Dot(g, v) == Dot(h, v)
    {
      GradientIsDerivative(ns, more, loss, target, gradient, id, pt, v, slice);
      if Represents(ns, pt, loss, target, gradient, g) {
        SlopeUnique(SeededLoss(ns, pt, loss, target, gradient, v), Dot(g, v), Dot(h, v));
      }
    }
    if Represents(ns, pt, loss, target, gradient, g) {
      DotDetermines(g, h);
    }
  }

  lemma CleanIsSmooth(ns: Arena, pt: Point, d: Direction, slice: set<nat>)
    requires WellFormed(ns) && CleanSlice(ns, pt, d, slice)
    ensures Derivative.SmoothSlice(ns, pt, d, slice)
  {
    hide WellFormed, NodeOk, Derivative.Smooth, Derivative.Covered;
    assert forall i :: i in slice ==> SmoothAt(ns, pt, d, i);
  }

  /** Moving a leaf or the first target itself leads only to points the first gradient is also right at. */
  lemma DisplacedAdmits(ns: Arena, more: Arena, x: nat, y: nat, pt: Point, v: Vec, e: real)
    requires WellFormed(more) && Follows(ns, more) && y < |ns| && Aims(more, Direction(y, v))
    requires Below(pt, |ns|) && Admits(more, pt, y) && (y == x || BackwardInputs(ns[y].op) == [])
    ensures Admits(ns, Derivative.Displaced(more, pt, Direction(y, v), e), x)
  {
    hide Values, WellFormed;
  }

  /**
   * Differentiating a gradient: once a first request over `ns` left node `id` in `more`, a second request
   * over `more` yields the derivative of that gradient. Smoothness is asked only of original nodes: those that the
   * first loss and its seed are computed from.
   */
  lemma SecondDerivative(ns: Arena, more: Arena, most: Arena, loss: nat, x: nat, first: Option<nat>, id: nat,
                         y: nat, second: Option<nat>, last: nat, pt: Point, v: Vec, slice: set<nat>)
    requires IsGradient(ns, more, loss, x, first, id) && KeepsSmooth(ns, more, loss, first, id)
    requires IsGradient(more, most, id, y, second, last) && y < |ns|
    requires Below(pt, |ns|) && Admits(more, pt, y) && |v| == Numel(ns[y].shape)
    requires CleanSlice(ns, pt, Direction(y, v), slice) && loss in slice && SeedSource(first) <= slice
    ensures |Values(most, pt)[last]| == |v|
    ensures Slope(SeededLoss(more, pt, id, y, second, v), Dot(Values(most, pt)[last], v))
    ensures y == x || BackwardInputs(ns[y].op) == [] ==>
              forall e: real ::
                AdjointAt(ns, more, Derivative.Displaced(more, pt, Direction(y, v), e), loss, x, first, id)
  {
    hide Values, WellFormed, Tangents, Slope, Dot, CleanSlice, Derivative.SmoothSlice, AdjointAt, SeededLoss, Admits,
         Follows, Derivative.Displaced;
    assert more[y] == ns[y];
    var grown := slice + Between(|ns|, |more|);
    CleanIsSmooth(more, pt, Direction(y, v), grown);
    GradientIsDerivative(more, most, id, y, second, last, pt, v, grown);
    if y == x || BackwardInputs(ns[y].op) == [] {
      forall e: real
        ensures AdjointAt(ns, more, Derivative.Displaced(more, pt, Direction(y, v), e), loss, x, first, id)
      {
        DisplacedAdmits(ns, more, x, y, pt, v, e);
      }
    }
  }

  // What a request's gradient is, without naming its seed

  /** The loss itself, as a function of the displacement of the target along `v`. */
  ghost function LossAlong(ns: Arena, pt: Point, loss: nat, target: nat, v: Vec): real -> real
    requires WellFormed(ns) && loss < |ns| && ns[loss].shape == [] && Aims(ns, Direction(target, v))
  {
    (e: real) => Values(ns, Derivative.Displaced(ns, pt, Direction(target, v), e))[loss][0]
  }

  /** The gradient of a scalar loss, paired with any direction, is the derivative of the loss itself. */
  lemma ScalarGradient(ns: Arena, more: Arena, loss: nat, target: nat, id: nat, pt: Point, v: Vec, slice: set<nat>)
    requires IsGradient(ns, more, loss, target, None, id) && Admits(ns, pt, target) && ns[loss].shape == []
    requires |v| == Numel(ns[target].shape)
    requires Derivative.SmoothSlice(ns, pt, Direction(target, v), slice) && loss in slice
    ensures |Values(more, pt)[id]| == |v|
    ensures Slope(LossAlong(ns, pt, loss, target, v), Dot(Values(more, pt)[id], v))
  {
    hide Values, WellFormed, Tangents, Slope, Admits, AdjointAt, Derivative.SmoothSlice, Weighed, SeedVec;
    GradientIsDerivative(ns, more, loss, target, None, id, pt, v, slice);
    var f, h := SeededLoss(ns, pt, loss, target, None, v), LossAlong(ns, pt, loss, target, v);
    forall e
      ensures h(e) == f(e)
    {
      ScalarSeed(ns, pt, loss, target, v, e);
    }
    SlopeLocal(f, h, Dot(Values(more, pt)[id], v), 1.0);
  }

  lemma ScalarSeed(ns: Arena, pt: Point, loss: nat, target: nat, v: Vec, e: real)
    requires WellFormed(ns) && loss < |ns| && ns[loss].shape == [] && Aims(ns, Direction(target, v))
    ensures SeededLoss(ns, pt, loss, target, None, v)(e) == LossAlong(ns, pt, loss, target, v)(e)
  {
    hide Values, WellFormed;
    var y := Values(ns, Derivative.Displaced(ns, pt, Direction(target, v), e))[loss];
    var w := Fill(1, 1.0);
    assert Numel(ns[loss].shape) == 1 && |y| == 1;
    assert w[..1] == w && y[..1] == y && w[..0] == [] && y[..0] == [];
    assert Dot(w, y) == Dot(w[..0], y[..0]) + Times(w[0], y[0]);
  }

  /** With no seed a gradient pairs with a direction as the sum of the loss's tangent. */
  lemma UnseededPairs(ns: Arena, more: Arena, loss: nat, target: nat, id: nat, pt: Point, v: Vec)
    requires IsGradient(ns, more, loss, target, None, id) && Admits(ns, pt, target)
    requires |v| == Numel(ns[target].shape)
    ensures |Values(more, pt)[id]| == |v|
    ensures Dot(Values(more, pt)[id], v) ==
            Dot(Fill(Numel(ns[loss].shape), 1.0), Tangents(ns, pt, Direction(target, v))[loss])
  {
    hide Values, WellFormed, Tangents, Dot, Admits, IsGradient;
    AdjointOf(ns, more, loss, target, None, id, pt, v);
  }

  /** With a seed of as many elements as the loss it pairs as the seed's own value does, whatever the seed's shape. */
  lemma ReshapedSeedPairs(ns: Arena, more: Arena, loss: nat, target: nat, g: nat, id: nat, pt: Point, v: Vec)
    requires IsGradient(ns, more, loss, target, Some(g), id) && Admits(ns, pt, target)
    requires |v| == Numel(ns[target].shape) && g < |ns| && Numel(ns[g].shape) == Numel(ns[loss].shape)
    ensures |Values(more, pt)[id]| == |v|
    ensures Dot(Values(more, pt)[id], v) == Dot(Values(ns, pt)[g], Tangents(ns, pt, Direction(target, v))[loss])
  {
    hide Values, WellFormed, Tangents, Dot, Admits, IsGradient;
    AdjointOf(ns, more, loss, target, Some(g), id, pt, v);
  }

  /** With a smaller seed it pairs as the seed broadcast to the loss does. */
  lemma BroadcastSeedPairs(ns: Arena, more: Arena, loss: nat, target: nat, g: nat, id: nat, pt: Point, v: Vec)
    requires IsGradient(ns, more, loss, target, Some(g), id) && Admits(ns, pt, target)
    requires |v| == Numel(ns[target].shape) && g < |ns| && Fits(ns[g].shape, ns[loss].shape)
    ensures |Values(more, pt)[id]| == |v|
    ensures Numel(ns[g].shape) != Numel(ns[loss].shape) ==>
              Dot(Values(more, pt)[id], v) ==
              Dot(Gather(OperandMap(ns[g].shape, ns[loss].shape), Values(ns, pt)[g]),
                  Tangents(ns, pt, Direction(target, v))[loss])
  {
    hide Values, WellFormed, Tangents, Dot, Admits, IsGradient, OperandMap, Fits;
    AdjointOf(ns, more, loss, target, Some(g), id, pt, v);
  }
}
