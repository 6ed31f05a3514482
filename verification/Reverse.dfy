/** Reverse-mode differentiation as an arena transformation, and its adjoint theorem. */
module Reverse {
  import opened Wrappers
  import opened Shapes
  import opened Axes
  import opened Vectors
  import opened Graph
  import opened Builders
  import opened Rules

  // The traversal frontier

  /** The operands a local reverse rule sends gradient to. */
  function BackwardInputs(op: Op): seq<nat> {
    match op
    case Input(_) => []
    case Constant(_) => []
    case Detach(_) => []
    case Compare(_, _, _) => []
    case Binary(_, l, r) => [l, r]
    case Select(_, t, f) => [t, f]
    case _ => [op.input]
  }

  /** A chain of backward edges leads from `a` to `b`. */
  ghost predicate Reaches(ns: Arena, a: nat, b: nat)
    decreases a
  {
    a == b || (a < |ns| && exists j :: j in BackwardInputs(ns[a].op) && j < a && Reaches(ns, j, b))
  }

  /**
   * The edge lists a sweep may use to differentiate `root` towards `at`: only real backward edges,
   * and every edge that lies on a chain from `root` to `at`.
   */
  ghost predicate Serves(ns: Arena, root: nat, active: seq<seq<nat>>, at: nat) {
    |active| == |ns| &&
    (forall i, j :: 0 <= i < |ns| && j in active[i] ==> j in BackwardInputs(ns[i].op)) &&
    (forall i: nat, j: nat :: i < |ns| && j in BackwardInputs(ns[i].op) && j !in active[i] && Reaches(ns, root, i) ==>
        !Reaches(ns, j, at))
  }

  // The sweep

  /** The growing arena and the gradient node of each original node, if one exists yet. */
  datatype Sweep = Sweep(ns: Arena, grads: seq<Option<nat>>)

  /** Adds gradient node `b.id` to whatever node `j` has accumulated. */
  function Credit(grads: seq<Option<nat>>, j: nat, b: Built): Sweep {
    if j >= |grads| then Sweep(b.ns, grads)
    else
      match grads[j]
      case None => Sweep(b.ns, grads[j := Some(b.id)])
      case Some(previous) =>
        var sum := PushBinary(b.ns, Add, previous, b.id);
        Sweep(sum.ns, grads[j := Some(sum.id)])
  }

  function RouteBinary(s: Sweep, op: BinaryOp, up: nat, l: nat, r: nat, active: seq<nat>): Sweep {
    var a := if l in active then LeftRule(s.ns, op, up, l, r) else Built(s.ns, up);
    var b := if r in active then RightRule(a.ns, op, up, l, r) else Built(a.ns, up);
    var s1 := if l in active then Credit(s.grads, l, PushUnbroadcast(b.ns, a.id, ShapeOf(b.ns, l)))
      else Sweep(b.ns, s.grads);
    if r in active then Credit(s1.grads, r, PushUnbroadcast(s1.ns, b.id, ShapeOf(s1.ns, r))) else s1
  }

  function RouteSelect(s: Sweep, up: nat, c: nat, t: nat, f: nat, active: seq<nat>): Sweep {
    var zeros := PushConstant(s.ns, ShapeOf(s.ns, up), 0.0);
    var s1 :=
      if t in active then
        var g := PushSelect(zeros.ns, c, up, zeros.id);
        Credit(s.grads, t, PushUnbroadcast(g.ns, g.id, ShapeOf(g.ns, t)))
      else Sweep(zeros.ns, s.grads);
    if f in active then
      var g := PushSelect(s1.ns, c, zeros.id, up);
      Credit(s1.grads, f, PushUnbroadcast(g.ns, g.id, ShapeOf(g.ns, f)))
    else s1
  }

  /** One node's reverse rule: every wanted operand is credited with its share of gradient `up`. */
  function Route(s: Sweep, op: Op, node: nat, up: nat, active: seq<nat>): Sweep {
    match op
    case Input(_) => s
    case Constant(_) => s
    case Detach(_) => s
    case Compare(_, _, _) => s
    case Unary(uop, a) => Credit(s.grads, a, UnaryRule(s.ns, uop, up, node, a))
    case Binary(bop, l, r) => RouteBinary(s, bop, up, l, r, active)
    case Select(c, t, f) => RouteSelect(s, up, c, t, f, active)
    case _ => Credit(s.grads, op.input, LinearRule(s.ns, op, up))
  }

  /** Nodes without active edges or without a gradient are passed over. */
  function Visit(s: Sweep, i: nat, active: seq<seq<nat>>): Sweep {
    if i >= |active| || i >= |s.grads| || i >= |s.ns| || |active[i]| == 0 || s.grads[i].None? then s
    else Route(s, s.ns[i].op, i, s.grads[i].value, active[i])
  }

  /** Visits nodes `k - 1` down to 0. */
  function SweepDown(s: Sweep, k: nat, active: seq<seq<nat>>): Sweep
    decreases k
  {
    if k == 0 then s else SweepDown(Visit(s, k - 1, active), k - 1, active)
  }

  // The balance kept by the sweep

  /** Node `i`'s share of the balance: nodes from `k` on have been passed over, except the target. */
  ghost function Term(vs: seq<Vec>, grads: seq<Option<nat>>, ts: seq<Vec>, at: nat, k: nat, i: nat): real
    requires i < |grads| && Paired(vs, grads, ts)
  {
    if (i < k || i == at) && grads[i].Some? then Dot(vs[grads[i].value], ts[i]) else 0.0
  }

  ghost predicate Paired(vs: seq<Vec>, grads: seq<Option<nat>>, ts: seq<Vec>) {
    |grads| == |ts| &&
    forall i :: 0 <= i < |grads| && grads[i].Some? ==> grads[i].value < |vs| && |vs[grads[i].value]| == |ts[i]|
  }

  /** The inner products of the live gradients with the tangents of their nodes, summed. */
  ghost function Pairing(vs: seq<Vec>, grads: seq<Option<nat>>, ts: seq<Vec>, at: nat, k: nat, n: nat): real
    requires n <= |grads| && Paired(vs, grads, ts)
  {
    if n == 0 then 0.0
    else Pairing(vs, grads, ts, at, k, n - 1) + Term(vs, grads, ts, at, k, n - 1)
  }

  /** Two balances that differ at most at node `j` differ by that node's term. */
  lemma {:induction false} PairingDiffers(vs: seq<Vec>, gs: seq<Option<nat>>, ws: seq<Vec>, hs: seq<Option<nat>>,
                                          ts: seq<Vec>, at: nat, k: nat, l: nat, n: nat, j: nat)
    requires Paired(vs, gs, ts) && Paired(ws, hs, ts) && j < |ts| && n <= |ts|
    requires forall i :: 0 <= i < |ts| && i != j ==> Term(ws, hs, ts, at, l, i) == Term(vs, gs, ts, at, k, i)
    ensures Pairing(ws, hs, ts, at, l, n) ==
            Pairing(vs, gs, ts, at, k, n) +
            if j < n then Term(ws, hs, ts, at, l, j) - Term(vs, gs, ts, at, k, j) else 0.0
  {
    hide Term;
    if n > 0 {
      PairingDiffers(vs, gs, ws, hs, ts, at, k, l, n - 1, j);
    }
  }

  /** What holds of every intermediate sweep over arena `ns`. */
  ghost predicate Sound(ns: Arena, s: Sweep, pt: Point) {
    WellFormed(ns) && Below(pt, |ns|) && ns <= s.ns && WellFormed(s.ns) && |s.grads| == |ns| &&
    Values(ns, pt) <= Values(s.ns, pt) &&
    forall i :: 0 <= i < |ns| && s.grads[i].Some? ==>
                  s.grads[i].value < |s.ns| && s.ns[s.grads[i].value].shape == ns[i].shape
  }

  /** The balance of a sweep with nodes from `k` on already passed over. */
  ghost function Balance(ns: Arena, s: Sweep, pt: Point, d: Direction, k: nat): real
    requires Sound(ns, s, pt) && Aims(ns, d)
  {
    Pairing(Values(s.ns, pt), s.grads, Tangents(ns, pt, d), d.at, k, |ns|)
  }

  lemma CreditValue(ns: Arena, s: Sweep, b: Built, j: nat, pt: Point, y: Vec)
    requires Sound(ns, s, pt) && j < |ns|
    requires Grown(s.ns, b, ns[j].shape, pt, y)
    ensures var r := Credit(s.grads, j, b);
            Sound(ns, r, pt) && Values(b.ns, pt) <= Values(r.ns, pt) && b.ns <= r.ns &&
            (forall i :: 0 <= i < |ns| && i != j ==> r.grads[i] == s.grads[i]) &&
            r.grads[j].Some? && |y| == Numel(ns[j].shape) &&
            Values(r.ns, pt)[r.grads[j].value] ==
              if s.grads[j].Some? then BinaryVec(Add, Values(s.ns, pt)[s.grads[j].value], y) else y
  {
    hide Values, WellFormed, Evaluate;
    match s.grads[j]
    case None =>
    case Some(previous) =>
      OperandMapSelf(ns[j].shape);
      BinaryGrownLeft(b.ns, Add, previous, b.id, pt);
      OperandSelf(b.ns, Values(b.ns, pt), b.id);
  }

  lemma DotAdd(x: Vec, y: Vec, t: Vec)
    requires |x| == |y| == |t|
    ensures Dot(BinaryVec(Add, x, y), t) == Dot(x, t) + Dot(y, t)
  {
    hide Dot, Times;
    var z := BinaryVec(Add, x, y);
    forall k | 0 <= k < |z|
      ensures Times(z[k], t[k]) == Times(x[k], t[k]) + Times(y[k], t[k])
    {
      TimesSum(x[k], y[k], t[k]);
    }
    DotSplit(z, t, x, t, y, t);
  }

  /** Crediting a live node moves the balance by the credited inner product. */
  lemma CreditBalance(ns: Arena, s: Sweep, b: Built, j: nat, pt: Point, y: Vec, d: Direction, k: nat)
    requires Sound(ns, s, pt) && Aims(ns, d) && j < |ns| && j < k
    requires Grown(s.ns, b, ns[j].shape, pt, y)
    ensures |y| == |Tangents(ns, pt, d)[j]|
    ensures var r := Credit(s.grads, j, b);
            Sound(ns, r, pt) && Values(b.ns, pt) <= Values(r.ns, pt) && b.ns <= r.ns &&
            (forall i :: 0 <= i < |ns| && i != j ==> r.grads[i] == s.grads[i]) &&
            Balance(ns, r, pt, d, k) == Balance(ns, s, pt, d, k) + Dot(y, Tangents(ns, pt, d)[j])
  {
    hide Values, WellFormed, Evaluate, Tangents, Credit;
    CreditValue(ns, s, b, j, pt, y);
    var r, ts := Credit(s.grads, j, b), Tangents(ns, pt, d);
    var vs, ws := Values(s.ns, pt), Values(r.ns, pt);
    if s.grads[j].Some? {
      DotAdd(vs[s.grads[j].value], y, ts[j]);
    }
    PairingDiffers(vs, s.grads, ws, r.grads, ts, d.at, k, k, |ns|, j);
  }

  /** Appending nodes leaves the balance alone. */
  lemma GrowBalance(ns: Arena, s: Sweep, b: Built, t: Shape, pt: Point, d: Direction, k: nat)
    requires Sound(ns, s, pt) && Aims(ns, d) && Extended(s.ns, b, t, pt)
    ensures var r := Sweep(b.ns, s.grads);
            Sound(ns, r, pt) && Balance(ns, r, pt, d, k) == Balance(ns, s, pt, d, k)
  {
    hide Values, WellFormed, Evaluate, Tangents;
    if |ns| > 0 {
      var ts := Tangents(ns, pt, d);
      PairingDiffers(Values(s.ns, pt), s.grads, Values(b.ns, pt), s.grads, ts, d.at, k, k, |ns|, 0);
    }
  }

  /** Un-broadcasting a local gradient and crediting an operand with it. */
  lemma SideBalance(ns: Arena, s: Sweep, local: nat, j: nat, pt: Point, y: Vec, d: Direction, k: nat)
    requires Sound(ns, s, pt) && Aims(ns, d) && j < |ns| && j < k && local < |s.ns|
    requires Fits(ns[j].shape, s.ns[local].shape) && y == Values(s.ns, pt)[local]
    ensures var r, t := Credit(s.grads, j, PushUnbroadcast(s.ns, local, ns[j].shape)), Tangents(ns, pt, d)[j];
            Sound(ns, r, pt) && Values(s.ns, pt) <= Values(r.ns, pt) && s.ns <= r.ns &&
            (forall i :: 0 <= i < |ns| && i != j ==> r.grads[i] == s.grads[i]) &&
            Balance(ns, r, pt, d, k) ==
              Balance(ns, s, pt, d, k) + Dot(SumDown(ns[j].shape, s.ns[local].shape, y), t)
  {
    hide Values, WellFormed, Evaluate, Tangents, Credit, PushUnbroadcast, Balance, SumDown;
    UnbroadcastGrown(s.ns, local, ns[j].shape, pt);
    CreditBalance(ns, s, PushUnbroadcast(s.ns, local, ns[j].shape), j, pt,
                  SumDown(ns[j].shape, s.ns[local].shape, y), d, k);
  }

  /** What crediting operand `j` adds to the balance when the edge is active. */
  ghost function Gain(active: seq<nat>, j: nat, y: Vec, t: Vec): real
    requires |y| == |t|
  {
    if j in active then Dot(y, t) else 0.0
  }

  /** Both local gradients of a binary node, each present when its edge is active. */
  ghost predicate RulesGrown(ns: Arena, op: BinaryOp, up: nat, l: nat, r: nat, active: seq<nat>, a: Built, b: Built,
                             pt: Point)
    requires WellFormed(ns) && up < |ns| && l < |ns| && r < |ns|
    requires Fits(ns[l].shape, ns[up].shape) && Fits(ns[r].shape, ns[up].shape)
  {
    var vs, s := Values(ns, pt), ns[up].shape;
    var x, y := Operand(ns, vs, l, s), Operand(ns, vs, r, s);
    Extended(ns, b, s, pt) && a.id < |b.ns| && b.ns[a.id].shape == s &&
    (l in active ==> Values(b.ns, pt)[a.id] == LeftShare(op, vs[up], x, y)) &&
    (r in active ==> Values(b.ns, pt)[b.id] == RightShare(op, vs[up], x, y))
  }

  lemma BinaryRulesGrown(ns: Arena, op: BinaryOp, up: nat, l: nat, r: nat, active: seq<nat>, a: Built, b: Built,
                         pt: Point)
    requires WellFormed(ns) && Below(pt, |ns|) && up < |ns| && l < |ns| && r < |ns|
    requires Fits(ns[l].shape, ns[up].shape) && Fits(ns[r].shape, ns[up].shape)
    requires a == if l in active then LeftRule(ns, op, up, l, r) else Built(ns, up)
    requires b == if r in active then RightRule(a.ns, op, up, l, r) else Built(a.ns, up)
    ensures RulesGrown(ns, op, up, l, r, active, a, b, pt)
  {
    hide Values, WellFormed, Evaluate, LeftRule, RightRule, LeftShare, RightShare;
    LeftRuleGrown(ns, op, up, l, r, pt);
    RightRuleGrown(a.ns, op, up, l, r, pt);
  }

  lemma RouteBinaryBalance(ns: Arena, s: Sweep, op: BinaryOp, up: nat, l: nat, r: nat, active: seq<nat>,
                           pt: Point, d: Direction, k: nat)
    requires Sound(ns, s, pt) && Aims(ns, d) && l < |ns| && r < |ns| && l < k && r < k && up < |s.ns|
    requires Fits(ns[l].shape, s.ns[up].shape) && Fits(ns[r].shape, s.ns[up].shape)
    ensures var vs, ts, sh, out := Values(s.ns, pt), Tangents(ns, pt, d), s.ns[up].shape,
              RouteBinary(s, op, up, l, r, active);
            var a, b := Operand(s.ns, vs, l, sh), Operand(s.ns, vs, r, sh);
            Sound(ns, out, pt) &&
            (forall i :: 0 <= i < |ns| && i != l && i != r ==> out.grads[i] == s.grads[i]) &&
            Balance(ns, out, pt, d, k) == Balance(ns, s, pt, d, k)
              + Gain(active, l, SumDown(ns[l].shape, sh, LeftShare(op, vs[up], a, b)), ts[l])
              + Gain(active, r, SumDown(ns[r].shape, sh, RightShare(op, vs[up], a, b)), ts[r])
  {
    hide Values, WellFormed, Evaluate, Tangents, LeftRule, RightRule, LeftShare, RightShare, Credit, PushUnbroadcast,
         Balance, SumDown, Operand;
    var vs, sh := Values(s.ns, pt), s.ns[up].shape;
    var a := if l in active then LeftRule(s.ns, op, up, l, r) else Built(s.ns, up);
    var b := if r in active then RightRule(a.ns, op, up, l, r) else Built(a.ns, up);
    BinaryRulesGrown(s.ns, op, up, l, r, active, a, b, pt);
    GrowBalance(ns, s, b, sh, pt, d, k);
    var s0 := Sweep(b.ns, s.grads);
    var s1 := s0;
    if l in active {
      SideBalance(ns, s0, a.id, l, pt, Values(b.ns, pt)[a.id], d, k);
      s1 := Credit(s.grads, l, PushUnbroadcast(b.ns, a.id, ShapeOf(b.ns, l)));
    }
    if r in active {
      SideBalance(ns, s1, b.id, r, pt, Values(s1.ns, pt)[b.id], d, k);
    }
  }

  lemma RouteSelectBalance(ns: Arena, s: Sweep, up: nat, c: nat, t: nat, f: nat, active: seq<nat>,
                           pt: Point, d: Direction, k: nat)
    requires Sound(ns, s, pt) && Aims(ns, d) && c < |ns| && t < |ns| && f < |ns| && t < k && f < k && up < |s.ns|
    requires Fits(ns[c].shape, s.ns[up].shape) && Fits(ns[t].shape, s.ns[up].shape) && Fits(ns[f].shape, s.ns[up].shape)
    ensures var vs, ts, sh, out := Values(s.ns, pt), Tangents(ns, pt, d), s.ns[up].shape,
              RouteSelect(s, up, c, t, f, active);
            var mask, zeros := Operand(s.ns, vs, c, sh), Fill(Numel(sh), 0.0);
            Sound(ns, out, pt) &&
            (forall i :: 0 <= i < |ns| && i != t && i != f ==> out.grads[i] == s.grads[i]) &&
            Balance(ns, out, pt, d, k) == Balance(ns, s, pt, d, k)
              + Gain(active, t, SumDown(ns[t].shape, sh, SelectVec(mask, vs[up], zeros)), ts[t])
              + Gain(active, f, SumDown(ns[f].shape, sh, SelectVec(mask, zeros, vs[up])), ts[f])
  {
    hide Values, WellFormed, Evaluate, Tangents, SelectVec, Credit, PushUnbroadcast, PushSelect, Balance, SumDown,
         Operand, Numel, Fill;
    var vs, sh := Values(s.ns, pt), s.ns[up].shape;
    ConstantGrown(s.ns, sh, 0.0, pt);
    var zeros := PushConstant(s.ns, sh, 0.0);
    GrowBalance(ns, s, zeros, sh, pt, d, k);
    var s1 := Sweep(zeros.ns, s.grads);
    OperandExtend(s.ns, s1.ns, vs, Values(s1.ns, pt), c, sh);
    if t in active {
      SelectGrown(s1.ns, c, up, zeros.id, pt);
      var g := PushSelect(s1.ns, c, up, zeros.id);
      GrowBalance(ns, s1, g, sh, pt, d, k);
      var s2 := Sweep(g.ns, s.grads);
      SideBalance(ns, s2, g.id, t, pt, Values(g.ns, pt)[g.id], d, k);
      s1 := Credit(s.grads, t, PushUnbroadcast(g.ns, g.id, ns[t].shape));
    }
    if f in active {
      OperandExtend(s.ns, s1.ns, vs, Values(s1.ns, pt), c, sh);
      SelectGrown(s1.ns, c, zeros.id, up, pt);
      var g := PushSelect(s1.ns, c, zeros.id, up);
      GrowBalance(ns, s1, g, sh, pt, d, k);
      var s2 := Sweep(g.ns, s1.grads);
      SideBalance(ns, s2, g.id, f, pt, Values(g.ns, pt)[g.id], d, k);
    }
  }

  // Nodes off every chain to the target carry no tangent

  lemma {:induction false} ReachesDown(ns: Arena, a: nat, b: nat)
    requires Reaches(ns, a, b)
    ensures b <= a
    decreases a
  {
    if a != b {
      var j :| j in BackwardInputs(ns[a].op) && j < a && Reaches(ns, j, b);
      ReachesDown(ns, j, b);
    }
  }

  lemma LinearZero(s: Shape, n: Node, x: Vec)
    requires LinearOk(s, n) && |x| == Numel(s) && AllZero(x)
    ensures AllZero(Linear(s, n, x))
  {
    match n.op
    case Sum(_, axes, keepdim) =>
      KeptFits(s, axes);
      ScatterZero(OperandMap(Kept(s, axes), s), x, Numel(Kept(s, axes)));
    case SumTo(_) => ScatterZero(OperandMap(n.shape, s), x, Numel(n.shape));
    case _ =>
  }

  lemma DifferentiateZero(ns: Arena, n: Node, vs: seq<Vec>, ts: seq<Vec>)
    requires NodeOk(ns, n) && Sized(ns, vs) && Sized(ns, ts)
    requires forall j :: j in BackwardInputs(n.op) && j < |ns| ==> AllZero(ts[j])
    ensures AllZero(Differentiate(ns, n, vs, ts))
  {
    var op := n.op;
    if op.Binary? {
      assert op.lhs in BackwardInputs(op) && op.rhs in BackwardInputs(op);
    } else if op.Select? {
      assert op.onTrue in BackwardInputs(op) && op.onFalse in BackwardInputs(op);
    } else if BackwardInputs(op) != [] {
      assert op.input in BackwardInputs(op);
      if !op.Unary? {
        LinearZero(ns[op.input].shape, n, ts[op.input]);
      }
    }
  }

  lemma {:induction false} UnreachedTangent(ns: Arena, pt: Point, d: Direction, i: nat)
    requires WellFormed(ns) && Aims(ns, d) && i < |ns| && !Reaches(ns, i, d.at)
    ensures AllZero(Tangents(ns, pt, d)[i])
    decreases i
  {
    TangentAt(ns, pt, d, i);
    if !Pinned(pt, i, ns[i]) {
      forall j | j in BackwardInputs(ns[i].op) && j < i
        ensures AllZero(Tangents(ns, pt, d)[j])
      {
        UnreachedTangent(ns, pt, d, j);
      }
      DifferentiateZero(ns[..i], ns[i], Values(ns, pt)[..i], Tangents(ns, pt, d)[..i]);
    }
  }

  // One node's step keeps the balance

  /** Only the independent variable and nodes without backward edges have their value replaced. */
  ghost predicate Free(ns: Arena, pt: Point, d: Direction) {
    forall p :: p in pt.pinned && p != d.at && p < |ns| ==> BackwardInputs(ns[p].op) == []
  }

  /** What the gradient of node `i` must hand on: nothing once `i` is the independent variable itself. */
  ghost function Owed(ns: Arena, pt: Point, d: Direction, i: nat, g: Vec): real
    requires WellFormed(ns) && Aims(ns, d) && i < |ns| && |g| == Numel(ns[i].shape)
  {
    if i == d.at then 0.0 else Dot(g, Tangents(ns, pt, d)[i])
  }

  /** Operand `j` of node `i` either has an active edge or carries no tangent. */
  ghost predicate EdgeReady(ns: Arena, pt: Point, d: Direction, i: nat, j: nat, active: seq<nat>)
    requires WellFormed(ns) && Aims(ns, d) && i < |ns|
  {
    j < i && (j in active || AllZero(Tangents(ns, pt, d)[j])) && (i == d.at ==> AllZero(Tangents(ns, pt, d)[j]))
  }

  lemma EdgeGain(active: seq<nat>, j: nat, inner: Shape, outer: Shape, y: Vec, t: Vec)
    requires Fits(inner, outer) && |y| == Numel(outer) && |t| == Numel(inner)
    requires j in active || AllZero(t)
    ensures Gain(active, j, SumDown(inner, outer, y), t) == Dot(y, Gather(OperandMap(inner, outer), t))
    ensures AllZero(t) ==> Gain(active, j, SumDown(inner, outer, y), t) == 0.0
  {
    hide Dot, SumDown;
    DownAdjoint(inner, outer, y, t);
    if AllZero(t) {
      DotZero(SumDown(inner, outer, y), t);
    }
  }

  lemma BinaryStep(ns: Arena, s: Sweep, i: nat, up: nat, active: seq<nat>, pt: Point, d: Direction)
    requires Sound(ns, s, pt) && Aims(ns, d) && i < |ns| && up < |s.ns| && s.ns[up].shape == ns[i].shape
    requires Free(ns, pt, d)
    requires var op := ns[i].op;
             op.Binary? && EdgeReady(ns, pt, d, i, op.lhs, active) && EdgeReady(ns, pt, d, i, op.rhs, active)
    ensures var out := Route(s, ns[i].op, i, up, active);
            Sound(ns, out, pt) &&
            Balance(ns, out, pt, d, i) == Balance(ns, s, pt, d, i) + Owed(ns, pt, d, i, Values(s.ns, pt)[up])
  {
    hide Values, WellFormed, Evaluate, Tangents, LeftShare, RightShare, BinaryTangent, RouteBinary, Balance, SumDown,
         Dot, Numel, OperandMap;
    var op, sh := ns[i].op, ns[i].shape;
    var l, r := op.lhs, op.rhs;
    var ws, vs, ts := Values(ns, pt), Values(s.ns, pt), Tangents(ns, pt, d);
    TangentAt(ns, pt, d, i);
    RouteBinaryBalance(ns, s, op.bop, up, l, r, active, pt, d, i);
    OperandExtend(ns[..i], s.ns, ws[..i], vs, l, sh);
    OperandExtend(ns[..i], s.ns, ws[..i], vs, r, sh);
    var g, a, b := vs[up], Operand(s.ns, vs, l, sh), Operand(s.ns, vs, r, sh);
    EdgeGain(active, l, ns[l].shape, sh, LeftShare(op.bop, g, a, b), ts[l]);
    EdgeGain(active, r, ns[r].shape, sh, RightShare(op.bop, g, a, b), ts[r]);
    BinaryAdjoint(op.bop, g, a, b, Operand(ns[..i], ts[..i], l, sh), Operand(ns[..i], ts[..i], r, sh));
  }

  lemma SelectStep(ns: Arena, s: Sweep, i: nat, up: nat, active: seq<nat>, pt: Point, d: Direction)
    requires Sound(ns, s, pt) && Aims(ns, d) && i < |ns| && up < |s.ns| && s.ns[up].shape == ns[i].shape
    requires Free(ns, pt, d)
    requires var op := ns[i].op;
             op.Select? && EdgeReady(ns, pt, d, i, op.onTrue, active) && EdgeReady(ns, pt, d, i, op.onFalse, active)
    ensures var out := Route(s, ns[i].op, i, up, active);
            Sound(ns, out, pt) &&
            Balance(ns, out, pt, d, i) == Balance(ns, s, pt, d, i) + Owed(ns, pt, d, i, Values(s.ns, pt)[up])
  {
    hide Values, WellFormed, Evaluate, Tangents, SelectVec, RouteSelect, Balance, SumDown, Dot, Numel, OperandMap, Fill;
    var op, sh := ns[i].op, ns[i].shape;
    var c, t, f := op.condition, op.onTrue, op.onFalse;
    var ws, vs, ts := Values(ns, pt), Values(s.ns, pt), Tangents(ns, pt, d);
    TangentAt(ns, pt, d, i);
    RouteSelectBalance(ns, s, up, c, t, f, active, pt, d, i);
    OperandExtend(ns[..i], s.ns, ws[..i], vs, c, sh);
    var g, mask, zeros := vs[up], Operand(s.ns, vs, c, sh), Fill(Numel(sh), 0.0);
    EdgeGain(active, t, ns[t].shape, sh, SelectVec(mask, g, zeros), ts[t]);
    EdgeGain(active, f, ns[f].shape, sh, SelectVec(mask, zeros, g), ts[f]);
    SelectAdjoint(mask, g, Operand(ns[..i], ts[..i], t, sh), Operand(ns[..i], ts[..i], f, sh));
  }

  lemma UnaryStep(ns: Arena, s: Sweep, i: nat, up: nat, active: seq<nat>, pt: Point, d: Direction)
    requires Sound(ns, s, pt) && Aims(ns, d) && i < |ns| && up < |s.ns| && s.ns[up].shape == ns[i].shape
    requires Free(ns, pt, d)
    requires ns[i].op.Unary? && EdgeReady(ns, pt, d, i, ns[i].op.input, active)
    ensures var out := Route(s, ns[i].op, i, up, active);
            Sound(ns, out, pt) &&
            Balance(ns, out, pt, d, i) == Balance(ns, s, pt, d, i) + Owed(ns, pt, d, i, Values(s.ns, pt)[up])
  {
    hide Values, WellFormed, Evaluate, Tangents, UnaryShare, UnaryTangent, UnaryRule, Balance, Dot, Numel, Credit;
    var op, a := ns[i].op.uop, ns[i].op.input;
    var vs, ts := Values(s.ns, pt), Tangents(ns, pt, d);
    TangentAt(ns, pt, d, i);
    UnaryRuleGrown(s.ns, op, up, i, a, pt);
    var b := UnaryRule(s.ns, op, up, i, a);
    var y := Values(b.ns, pt)[b.id];
    CreditBalance(ns, s, b, a, pt, y, d, i);
    if i == d.at {
      DotZero(y, ts[a]);
    } else {
      UnaryNodeValue(ns, pt, i);
      UnaryAdjoint(op, vs[up], vs[a], ts[a]);
    }
  }

  lemma UnaryNodeValue(ns: Arena, pt: Point, i: nat)
    requires WellFormed(ns) && i < |ns| && ns[i].op.Unary? && i !in pt.pinned
    ensures ns[i].op.input < i
    ensures Values(ns, pt)[i] == UnaryVec(ns[i].op.uop, Values(ns, pt)[ns[i].op.input])
  {
    hide Values, WellFormed;
    ValueAt(ns, pt, i);
  }

  lemma LinearStep(ns: Arena, s: Sweep, i: nat, up: nat, active: seq<nat>, pt: Point, d: Direction)
    requires Sound(ns, s, pt) && Aims(ns, d) && i < |ns| && up < |s.ns| && s.ns[up].shape == ns[i].shape
    requires Free(ns, pt, d)
    requires var op := ns[i].op;
             (op.Contiguous? || op.Sum? || op.SumTo? || op.Reshape? || op.Permute? || op.Expand?) &&
             EdgeReady(ns, pt, d, i, op.input, active)
    ensures var out := Route(s, ns[i].op, i, up, active);
            Sound(ns, out, pt) &&
            Balance(ns, out, pt, d, i) == Balance(ns, s, pt, d, i) + Owed(ns, pt, d, i, Values(s.ns, pt)[up])
  {
    hide Values, WellFormed, Evaluate, Tangents, LinearShare, Linear, LinearRule, Balance, Dot, Numel, Credit;
    var a, g := ns[i].op.input, Values(s.ns, pt)[up];
    var ts, sh := Tangents(ns, pt, d), ns[a].shape;
    TangentAt(ns, pt, d, i);
    LinearRuleGrown(s.ns, ns[i], up, pt);
    var y := LinearShare(sh, ns[i], g);
    CreditBalance(ns, s, LinearRule(s.ns, ns[i].op, up), a, pt, y, d, i);
    if i == d.at {
      DotZero(y, ts[a]);
    } else {
      LinearAdjoint(sh, ns[i], g, ts[a]);
    }
  }

  // Which gradients a step can create

  lemma CreditLocal(grads: seq<Option<nat>>, j: nat, b: Built)
    ensures var out := Credit(grads, j, b);
            |out.grads| == |grads| && forall i :: 0 <= i < |grads| && i != j ==> out.grads[i] == grads[i]
  {
  }

  lemma RouteLocal(s: Sweep, op: Op, node: nat, up: nat, active: seq<nat>)
    ensures var out := Route(s, op, node, up, active);
            |out.grads| == |s.grads| &&
            forall i :: 0 <= i < |s.grads| && i !in BackwardInputs(op) ==> out.grads[i] == s.grads[i]
  {
    hide Credit, PushUnbroadcast, PushSelect, LeftRule, RightRule, UnaryRule, LinearRule, PushConstant;
    match op
    case Input(_) =>
    case Constant(_) =>
    case Detach(_) =>
    case Compare(_, _, _) =>
    case Unary(uop, a) => CreditLocal(s.grads, a, UnaryRule(s.ns, uop, up, node, a));
    case Binary(bop, l, r) =>
      var a := if l in active then LeftRule(s.ns, bop, up, l, r) else Built(s.ns, up);
      var b := if r in active then RightRule(a.ns, bop, up, l, r) else Built(a.ns, up);
      var u := PushUnbroadcast(b.ns, a.id, ShapeOf(b.ns, l));
      CreditLocal(s.grads, l, u);
      var s1 := if l in active then Credit(s.grads, l, u) else Sweep(b.ns, s.grads);
      CreditLocal(s1.grads, r, PushUnbroadcast(s1.ns, b.id, ShapeOf(s1.ns, r)));
    case Select(c, t, f) =>
      var zeros := PushConstant(s.ns, ShapeOf(s.ns, up), 0.0);
      var g := PushSelect(zeros.ns, c, up, zeros.id);
      var u := PushUnbroadcast(g.ns, g.id, ShapeOf(g.ns, t));
      CreditLocal(s.grads, t, u);
      var s1 := if t in active then Credit(s.grads, t, u) else Sweep(zeros.ns, s.grads);
      var h := PushSelect(s1.ns, c, zeros.id, up);
      CreditLocal(s1.grads, f, PushUnbroadcast(h.ns, h.id, ShapeOf(h.ns, f)));
    case _ => CreditLocal(s.grads, op.input, LinearRule(s.ns, op, up));
  }

  lemma {:induction false} ReachesEdge(ns: Arena, a: nat, b: nat, j: nat)
    requires Reaches(ns, a, b) && b < |ns| && j < b && j in BackwardInputs(ns[b].op)
    ensures Reaches(ns, a, j)
    decreases a
  {
    if a == b {
      assert Reaches(ns, j, j);
    } else {
      var m :| m in BackwardInputs(ns[a].op) && m < a && Reaches(ns, m, b);
      ReachesEdge(ns, m, b, j);
    }
  }

  /** Gradients exist only at nodes the root depends on. */
  ghost predicate Rooted(ns: Arena, root: nat, grads: seq<Option<nat>>) {
    |grads| == |ns| && forall i :: 0 <= i < |ns| && grads[i].Some? ==> Reaches(ns, root, i)
  }

  lemma InputsBelow(ns: Arena, i: nat)
    requires WellFormed(ns) && i < |ns|
    ensures forall j :: j in BackwardInputs(ns[i].op) ==> j < i
  {
    WellFormedPrefix(ns, i);
  }

  lemma EdgesReady(ns: Arena, root: nat, active: seq<seq<nat>>, pt: Point, d: Direction, i: nat)
    requires WellFormed(ns) && Aims(ns, d) && Serves(ns, root, active, d.at) && i < |ns| && Reaches(ns, root, i)
    ensures forall j :: j in BackwardInputs(ns[i].op) ==> EdgeReady(ns, pt, d, i, j, active[i])
  {
    InputsBelow(ns, i);
    forall j | j in BackwardInputs(ns[i].op)
      ensures EdgeReady(ns, pt, d, i, j, active[i])
    {
      if j !in active[i] {
        UnreachedTangent(ns, pt, d, j);
      }
      if i == d.at {
        if Reaches(ns, j, d.at) {
          ReachesDown(ns, j, d.at);
        } else {
          UnreachedTangent(ns, pt, d, j);
        }
      }
    }
  }

  /** Running one node's rule hands its whole debt to its operands. */
  lemma RouteStep(ns: Arena, s: Sweep, i: nat, up: nat, active: seq<nat>, pt: Point, d: Direction)
    requires Sound(ns, s, pt) && Aims(ns, d) && i < |ns| && up < |s.ns| && s.ns[up].shape == ns[i].shape
    requires Free(ns, pt, d)
    requires forall j :: j in BackwardInputs(ns[i].op) ==> EdgeReady(ns, pt, d, i, j, active)
    ensures var out := Route(s, ns[i].op, i, up, active);
            Sound(ns, out, pt) &&
            Balance(ns, out, pt, d, i) == Balance(ns, s, pt, d, i) + Owed(ns, pt, d, i, Values(s.ns, pt)[up])
  {
    hide Values, WellFormed, Tangents, Balance, EdgeReady;
    var op := ns[i].op;
    if op.Binary? {
      assert op.lhs in BackwardInputs(op) && op.rhs in BackwardInputs(op);
      BinaryStep(ns, s, i, up, active, pt, d);
    } else if op.Select? {
      assert op.onTrue in BackwardInputs(op) && op.onFalse in BackwardInputs(op);
      SelectStep(ns, s, i, up, active, pt, d);
    } else if op.Unary? {
      assert op.input in BackwardInputs(op);
      UnaryStep(ns, s, i, up, active, pt, d);
    } else if op.Input? || op.Constant? || op.Detach? || op.Compare? {
      InertTangent(ns, pt, d, i, Values(s.ns, pt)[up]);
    } else {
      assert op.input in BackwardInputs(op);
      LinearStep(ns, s, i, up, active, pt, d);
    }
  }

  lemma InertTangent(ns: Arena, pt: Point, d: Direction, i: nat, g: Vec)
    requires WellFormed(ns) && Aims(ns, d) && i < |ns| && |g| == Numel(ns[i].shape)
    requires BackwardInputs(ns[i].op) == []
    ensures Owed(ns, pt, d, i, g) == 0.0
  {
    hide Dot;
    if i != d.at {
      assert !Reaches(ns, i, d.at);
      UnreachedTangent(ns, pt, d, i);
      DotZero(g, Tangents(ns, pt, d)[i]);
    }
  }

  /** Passing over node `i` takes its term out of the balance. */
  lemma PassOver(ns: Arena, s: Sweep, pt: Point, d: Direction, i: nat)
    requires Sound(ns, s, pt) && Aims(ns, d) && i < |ns|
    ensures Balance(ns, s, pt, d, i + 1) == Balance(ns, s, pt, d, i) +
            if s.grads[i].Some? then Owed(ns, pt, d, i, Values(s.ns, pt)[s.grads[i].value]) else 0.0
  {
    hide Values, WellFormed, Tangents;
    var vs, ts := Values(s.ns, pt), Tangents(ns, pt, d);
    PairingDiffers(vs, s.grads, vs, s.grads, ts, d.at, i, i + 1, |ns|, i);
  }

  lemma VisitStep(ns: Arena, root: nat, s: Sweep, i: nat, active: seq<seq<nat>>, pt: Point, d: Direction)
    requires Sound(ns, s, pt) && Aims(ns, d) && i < |ns| && Rooted(ns, root, s.grads)
    requires Serves(ns, root, active, d.at) && Free(ns, pt, d)
    ensures var out := Visit(s, i, active);
            Sound(ns, out, pt) && Rooted(ns, root, out.grads) &&
            Balance(ns, out, pt, d, i) == Balance(ns, s, pt, d, i + 1)
  {
    hide Values, WellFormed, Tangents, Balance, Route;
    PassOver(ns, s, pt, d, i);
    if s.grads[i].Some? {
      var g := Values(s.ns, pt)[s.grads[i].value];
      EdgesReady(ns, root, active, pt, d, i);
      assert s.ns[i] == ns[i];
      if |active[i]| == 0 {
        SettledTangent(ns, pt, d, i, active[i], g);
      } else {
        RouteStep(ns, s, i, s.grads[i].value, active[i], pt, d);
        RouteLocal(s, ns[i].op, i, s.grads[i].value, active[i]);
        InputsBelow(ns, i);
        forall j | 0 <= j < |ns| && j in BackwardInputs(ns[i].op)
          ensures Reaches(ns, root, j)
        {
          ReachesEdge(ns, root, i, j);
        }
      }
    }
  }

  /** A node without active edges owes nothing. */
  lemma SettledTangent(ns: Arena, pt: Point, d: Direction, i: nat, active: seq<nat>, g: Vec)
    requires WellFormed(ns) && Aims(ns, d) && i < |ns| && |g| == Numel(ns[i].shape) && |active| == 0
    requires Free(ns, pt, d)
    requires forall j :: j in BackwardInputs(ns[i].op) ==> EdgeReady(ns, pt, d, i, j, active)
    ensures Owed(ns, pt, d, i, g) == 0.0
  {
    hide Dot, Values, WellFormed, Tangents;
    if i != d.at {
      TangentAt(ns, pt, d, i);
      DifferentiateZero(ns[..i], ns[i], Values(ns, pt)[..i], Tangents(ns, pt, d)[..i]);
      DotZero(g, Tangents(ns, pt, d)[i]);
    }
  }

  // The adjoint theorem

  function Blank(n: nat): (grads: seq<Option<nat>>)
    ensures |grads| == n && forall i :: 0 <= i < n ==> grads[i] == None
  {
    seq(n, _ => None)
  }

  /** A sweep about to start: the root holds the seed and nothing else has a gradient. */
  function Seeded(start: Arena, n: nat, root: nat, seed: nat): Sweep
    requires root < n
  {
    Sweep(start, Blank(n)[root := Some(seed)])
  }

  /** The gradient a sweep left at node `at`; a node never credited has gradient zero. */
  ghost function GradientAt(ns: Arena, s: Sweep, pt: Point, at: nat): (g: Vec)
    requires Sound(ns, s, pt) && at < |ns|
    ensures |g| == Numel(ns[at].shape)
  {
    if s.grads[at].Some? then Values(s.ns, pt)[s.grads[at].value] else Zeros(Numel(ns[at].shape))
  }

  lemma {:induction false} SweepBalance(ns: Arena, root: nat, s: Sweep, k: nat, active: seq<seq<nat>>, pt: Point,
                                        d: Direction)
    requires Sound(ns, s, pt) && Aims(ns, d) && k <= |ns| && Rooted(ns, root, s.grads)
    requires Serves(ns, root, active, d.at) && Free(ns, pt, d)
    ensures var out := SweepDown(s, k, active);
            Sound(ns, out, pt) && Rooted(ns, root, out.grads) &&
            Balance(ns, out, pt, d, 0) == Balance(ns, s, pt, d, k)
    decreases k
  {
    hide Values, WellFormed, Tangents, Balance, Visit, Sound, Serves, Free, Rooted, Aims;
    if k > 0 {
      VisitStep(ns, root, s, k - 1, active, pt, d);
      SweepBalance(ns, root, Visit(s, k - 1, active), k - 1, active, pt, d);
    }
  }

  lemma {:induction false} PairingBlank(vs: seq<Vec>, ts: seq<Vec>, at: nat, k: nat, n: nat)
    requires n <= |ts|
    ensures Paired(vs, Blank(|ts|), ts) && Pairing(vs, Blank(|ts|), ts, at, k, n) == 0.0
  {
    if n > 0 {
      PairingBlank(vs, ts, at, k, n - 1);
    }
  }

  lemma StartBalance(ns: Arena, start: Arena, root: nat, seed: nat, pt: Point, d: Direction)
    requires WellFormed(ns) && WellFormed(start) && ns <= start && Below(pt, |ns|) && Aims(ns, d)
    requires root < |ns| && seed < |start| && start[seed].shape == ns[root].shape
    ensures var s := Seeded(start, |ns|, root, seed);
            Sound(ns, s, pt) && Rooted(ns, root, s.grads) &&
            Balance(ns, s, pt, d, |ns|) == Dot(Values(start, pt)[seed], Tangents(ns, pt, d)[root])
  {
    hide Values, WellFormed, Tangents;
    ValuesExtend(ns, start, pt);
    var s, ts, vs := Seeded(start, |ns|, root, seed), Tangents(ns, pt, d), Values(start, pt);
    PairingBlank(vs, ts, d.at, |ns|, |ns|);
    PairingDiffers(vs, Blank(|ns|), vs, s.grads, ts, d.at, |ns|, |ns|, |ns|, root);
  }

  lemma EndBalance(ns: Arena, s: Sweep, pt: Point, d: Direction)
    requires Sound(ns, s, pt) && Aims(ns, d) && d.at < |ns|
    ensures Balance(ns, s, pt, d, 0) == Dot(GradientAt(ns, s, pt, d.at), d.v)
  {
    hide Values, WellFormed, Tangents;
    TangentAt(ns, pt, d, d.at);
    var ts, vs := Tangents(ns, pt, d), Values(s.ns, pt);
    PairingBlank(vs, ts, d.at, 0, |ns|);
    PairingDiffers(vs, Blank(|ns|), vs, s.grads, ts, d.at, 0, 0, |ns|, d.at);
    if s.grads[d.at].None? {
      DotZero(GradientAt(ns, s, pt, d.at), d.v);
    }
  }

  /**
   * Reverse mode computes the adjoint of forward mode: whatever direction the target moves in, the
   * swept gradient paired with that direction is the seed paired with the root's tangent.
   */
  lemma SweepIsAdjoint(ns: Arena, start: Arena, root: nat, seed: nat, active: seq<seq<nat>>, pt: Point, d: Direction)
    requires WellFormed(ns) && WellFormed(start) && ns <= start && Below(pt, |ns|) && Aims(ns, d) && Free(ns, pt, d)
    requires root < |ns| && seed < |start| && start[seed].shape == ns[root].shape
    requires d.at < |ns| && Serves(ns, root, active, d.at)
    ensures var out := SweepDown(Seeded(start, |ns|, root, seed), |ns|, active);
            Sound(ns, out, pt) &&
            Dot(GradientAt(ns, out, pt, d.at), d.v) == Dot(Values(start, pt)[seed], Tangents(ns, pt, d)[root])
  {
    hide Values, WellFormed, Tangents, Balance, SweepDown, GradientAt, Dot;
    var s := Seeded(start, |ns|, root, seed);
    StartBalance(ns, start, root, seed, pt, d);
    SweepBalance(ns, root, s, |ns|, active, pt, d);
    EndBalance(ns, SweepDown(s, |ns|, active), pt, d);
  }

  /** Pruning is invisible: any two edge lists that serve a target give it the same gradient. */
  lemma PruningIsExact(ns: Arena, start: Arena, root: nat, seed: nat, pruned: seq<seq<nat>>, full: seq<seq<nat>>,
                       pt: Point, at: nat)
    requires WellFormed(ns) && WellFormed(start) && ns <= start && Below(pt, |ns|)
    requires root < |ns| && seed < |start| && start[seed].shape == ns[root].shape
    requires at < |ns| && Serves(ns, root, pruned, at) && Serves(ns, root, full, at)
    requires forall p :: p in pt.pinned && p != at && p < |ns| ==> BackwardInputs(ns[p].op) == []
    ensures var s := Seeded(start, |ns|, root, seed);
            var a, b := SweepDown(s, |ns|, pruned), SweepDown(s, |ns|, full);
            Sound(ns, a, pt) && Sound(ns, b, pt) && GradientAt(ns, a, pt, at) == GradientAt(ns, b, pt, at)
  {
    hide Values, WellFormed, Tangents, SweepDown, GradientAt, Dot, Serves, Sound;
    var s := Seeded(start, |ns|, root, seed);
    var a, b := SweepDown(s, |ns|, pruned), SweepDown(s, |ns|, full);
    var zero := Direction(at, Zeros(Numel(ns[at].shape)));
    SweepIsAdjoint(ns, start, root, seed, pruned, pt, zero);
    SweepIsAdjoint(ns, start, root, seed, full, pt, zero);
    forall v: Vec | |v| == Numel(ns[at].shape)
      ensures Dot(GradientAt(ns, a, pt, at), v) == Dot(GradientAt(ns, b, pt, at), v)
    {
      SweepIsAdjoint(ns, start, root, seed, pruned, pt, Direction(at, v));
      SweepIsAdjoint(ns, start, root, seed, full, pt, Direction(at, v));
    }
    DotDetermines(GradientAt(ns, a, pt, at), GradientAt(ns, b, pt, at));
  }
}
