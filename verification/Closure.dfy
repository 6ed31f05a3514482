/** What the nodes that a sweep appends read: appended nodes, and nodes of any set closed under operands. */
module Closure {
  import opened Wrappers
  import opened Shapes
  import opened Axes
  import opened Vectors
  import opened Graph
  import opened Builders
  import opened Rules
  import opened Reverse
  import opened Derivative

  /** Node `j` is one of the pool or was appended to the first `base` nodes. */
  predicate Within(base: nat, pool: set<nat>, j: nat) {
    base <= j || j in pool
  }

  predicate Reading(base: nat, pool: set<nat>, op: Op) {
    forall j :: j in Operands(op) ==> Within(base, pool, j)
  }

  /** Every node that `more` appends to `ns` reads only nodes within. */
  ghost predicate Closes(base: nat, pool: set<nat>, ns: Arena, more: Arena) {
    base <= |ns| && ns <= more && forall i: nat :: |ns| <= i < |more| ==> Reading(base, pool, more[i].op)
  }

  ghost predicate Closed(base: nat, pool: set<nat>, ns: Arena, b: Built) {
    Closes(base, pool, ns, b.ns) && Within(base, pool, b.id)
  }

  ghost predicate AllWithin(base: nat, pool: set<nat>, grads: seq<Option<nat>>) {
    forall i :: 0 <= i < |grads| && grads[i].Some? ==> Within(base, pool, grads[i].value)
  }

  lemma ClosesSelf(base: nat, pool: set<nat>, ns: Arena)
    requires base <= |ns|
    ensures Closes(base, pool, ns, ns)
  {
  }

  lemma ClosesAfter(base: nat, pool: set<nat>, a: Arena, b: Arena, c: Arena)
    requires Closes(base, pool, a, b) && Closes(base, pool, b, c)
    ensures Closes(base, pool, a, c)
  {
    forall i: nat | |a| <= i < |c|
      ensures Reading(base, pool, c[i].op)
    {
      if i < |b| {
        assert c[i] == b[i];
      }
    }
  }

  lemma ClosesWider(base: nat, pool: set<nat>, low: nat, wide: set<nat>, ns: Arena, more: Arena)
    requires Closes(base, pool, ns, more) && low <= base && pool <= wide
    ensures Closes(low, wide, ns, more)
  {
    forall i: nat | |ns| <= i < |more|
      ensures Reading(low, wide, more[i].op)
    {
      assert Reading(base, pool, more[i].op);
    }
  }

  // The builders

  lemma PushClosed(base: nat, pool: set<nat>, ns: Arena, op: Op, s: Shape)
    requires base <= |ns| && Reading(base, pool, op)
    ensures Closed(base, pool, ns, Push(ns, op, s))
  {
  }

  lemma ConstantClosed(base: nat, pool: set<nat>, ns: Arena, s: Shape, x: real)
    requires base <= |ns|
    ensures Closed(base, pool, ns, PushConstant(ns, s, x))
  {
    hide Fill, Numel;
  }

  /** A second build step from the first one's arena. */
  lemma PushedAfter(base: nat, pool: set<nat>, ns: Arena, first: Built, op: Op, s: Shape)
    requires Closed(base, pool, ns, first) && Reading(base, pool, op)
    ensures Closed(base, pool, ns, Push(first.ns, op, s))
  {
    PushClosed(base, pool, first.ns, op, s);
    ClosesAfter(base, pool, ns, first.ns, Push(first.ns, op, s).ns);
  }

  lemma UnbroadcastClosed(base: nat, pool: set<nat>, ns: Arena, g: nat, target: Shape)
    requires base <= |ns| && Within(base, pool, g)
    ensures Closed(base, pool, ns, PushUnbroadcast(ns, g, target))
  {
    hide BroadcastAxes, ReducedShape, Closes, Push;
    ClosesSelf(base, pool, ns);
    var source := ShapeOf(ns, g);
    if source != target && |target| <= |source| {
      var axes := BroadcastAxes(source, target, 0);
      PushClosed(base, pool, ns, Sum(g, axes, true), ReducedShape(source, axes, true));
      var reduced := PushSum(ns, g, axes, true);
      PushedAfter(base, pool, ns, reduced, Reshape(reduced.id), target);
    }
  }

  lemma UnaryClosed(base: nat, pool: set<nat>, ns: Arena, op: UnaryOp, up: nat, node: nat, input: nat)
    requires base <= |ns| && Within(base, pool, up) && Within(base, pool, node) && Within(base, pool, input)
    ensures Closed(base, pool, ns, UnaryRule(ns, op, up, node, input))
  {
    hide Joined, ShapeOf, Fill, Numel;
  }

  lemma LinearClosed(base: nat, pool: set<nat>, ns: Arena, op: Op, up: nat)
    requires op.Contiguous? || op.Sum? || op.SumTo? || op.Reshape? || op.Permute? || op.Expand?
    requires base <= |ns| && Within(base, pool, up)
    ensures Closed(base, pool, ns, LinearRule(ns, op, up))
  {
    hide Reinserted, Normalized, Permutes, Inverse, Permuted, PushUnbroadcast, ReducedShape;
    match op
    case Expand(a) => UnbroadcastClosed(base, pool, ns, up, ShapeOf(ns, a));
    case Sum(a, axes, keepdim) => SpreadClosed(base, pool, ns, op, up);
    case _ =>
  }

  lemma SpreadClosed(base: nat, pool: set<nat>, ns: Arena, op: Op, up: nat)
    requires op.Sum? && base <= |ns| && Within(base, pool, up)
    ensures Closed(base, pool, ns, LinearRule(ns, op, up))
  {
    hide Reinserted, Normalized, ShapeOf;
  }

  lemma LeftClosed(base: nat, pool: set<nat>, ns: Arena, op: BinaryOp, up: nat, l: nat, r: nat)
    requires base <= |ns| && Within(base, pool, up) && Within(base, pool, l) && Within(base, pool, r)
    ensures Closed(base, pool, ns, LeftRule(ns, op, up, l, r))
  {
    hide Joined, ShapeOf;
  }

  lemma RightClosed(base: nat, pool: set<nat>, ns: Arena, op: BinaryOp, up: nat, l: nat, r: nat)
    requires base <= |ns| && Within(base, pool, up) && Within(base, pool, l) && Within(base, pool, r)
    ensures Closed(base, pool, ns, RightRule(ns, op, up, l, r))
  {
    hide Joined, ShapeOf;
  }

  lemma CreditCloses(base: nat, pool: set<nat>, ns: Arena, grads: seq<Option<nat>>, j: nat, b: Built)
    requires Closed(base, pool, ns, b) && AllWithin(base, pool, grads)
    ensures Closes(base, pool, ns, Credit(grads, j, b).ns) && AllWithin(base, pool, Credit(grads, j, b).grads)
  {
    hide Closes, PushBinary;
    if j < |grads| && grads[j].Some? {
      SumClosed(base, pool, ns, b, grads[j].value);
    }
  }

  lemma SumClosed(base: nat, pool: set<nat>, ns: Arena, b: Built, previous: nat)
    requires Closed(base, pool, ns, b) && Within(base, pool, previous)
    ensures Closed(base, pool, ns, PushBinary(b.ns, Add, previous, b.id))
  {
    hide Joined, ShapeOf, Closes;
    PushedAfter(base, pool, ns, b, Binary(Add, previous, b.id), Joined(ShapeOf(b.ns, previous), ShapeOf(b.ns, b.id)));
  }

  lemma SettleCloses(base: nat, pool: set<nat>, ns: Arena, grads: seq<Option<nat>>, j: nat, g: Built, target: Shape)
    requires Closed(base, pool, ns, g) && AllWithin(base, pool, grads)
    ensures var out := Credit(grads, j, PushUnbroadcast(g.ns, g.id, target));
            Closes(base, pool, ns, out.ns) && AllWithin(base, pool, out.grads)
  {
    hide Credit, PushUnbroadcast, AllWithin;
    UnbroadcastClosed(base, pool, g.ns, g.id, target);
    ClosesAfter(base, pool, ns, g.ns, PushUnbroadcast(g.ns, g.id, target).ns);
    CreditCloses(base, pool, ns, grads, j, PushUnbroadcast(g.ns, g.id, target));
  }

  lemma ClosesLonger(base: nat, pool: set<nat>, ns: Arena, more: Arena)
    requires Closes(base, pool, ns, more)
    ensures base <= |more|
  {
  }

  // The sweep

  lemma BinaryCloses(base: nat, pool: set<nat>, s: Sweep, op: BinaryOp, up: nat, l: nat, r: nat, active: seq<nat>)
    requires base <= |s.ns| && AllWithin(base, pool, s.grads) && Within(base, pool, up)
    requires Within(base, pool, l) && Within(base, pool, r)
    ensures var out := RouteBinary(s, op, up, l, r, active);
            Closes(base, pool, s.ns, out.ns) && AllWithin(base, pool, out.grads)
  {
    hide LeftRule, RightRule, PushUnbroadcast, Credit, Closes, AllWithin, Within;
    var a := if l in active then LeftRule(s.ns, op, up, l, r) else Built(s.ns, up);
    ClosesSelf(base, pool, s.ns);
    LeftClosed(base, pool, s.ns, op, up, l, r);
    ClosesLonger(base, pool, s.ns, a.ns);
    var b := if r in active then RightRule(a.ns, op, up, l, r) else Built(a.ns, up);
    ClosesSelf(base, pool, a.ns);
    RightClosed(base, pool, a.ns, op, up, l, r);
    ClosesAfter(base, pool, s.ns, a.ns, b.ns);
    var s1 := if l in active then Credit(s.grads, l, PushUnbroadcast(b.ns, a.id, ShapeOf(b.ns, l)))
      else Sweep(b.ns, s.grads);
    SettleCloses(base, pool, s.ns, s.grads, l, Built(b.ns, a.id), ShapeOf(b.ns, l));
    SettleCloses(base, pool, s.ns, s1.grads, r, Built(s1.ns, b.id), ShapeOf(s1.ns, r));
  }

  lemma SelectCloses(base: nat, pool: set<nat>, s: Sweep, up: nat, c: nat, t: nat, f: nat, active: seq<nat>)
    requires base <= |s.ns| && AllWithin(base, pool, s.grads) && Within(base, pool, up) && Within(base, pool, c)
    ensures var out := RouteSelect(s, up, c, t, f, active);
            Closes(base, pool, s.ns, out.ns) && AllWithin(base, pool, out.grads)
  {
    hide PushUnbroadcast, PushConstant, PushSelect, Credit, Closes, AllWithin, ShapeOf;
    var zeros := PushConstant(s.ns, ShapeOf(s.ns, up), 0.0);
    ConstantClosed(base, pool, s.ns, ShapeOf(s.ns, up), 0.0);
    var s1 := Sweep(zeros.ns, s.grads);
    if t in active {
      var g := PushSelect(zeros.ns, c, up, zeros.id);
      MaskClosed(base, pool, s.ns, zeros.ns, c, up, zeros.id);
      SettleCloses(base, pool, s.ns, s.grads, t, g, ShapeOf(g.ns, t));
      s1 := Credit(s.grads, t, PushUnbroadcast(g.ns, g.id, ShapeOf(g.ns, t)));
    }
    if f in active {
      var g := PushSelect(s1.ns, c, zeros.id, up);
      MaskClosed(base, pool, s.ns, s1.ns, c, zeros.id, up);
      SettleCloses(base, pool, s.ns, s1.grads, f, g, ShapeOf(g.ns, f));
    }
  }

  lemma MaskClosed(base: nat, pool: set<nat>, ns: Arena, more: Arena, c: nat, t: nat, f: nat)
    requires Closes(base, pool, ns, more)
    requires Within(base, pool, c) && Within(base, pool, t) && Within(base, pool, f)
    ensures Closed(base, pool, ns, PushSelect(more, c, t, f))
  {
    hide Joined, ShapeOf;
    var b := PushSelect(more, c, t, f);
    ClosesLonger(base, pool, ns, more);
    PushClosed(base, pool, more, Select(c, t, f), b.ns[|more|].shape);
    ClosesAfter(base, pool, ns, more, b.ns);
  }

  lemma RouteCloses(base: nat, pool: set<nat>, s: Sweep, op: Op, node: nat, up: nat, active: seq<nat>)
    requires base <= |s.ns| && AllWithin(base, pool, s.grads) && Reading(base, pool, op)
    requires Within(base, pool, node) && Within(base, pool, up)
    ensures var out := Route(s, op, node, up, active);
            Closes(base, pool, s.ns, out.ns) && AllWithin(base, pool, out.grads)
  {
    hide RouteBinary, RouteSelect, UnaryRule, LinearRule, Credit, Closes, AllWithin, Within;
    ClosesSelf(base, pool, s.ns);
    match op
    case Binary(bop, l, r) =>
      assert l in Operands(op) && r in Operands(op);
      BinaryCloses(base, pool, s, bop, up, l, r, active);
    case Select(c, t, f) =>
      assert c in Operands(op);
      SelectCloses(base, pool, s, up, c, t, f, active);
    case Unary(uop, a) =>
      assert a in Operands(op);
      UnaryClosed(base, pool, s.ns, uop, up, node, a);
      CreditCloses(base, pool, s.ns, s.grads, a, UnaryRule(s.ns, uop, up, node, a));
    case Input(_) =>
    case Constant(_) =>
    case Detach(_) =>
    case Compare(_, _, _) =>
    case _ =>
      LinearClosed(base, pool, s.ns, op, up);
      CreditCloses(base, pool, s.ns, s.grads, op.input, LinearRule(s.ns, op, up));
  }
}
