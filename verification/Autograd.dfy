/** The graph as a mutable arena: traversal, reverse sweep and the multi-target gradient. */
module Autograd {
  import opened Wrappers
  import opened Shapes
  import opened Axes
  import opened Vectors
  import opened Graph
  import opened Builders
  import opened Rules
  import opened Reverse
  import opened Closure
  import opened Traversal
  import opened Higher

  class GraphArena {
    var nodes: Arena

    constructor (start: Arena)
      ensures nodes == start
    {
      nodes := start;
    }

    /** The nodes the root depends on, found by a worklist that may hold duplicates. */
    method Ancestors(root: nat) returns (marked: seq<bool>)
      requires WellFormed(nodes) && root < |nodes|
      ensures |marked| == |nodes| && forall i: nat :: i < |nodes| ==> (marked[i] <==> Reaches(nodes, root, i))
    {
      assert Reaches(nodes, root, root);
      hide WellFormed, Reaches, BackwardInputs, Explored;
      marked := seq(|nodes|, _ => false);
      var pending: seq<nat> := [root];
      ghost var unmarked := set i: nat | i < |marked| && !marked[i];
      FrontierStarts(nodes, root, marked, unmarked);
      while |pending| > 0
        invariant |marked| == |nodes| && Explored(nodes, root, marked, pending, unmarked)
        decreases unmarked, |pending|
      {
        var last := |pending| - 1;
        var node := pending[last];
        assert pending == pending[..last] + [node];
        FrontierStep(nodes, root, marked, pending[..last], node, unmarked);
        pending := pending[..last];
        if !marked[node] {
          marked := marked[node := true];
          unmarked := unmarked - {node};
          pending := pending + BackwardInputs(nodes[node].op);
        }
      }
      FrontierDone(nodes, root, marked, unmarked);
    }

    /** The active edges of a traversal, computed in one ascending pass over the ancestors. */
    method Frontier(root: nat, targets: seq<nat>) returns (active: seq<seq<nat>>)
      requires WellFormed(nodes) && root < |nodes|
      ensures ActiveEdges(nodes, root, targets, active)
    {
      hide WellFormed, Reaches, ReachesAny, ActiveAt, BackwardInputs;
      var ancestors := Ancestors(root);
      var contains := seq(|nodes|, _ => false);
      active := [];
      for index := 0 to |nodes|
        invariant |active| == index && |contains| == |nodes|
        invariant forall i: nat :: i < index && Reaches(nodes, root, i) ==>
                    (contains[i] <==> ReachesAny(nodes, i, targets))
        invariant forall i: nat :: i < index ==> ActiveAt(nodes, root, targets, i, active[i])
      {
        var kept: seq<nat> := [];
        if ancestors[index] {
          kept := Wanted(BackwardInputs(nodes[index].op), contains);
          WantedActive(nodes, root, targets, index, contains);
          KeptDecides(nodes, root, targets, index, kept);
          contains := contains[index := index in targets || |kept| > 0];
        } else {
          NoneActive(nodes, root, targets, index);
        }
        active := active + [kept];
      }
    }

    // Builders. Their shape checks are preconditions here; the sweep below discharges every one of them.

    method Append(op: Op, s: Shape) returns (id: nat)
      modifies this
      ensures Built(nodes, id) == Push(old(nodes), op, s)
    {
      id := |nodes|;
      nodes := nodes + [Node(op, s)];
    }

    method Unary(op: UnaryOp, a: nat) returns (id: nat)
      requires a < |nodes|
      modifies this
      ensures Built(nodes, id) == PushUnary(old(nodes), op, a)
    {
      id := Append(Op.Unary(op, a), nodes[a].shape);
    }

    method Binary(op: BinaryOp, a: nat, b: nat) returns (id: nat)
      requires a < |nodes| && b < |nodes| && Broadcast(nodes[a].shape, nodes[b].shape).Some?
      modifies this
      ensures Built(nodes, id) == PushBinary(old(nodes), op, a, b)
    {
      id := Append(Op.Binary(op, a, b), Broadcast(nodes[a].shape, nodes[b].shape).value);
    }

    method Divide(a: nat, b: nat) returns (id: nat)
      requires a < |nodes| && b < |nodes| && Broadcast(nodes[a].shape, nodes[b].shape).Some?
      modifies this
      ensures Built(nodes, id) == PushDiv(old(nodes), a, b)
    {
      var reciprocal := Unary(Reciprocal, b);
      id := Binary(Mul, a, reciprocal);
    }

    method Constant(s: Shape, x: real) returns (id: nat)
      modifies this
      ensures Built(nodes, id) == PushConstant(old(nodes), s, x)
    {
      id := Append(Op.Constant(Fill(Numel(s), x)), s);
    }

    method Select(c: nat, t: nat, f: nat) returns (id: nat)
      requires c < |nodes| && t < |nodes| && f < |nodes|
      requires var value := Broadcast(nodes[t].shape, nodes[f].shape);
               value.Some? && Broadcast(nodes[c].shape, value.value).Some?
      modifies this
      ensures Built(nodes, id) == PushSelect(old(nodes), c, t, f)
    {
      var value := Broadcast(nodes[t].shape, nodes[f].shape).value;
      id := Append(Op.Select(c, t, f), Broadcast(nodes[c].shape, value).value);
    }

    method Reshape(a: nat, s: Shape) returns (id: nat)
      requires a < |nodes| && Numel(nodes[a].shape) == Numel(s)
      modifies this
      ensures Built(nodes, id) == PushReshape(old(nodes), a, s)
    {
      id := a;
      if nodes[a].shape != s {
        id := Append(Op.Reshape(a), s);
      }
    }

    method Expand(a: nat, s: Shape) returns (id: nat)
      requires a < |nodes| && Fits(nodes[a].shape, s)
      modifies this
      ensures Built(nodes, id) == PushExpand(old(nodes), a, s)
    {
      id := a;
      if nodes[a].shape != s {
        id := Append(Op.Expand(a), s);
      }
    }

    method Permute(a: nat, axes: seq<nat>) returns (id: nat)
      requires a < |nodes| && Permutes(axes, |nodes[a].shape|)
      modifies this
      ensures Built(nodes, id) == PushPermute(old(nodes), a, axes)
    {
      id := a;
      if axes != Identity(|nodes[a].shape|) {
        id := Append(Op.Permute(a, axes), Permuted(nodes[a].shape, axes));
      }
    }

    method Unbroadcast(g: nat, target: Shape) returns (id: nat)
      requires g < |nodes| && Fits(target, nodes[g].shape)
      modifies this
      ensures Built(nodes, id) == PushUnbroadcast(old(nodes), g, target)
      ensures |old(nodes)| <= |nodes| && id < |nodes| && nodes[id].shape == target && old(nodes) <= nodes
    {
      var source := nodes[g].shape;
      id := g;
      if source != target {
        var axes := BroadcastAxes(source, target, 0);
        BroadcastAxesKept(source, target);
        PaddedMap(target, source);
        id := Append(Op.Sum(g, axes, true), Axes.Kept(source, axes));
        id := Reshape(id, target);
      }
    }

    // The reverse rules

    method UnaryLocal(op: UnaryOp, up: nat, node: nat, input: nat) returns (id: nat)
      requires up < |nodes| && node < |nodes| && input < |nodes|
      requires nodes[up].shape == nodes[node].shape == nodes[input].shape
      modifies this
      ensures Built(nodes, id) == UnaryRule(old(nodes), op, up, node, input)
    {
      hide Fits, Broadcast, Numel;
      ghost var s := nodes[up].shape;
      OperandMapSelf(s);
      FitsIffBroadcast(s, s);
      FitsIffBroadcast([], s);
      match op {
        case Neg => id := Unary(Neg, up);
        case Reciprocal =>
          id := Unary(Neg, up);
          id := Binary(Mul, id, node);
          id := Binary(Mul, id, node);
        case Square =>
          var two := Constant([], 2.0);
          EmptyFits(s);
          var scale := Binary(Mul, two, input);
          id := Binary(Mul, up, scale);
        case Relu =>
          var mask := Unary(Step, input);
          id := Binary(Mul, up, mask);
        case Step => id := Constant(nodes[input].shape, 0.0);
      }
    }

    method LeftLocal(op: BinaryOp, up: nat, l: nat, r: nat) returns (id: nat)
      requires up < |nodes| && l < |nodes| && r < |nodes| && Fits(nodes[r].shape, nodes[up].shape)
      modifies this
      ensures Built(nodes, id) == LeftRule(old(nodes), op, up, l, r)
    {
      hide Fits, Broadcast;
      FitsIffBroadcast(nodes[r].shape, nodes[up].shape);
      match op {
        case Add => id := up;
        case Sub => id := up;
        case Mul => id := Binary(Mul, up, r);
        case Div => id := Divide(up, r);
      }
    }

    method RightLocal(op: BinaryOp, up: nat, l: nat, r: nat) returns (id: nat)
      requires up < |nodes| && l < |nodes| && r < |nodes|
      requires Fits(nodes[l].shape, nodes[up].shape) && Fits(nodes[r].shape, nodes[up].shape)
      modifies this
      ensures Built(nodes, id) == RightRule(old(nodes), op, up, l, r)
    {
      hide Fits, Broadcast, OperandMap;
      FitsIffBroadcast(nodes[l].shape, nodes[up].shape);
      FitsIffBroadcast(nodes[r].shape, nodes[up].shape);
      match op {
        case Add => id := up;
        case Sub => id := Unary(Neg, up);
        case Mul => id := Binary(Mul, up, l);
        case Div =>
          OperandMapSelf(nodes[r].shape);
          FitsIffBroadcast(nodes[r].shape, nodes[r].shape);
          var square := Binary(Mul, r, r);
          var numerator := Binary(Mul, up, l);
          id := Divide(numerator, square);
          id := Unary(Neg, id);
      }
    }

    /** The upstream shape with a unit extent put back at every reduced axis. */
    method KeptDims(s: Shape, axes: seq<nat>, upstream: Shape) returns (dims: Shape)
      requires Normalized(axes, |s|) && upstream == ReducedShape(s, axes, false)
      ensures dims == Kept(s, axes)
    {
      dims := upstream;
      for k := 0 to |axes|
        invariant dims == Reinserted(s, axes, k)
      {
        var axis := axes[k];
        ReinsertedPrefix(s, axes, k);
        ReinsertedRoom(s, axes, k);
        dims := dims[..axis] + [1] + dims[axis..];
      }
      ReinsertedIsKept(s, axes);
    }

    method LinearLocal(n: Node, up: nat) returns (id: nat)
      requires up < |nodes| && nodes[up].shape == n.shape
      requires var op := n.op; op.Contiguous? || op.Sum? || op.SumTo? || op.Reshape? || op.Permute? || op.Expand?
      requires n.op.input < |nodes| && LinearOk(nodes[n.op.input].shape, n)
      modifies this
      ensures Built(nodes, id) == LinearRule(old(nodes), n.op, up)
    {
      hide Fits, Numel, Kept, Reinserted, PushUnbroadcast;
      var s := nodes[n.op.input].shape;
      id := up;
      match n.op {
        case Contiguous(_) =>
        case Sum(_, axes, keepdim) =>
          var dims := n.shape;
          if !keepdim {
            dims := KeptDims(s, axes, n.shape);
          }
          KeptFits(s, axes);
          ReducedNumel(s, axes, keepdim);
          ReinsertedIsKept(s, axes);
          id := Reshape(id, dims);
          id := Expand(id, s);
        case SumTo(_) => id := Expand(id, s);
        case Reshape(_) => id := Reshape(id, s);
        case Permute(_, axes) =>
          PermutedBack(s, axes);
          id := Permute(id, Inverse(axes));
        case Expand(_) => id := Unbroadcast(id, s);
      }
    }

    // The sweep

    method Accumulate(grads: seq<Option<nat>>, j: nat, gradient: nat) returns (credited: seq<Option<nat>>)
      requires j < |grads| && gradient < |nodes|
      requires grads[j].Some? ==> grads[j].value < |nodes| && nodes[grads[j].value].shape == nodes[gradient].shape
      modifies this
      ensures Sweep(nodes, credited) == Credit(grads, j, Built(old(nodes), gradient))
    {
      var total := gradient;
      if grads[j].Some? {
        OperandMapSelf(nodes[gradient].shape);
        FitsIffBroadcast(nodes[gradient].shape, nodes[gradient].shape);
        total := Binary(Add, grads[j].value, gradient);
      }
      credited := grads[j := Some(total)];
    }

    /** Sums `local` down to operand `j` and credits it. */
    method Settle(ghost ns: Arena, grads: seq<Option<nat>>, j: nat, local: nat) returns (credited: seq<Option<nat>>)
      requires Sound(ns, Sweep(nodes, grads), Still()) && j < |ns| && local < |nodes|
      requires Fits(nodes[j].shape, nodes[local].shape)
      modifies this
      ensures Sweep(nodes, credited) ==
              Credit(grads, j, PushUnbroadcast(old(nodes), local, ShapeOf(old(nodes), j)))
      ensures Sound(ns, Sweep(nodes, credited), Still()) && old(nodes) <= nodes
    {
      hide Values, WellFormed, Evaluate, PushUnbroadcast, Credit, SumDown, Fits;
      ghost var before := nodes;
      UnbroadcastGrown(nodes, local, nodes[j].shape, Still());
      CreditValue(ns, Sweep(nodes, grads), PushUnbroadcast(nodes, local, nodes[j].shape), j, Still(),
                  SumDown(nodes[j].shape, nodes[local].shape, Values(nodes, Still())[local]));
      var reduced := Unbroadcast(local, nodes[j].shape);
      credited := Accumulate(grads, j, reduced);
    }

    method BinaryStep(ghost ns: Arena, grads: seq<Option<nat>>, op: BinaryOp, up: nat, l: nat, r: nat, active: seq<nat>)
      returns (credited: seq<Option<nat>>)
      requires Sound(ns, Sweep(nodes, grads), Still()) && l < |ns| && r < |ns| && up < |nodes|
      requires Fits(nodes[l].shape, nodes[up].shape) && Fits(nodes[r].shape, nodes[up].shape)
      modifies this
      ensures Sweep(nodes, credited) == Reverse.RouteBinary(Sweep(old(nodes), grads), op, up, l, r, active)
    {
      hide Values, WellFormed, Evaluate, PushUnbroadcast, Credit, LeftRule, RightRule, Fits, LeftShare, RightShare,
           Operand;
      ghost var before := Sweep(nodes, grads);
      var left, right := up, up;
      LeftRuleGrown(nodes, op, up, l, r, Still());
      if l in active {
        left := LeftLocal(op, up, l, r);
      }
      ghost var a := Built(nodes, left);
      RightRuleGrown(nodes, op, up, l, r, Still());
      if r in active {
        right := RightLocal(op, up, l, r);
      }
      ghost var b := Built(nodes, right);
      credited := grads;
      if l in active {
        credited := Settle(ns, credited, l, left);
      }
      if r in active {
        credited := Settle(ns, credited, r, right);
      }
    }

    method SelectStep(ghost ns: Arena, grads: seq<Option<nat>>, up: nat, c: nat, t: nat, f: nat, active: seq<nat>)
      returns (credited: seq<Option<nat>>)
      requires Sound(ns, Sweep(nodes, grads), Still()) && c < |ns| && t < |ns| && f < |ns| && up < |nodes|
      requires Fits(nodes[c].shape, nodes[up].shape)
      requires Fits(nodes[t].shape, nodes[up].shape) && Fits(nodes[f].shape, nodes[up].shape)
      modifies this
      ensures Sweep(nodes, credited) == RouteSelect(Sweep(old(nodes), grads), up, c, t, f, active)
    {
      hide Values, WellFormed, Evaluate, PushUnbroadcast, Credit, Fits, PushSelect, PushConstant;
      var s := nodes[up].shape;
      ConstantGrown(nodes, s, 0.0, Still());
      var zeros := Constant(s, 0.0);
      credited := grads;
      if t in active {
        credited := MaskStep(ns, credited, c, up, zeros, t);
      }
      if f in active {
        credited := MaskStep(ns, credited, c, zeros, up, f);
      }
    }

    /** Credits branch `j` of a selection with one masked gradient. */
    method MaskStep(ghost ns: Arena, grads: seq<Option<nat>>, c: nat, a: nat, b: nat, j: nat)
      returns (credited: seq<Option<nat>>)
      requires Sound(ns, Sweep(nodes, grads), Still()) && j < |ns| && c < |nodes| && a < |nodes| && b < |nodes|
      requires nodes[a].shape == nodes[b].shape && Fits(nodes[c].shape, nodes[a].shape)
      requires Fits(nodes[j].shape, nodes[a].shape)
      modifies this
      ensures var g := PushSelect(old(nodes), c, a, b);
              Sweep(nodes, credited) == Credit(grads, j, PushUnbroadcast(g.ns, g.id, ShapeOf(g.ns, j)))
      ensures Sound(ns, Sweep(nodes, credited), Still()) && old(nodes) <= nodes
    {
      hide Values, WellFormed, Evaluate, PushUnbroadcast, Credit, Fits, Operand, SelectVec, PushSelect, Broadcast;
      var s := nodes[a].shape;
      OperandMapSelf(s);
      FitsIffBroadcast(s, s);
      FitsIffBroadcast(nodes[c].shape, s);
      SelectGrown(nodes, c, a, b, Still());
      var local := Select(c, a, b);
      credited := Settle(ns, grads, j, local);
    }

    method LinearStep(ghost ns: Arena, grads: seq<Option<nat>>, n: Node, up: nat) returns (credited: seq<Option<nat>>)
      requires Sound(ns, Sweep(nodes, grads), Still()) && up < |nodes| && nodes[up].shape == n.shape
      requires var op := n.op; op.Contiguous? || op.Sum? || op.SumTo? || op.Reshape? || op.Permute? || op.Expand?
      requires n.op.input < |ns| && LinearOk(ns[n.op.input].shape, n)
      modifies this
      ensures Sweep(nodes, credited) == Credit(grads, n.op.input, LinearRule(old(nodes), n.op, up))
    {
      hide Values, WellFormed, Evaluate, Credit, LinearRule, LinearOk, LinearShare;
      assert nodes[n.op.input] == ns[n.op.input];
      LinearRuleGrown(nodes, n, up, Still());
      ghost var before := nodes;
      var local := LinearLocal(n, up);
      assert Built(nodes, local) == LinearRule(before, n.op, up);
      credited := Accumulate(grads, n.op.input, local);
    }

    method UnaryStep(ghost ns: Arena, grads: seq<Option<nat>>, op: UnaryOp, index: nat, up: nat, a: nat)
      returns (credited: seq<Option<nat>>)
      requires Sound(ns, Sweep(nodes, grads), Still()) && index < |ns| && a < |ns| && up < |nodes|
      requires nodes[up].shape == ns[index].shape == ns[a].shape
      modifies this
      ensures Sweep(nodes, credited) == Credit(grads, a, UnaryRule(old(nodes), op, up, index, a))
    {
      hide Values, WellFormed, Evaluate, Credit, UnaryRule, UnaryShare;
      UnaryRuleGrown(nodes, op, up, index, a, Still());
      var local := UnaryLocal(op, up, index, a);
      credited := Accumulate(grads, a, local);
    }

    /** Runs node `index`'s reverse rule on gradient `up`. No builder it calls can refuse its operands. */
    method RunRule(ghost ns: Arena, grads: seq<Option<nat>>, index: nat, up: nat, active: seq<nat>)
      returns (credited: seq<Option<nat>>)
      requires Sound(ns, Sweep(nodes, grads), Still()) && index < |ns| && up < |nodes|
      requires nodes[up].shape == ns[index].shape
      modifies this
      ensures Sweep(nodes, credited) == Route(Sweep(old(nodes), grads), ns[index].op, index, up, active)
    {
      hide Values, WellFormed, Evaluate, Credit, Reverse.RouteBinary, RouteSelect, UnaryRule, LinearRule, Fits,
           LinearOk;
      WellFormedPrefix(ns, index);
      var n := nodes[index];
      assert NodeOk(ns[..index], n);
      credited := grads;
      match n.op {
        case Input(_) =>
        case Constant(_) =>
        case Detach(_) =>
        case Compare(_, _, _) =>
        case Unary(op, a) => credited := UnaryStep(ns, grads, op, index, up, a);
        case Binary(op, l, r) => credited := BinaryStep(ns, grads, op, up, l, r, active);
        case Select(c, t, f) => credited := SelectStep(ns, grads, up, c, t, f, active);
        case _ => credited := LinearStep(ns, grads, n, up);
      }
    }

    /** The reverse sweep: it leaves exactly the arena and gradients of the specification. */
    method ReverseSweep(ghost ns: Arena, root: nat, seed: nat, active: seq<seq<nat>>, ghost at: nat)
      returns (grads: seq<Option<nat>>)
      requires WellFormed(ns) && WellFormed(nodes) && ns <= nodes && |active| == |ns|
      requires root < |ns| && seed < |nodes| && nodes[seed].shape == ns[root].shape
      requires at < |ns| && Serves(ns, root, active, at)
      modifies this
      ensures Sweep(nodes, grads) == SweepDown(Seeded(old(nodes), |ns|, root, seed), |ns|, active)
      ensures Sound(ns, Sweep(nodes, grads), Still())
    {
      hide Values, WellFormed, Tangents, Route, Sound, Rooted, Aims, Serves, Free, Balance;
      ghost var d := Direction(at, Zeros(Numel(ns[at].shape)));
      ghost var start := Seeded(nodes, |ns|, root, seed);
      AtRest(ns, at);
      StartBalance(ns, nodes, root, seed, Still(), d);
      grads := seq(|active|, _ => None);
      grads := grads[root := Some(seed)];
      assert grads == start.grads;
      for index := |active| downto 0
        invariant |grads| == |active| == |ns| <= |nodes| && ns <= nodes
        invariant Sound(ns, Sweep(nodes, grads), Still()) && Rooted(ns, root, grads)
        invariant SweepDown(Sweep(nodes, grads), index, active) == SweepDown(start, |ns|, active)
      {
        ghost var s := Sweep(nodes, grads);
        VisitStep(ns, root, s, index, active, Still(), d);
        SoundParts(ns, s, Still(), index);
        SoundParts(ns, Visit(s, index, active), Still(), index);
        if |active[index]| > 0 && grads[index].Some? {
          grads := RunRule(ns, grads, index, grads[index].value, active[index]);
        }
        assert Sweep(nodes, grads) == Visit(s, index, active);
      }
    }

    // The public transforms

    /** A scalar constant expanded to shape `s`. */
    method ConstLike(s: Shape, x: real) returns (id: nat)
      requires WellFormed(nodes)
      modifies this
      ensures PlainlyGrown(old(nodes), nodes, {}) && WellFormed(nodes) && |old(nodes)| <= id < |nodes|
      ensures nodes[id].shape == s
      ensures forall pt: Point :: Below(pt, |old(nodes)|) ==> Values(nodes, pt)[id] == Fill(Numel(s), x)
    {
      hide WellFormed, Values, Fits, Evaluate;
      EmptyFits(s);
      ghost var before := nodes;
      ConstantGrown(nodes, [], x, Still());
      id := Constant([], x);
      ghost var scalar := Built(nodes, id);
      ExpandGrown(nodes, id, s, Still());
      id := Expand(id, s);
      forall pt: Point | Below(pt, |before|)
        ensures Values(nodes, pt)[id] == Fill(Numel(s), x)
      {
        ConstantGrown(before, [], x, pt);
        ExpandGrown(scalar.ns, scalar.id, s, pt);
        SpreadFill(s, x);
      }
    }

    /** Admits or normalises the seed of a request whose loss and targets are known. */
    method Seed(loss: nat, gradient: Option<nat>) returns (seed: Result<nat, GraphError>)
      requires WellFormed(nodes) && loss < |nodes|
      modifies this
      ensures seed.Err? <==> Refusal(old(nodes), loss, [loss], gradient).Some?
      ensures seed.Err? ==> Refusal(old(nodes), loss, [loss], gradient) == Some(seed.error)
      ensures seed.Ok? ==> IsSeed(old(nodes), nodes, loss, gradient, seed.value)
    {
      hide WellFormed, Values, Fits, Evaluate, Numel;
      var s := nodes[loss].shape;
      ghost var before := nodes;
      match gradient {
        case None =>
          if |s| != 0 {
            return Err(NonScalarLoss(s));
          }
          var one := ConstLike(s, 1.0);
          return Ok(one);
        case Some(g) =>
          if g >= |nodes| {
            return Err(UnknownNode(g));
          }
          FitsIffBroadcast(nodes[g].shape, s);
          if nodes[g].shape == s {
            return Ok(g);
          } else if Numel(nodes[g].shape) == Numel(s) {
            ReshapeGrown(before, g, s, Still());
            var id := Reshape(g, s);
            forall pt: Point | Below(pt, |before|)
              ensures Values(nodes, pt)[id] == SeedVec(before, pt, loss, gradient)
            {
              ReshapeGrown(before, g, s, pt);
            }
            return Ok(id);
          } else if Broadcast(nodes[g].shape, s) == Option.Some(s) {
            ExpandGrown(before, g, s, Still());
            var id := Expand(g, s);
            forall pt: Point | Below(pt, |before|)
              ensures Values(nodes, pt)[id] == SeedVec(before, pt, loss, gradient)
            {
              ExpandGrown(before, g, s, pt);
            }
            return Ok(id);
          }
          return Err(GradientShape(s, nodes[g].shape));
      }
    }

    method GradientInner(loss: nat, targets: seq<nat>, gradient: Option<nat>) returns (r: Result<seq<nat>, GraphError>)
      requires WellFormed(nodes)
      modifies this
      ensures r.Err? <==> Refusal(old(nodes), loss, targets, gradient).Some?
      ensures r.Err? ==> Refusal(old(nodes), loss, targets, gradient) == Some(r.error)
      ensures r.Ok? ==> Delivered(old(nodes), nodes, loss, targets, gradient, r.value)
    {
      hide WellFormed, Values, Fits, Numel, IsSeed, IsGradient, ActiveEdges, SweepDown, Sound, Seeded;
      if loss >= |nodes| {
        return Err(UnknownNode(loss));
      }
      var s := nodes[loss].shape;
      ghost var ns := nodes;
      var unknown := FirstUnknown(nodes, targets);
      if unknown.Some? {
        return Err(UnknownNode(unknown.value));
      }
      if |targets| == 0 {
        match gradient {
          case Some(g) =>
            if g >= |nodes| {
              return Err(UnknownNode(g));
            }
          case None =>
            if |s| != 0 {
              return Err(NonScalarLoss(s));
            }
        }
        return Ok([]);
      }
      var active := Frontier(loss, targets);
      var seed :- Seed(loss, gradient);
      ghost var start := nodes;
      assert targets[0] in targets;
      SeedParts(ns, start, loss, gradient, seed);
      EdgesParts(ns, loss, targets, active);
      ActiveServes(ns, loss, targets, active, targets[0]);
      var grads := ReverseSweep(ns, loss, seed, active, targets[0]);
      SoundGrows(ns, Sweep(nodes, grads), Still());
      var ids := Collect(ns, start, loss, gradient, seed, active, targets, grads);
      return Ok(ids);
    }

    /** Reads the requested gradients off a finished sweep; a target without one shares a single zero. */
    method Collect(ghost ns: Arena, ghost start: Arena, ghost loss: nat, ghost gradient: Option<nat>, ghost seed: nat,
                   ghost active: seq<seq<nat>>, targets: seq<nat>, grads: seq<Option<nat>>) returns (ids: seq<nat>)
      requires IsSeed(ns, start, loss, gradient, seed) && ActiveEdges(ns, loss, targets, active)
      requires |grads| == |ns| && forall k :: 0 <= k < |targets| ==> targets[k] < |ns|
      requires Sweep(nodes, grads) == SweepDown(Seeded(start, |ns|, loss, seed), |ns|, active)
      requires Sound(ns, Sweep(nodes, grads), Still())
      modifies this
      ensures Delivered(ns, nodes, loss, targets, gradient, ids)
    {
      hide WellFormed, Values, IsSeed, IsGradient, ActiveEdges, SweepDown, Sound, Seeded, Below, Fill, Reaches;
      var zeros: map<nat, nat> := map[];
      ids := [];
      SoundGrows(ns, Sweep(nodes, grads), Still());
      ghost var swept := nodes;
      while |ids| < |targets|
        invariant |ids| <= |targets|
        invariant ns <= swept && PlainlyGrown(swept, nodes, {}) && WellFormed(nodes)
        invariant forall t: nat :: t in zeros ==> t < |ns| && IsZero(ns, nodes, zeros[t], ns[t].shape)
        invariant forall k: nat :: k < |ids| ==>
                    if grads[targets[k]].Some? then ids[k] == grads[targets[k]].value
                    else targets[k] in zeros && ids[k] == zeros[targets[k]]
      {
        var target := targets[|ids|];
        var id: nat;
        if grads[target].Some? {
          id := grads[target].value;
        } else if target in zeros {
          id := zeros[target];
        } else {
          ghost var before := nodes;
          id := ConstLike(nodes[target].shape, 0.0);
          PlainlyAfter(swept, before, nodes);
          ZeroFresh(ns, before, nodes, id, ns[target].shape);
          ZerosKept(ns, before, nodes, zeros);
          zeros := zeros[target := id];
        }
        ids := ids + [id];
      }
      DeliveredSwept(ns, start, loss, gradient, seed, active, targets, Sweep(swept, grads), nodes, ids, zeros);
    }

    /** All targets in one traversal. A refused request leaves the graph as it was. */
    method Gradient(loss: nat, targets: seq<nat>, gradient: Option<nat>) returns (r: Result<seq<nat>, GraphError>)
      requires WellFormed(nodes)
      modifies this
      ensures r.Err? <==> Refusal(old(nodes), loss, targets, gradient).Some?
      ensures r.Err? ==> Refusal(old(nodes), loss, targets, gradient) == Some(r.error) && nodes == old(nodes)
      ensures r.Ok? ==> Delivered(old(nodes), nodes, loss, targets, gradient, r.value)
      ensures r.Ok? <==> Servable(old(nodes), loss, targets, gradient)
      ensures r.Err? ==> Explains(old(nodes), loss, targets, gradient, r.error)
    {
      hide Refusal, Delivered, Servable, Explains;
      RefusalIs(nodes, loss, targets, gradient);
      var candidate := new GraphArena(nodes);
      r := candidate.GradientInner(loss, targets, gradient);
      if r.Ok? {
        nodes := candidate.nodes;
      }
    }

    method StrictGradientInner(loss: nat, wrt: nat, upstream: Option<nat>) returns (r: Result<nat, GraphError>)
      requires WellFormed(nodes)
      modifies this
      ensures var refusal := StrictRefusal(old(nodes), loss, wrt, upstream);
              if refusal.Some? then r == Err(refusal.value)
              else if Reaches(old(nodes), loss, wrt) then
                r.Ok? && IsGradient(old(nodes), nodes, loss, wrt, upstream, r.value) &&
                KeepsSmooth(old(nodes), nodes, loss, upstream, r.value)
              else r == Err(NoGradient(wrt))
    {
      hide WellFormed, Values, Fits, Numel, IsSeed, IsGradient, ActiveEdges, SweepDown, Sound, Seeded, Reaches, Serves;
      if loss >= |nodes| {
        return Err(UnknownNode(loss));
      }
      if wrt >= |nodes| {
        return Err(UnknownNode(wrt));
      }
      var s := nodes[loss].shape;
      ghost var ns := nodes;
      var active := Frontier(loss, [wrt]);
      EdgesParts(ns, loss, [wrt], active);
      ActiveServes(ns, loss, [wrt], active, wrt);
      var seed: nat;
      match upstream {
        case Some(g) =>
          if g >= |nodes| {
            return Err(UnknownNode(g));
          }
          if nodes[g].shape != s {
            return Err(GradientShape(s, nodes[g].shape));
          }
          seed := g;
          GivenSeed(ns, loss, g);
        case None =>
          if Numel(s) != 1 {
            return Err(NonScalarLoss(s));
          }
          seed := Constant(s, 1.0);
          ConstantSeed(ns, loss, Built(nodes, seed));
      }
      ghost var start := nodes;
      SeedParts(ns, start, loss, upstream, seed);
      var grads := ReverseSweep(ns, loss, seed, active, wrt);
      SoundGrows(ns, Sweep(nodes, grads), Still());
      GradientIffReached(ns, start, loss, seed, [wrt], active, wrt);
      if grads[wrt].None? {
        return Err(NoGradient(wrt));
      }
      SoundParts(ns, Sweep(nodes, grads), Still(), wrt);
      SweptIsGradient(ns, start, loss, upstream, seed, [wrt], active, wrt, nodes, grads[wrt].value);
      PlainlySelf(nodes);
      SweptKeepsSmooth(ns, start, loss, upstream, seed, active, wrt, nodes, grads[wrt].value);
      return Ok(grads[wrt].value);
    }

    /** The strict single-target form: it refuses a target the loss does not depend on. */
    method GradWith(loss: nat, wrt: nat, upstream: Option<nat>) returns (r: Result<nat, GraphError>)
      requires WellFormed(nodes)
      modifies this
      ensures var refusal := StrictRefusal(old(nodes), loss, wrt, upstream);
              if refusal.Some? then r == Err(refusal.value)
              else if Reaches(old(nodes), loss, wrt) then
                r.Ok? && IsGradient(old(nodes), nodes, loss, wrt, upstream, r.value) &&
                KeepsSmooth(old(nodes), nodes, loss, upstream, r.value)
              else r == Err(NoGradient(wrt))
      ensures r.Err? ==> nodes == old(nodes)
      ensures r.Ok? <==> StrictlyServable(old(nodes), loss, wrt, upstream) && Reaches(old(nodes), loss, wrt)
      ensures r.Err? && !StrictlyServable(old(nodes), loss, wrt, upstream) ==>
                StrictlyExplains(old(nodes), loss, wrt, upstream, r.error)
    {
      hide StrictRefusal, StrictlyServable, StrictlyExplains, Reaches, IsGradient, KeepsSmooth;
      StrictRefusalIs(nodes, loss, wrt, upstream);
      var candidate := new GraphArena(nodes);
      r := candidate.StrictGradientInner(loss, wrt, upstream);
      if r.Ok? {
        nodes := candidate.nodes;
      }
    }
  }

  lemma PlainlySelf(ns: Arena)
    ensures PlainlyGrown(ns, ns, {})
  {
  }

  lemma PlainlyAfter(a: Arena, b: Arena, c: Arena)
    requires PlainlyGrown(a, b, {}) && PlainlyGrown(b, c, {})
    ensures PlainlyGrown(a, c, {})
  {
    hide Reading, Everywhere;
    ClosesWider(|b|, {}, |a|, {}, b, c);
    ClosesAfter(|a|, {}, a, b, c);
    forall i: nat | |a| <= i < |c|
      ensures Everywhere(c[i].op)
    {
      if i < |b| {
        assert c[i] == b[i];
      }
    }
  }

  lemma GivenSeed(ns: Arena, loss: nat, g: nat)
    requires WellFormed(ns) && loss < |ns| && g < |ns| && ns[g].shape == ns[loss].shape
    ensures IsSeed(ns, ns, loss, Option.Some(g), g)
  {
  }

  lemma ConstantSeed(ns: Arena, loss: nat, b: Built)
    requires WellFormed(ns) && loss < |ns| && b == PushConstant(ns, ns[loss].shape, 1.0)
    ensures IsSeed(ns, b.ns, loss, Option.None, b.id)
  {
    hide Values, WellFormed, Numel;
    ConstantGrown(ns, ns[loss].shape, 1.0, Still());
    forall pt: Point | Below(pt, |ns|)
      ensures Values(b.ns, pt)[b.id] == SeedVec(ns, pt, loss, Option.None)
    {
      ConstantGrown(ns, ns[loss].shape, 1.0, pt);
    }
  }

  /**
   * A request that is served: known nodes, and a loss of rank zero or a seed that can be reread at the loss's shape.
   * A one-element loss of rank one is not a scalar.
   */
  ghost predicate Servable(ns: Arena, loss: nat, targets: seq<nat>, gradient: Option<nat>) {
    loss < |ns| && (forall t :: t in targets ==> t < |ns|) &&
    match gradient
    case None => ns[loss].shape == []
    case Some(g) =>
      var s := ns[loss].shape;
      g < |ns| && (targets == [] || Numel(ns[g].shape) == Numel(s) || Broadcast(ns[g].shape, s) == Option.Some(s))
  }

  ghost predicate AllKnown(ns: Arena, targets: seq<nat>) {
    forall t :: t in targets ==> t < |ns|
  }

  ghost predicate EarliestUnknown(ns: Arena, targets: seq<nat>, i: nat) {
    i < |targets| && targets[i] >= |ns| && forall j :: 0 <= j < i ==> targets[j] < |ns|
  }

  /** What an error says of the request it refuses. */
  ghost predicate Explains(ns: Arena, loss: nat, targets: seq<nat>, gradient: Option<nat>, e: GraphError) {
    match e
    case UnknownNode(x) =>
      x >= |ns| && (x == loss || x in targets || gradient == Some(x)) && (loss >= |ns| ==> x == loss) &&
      (loss < |ns| && !AllKnown(ns, targets) ==> exists i: nat :: EarliestUnknown(ns, targets, i) && targets[i] == x)
    case NonScalarLoss(s) => loss < |ns| && AllKnown(ns, targets) && gradient == None && s == ns[loss].shape != []
    case GradientShape(o, u) =>
      loss < |ns| && AllKnown(ns, targets) && gradient.Some? && gradient.value < |ns| && o == ns[loss].shape &&
      u == ns[gradient.value].shape &&
      Numel(u) != Numel(o) && Broadcast(u, o) != Option.Some(o)
    case NoGradient(_) => false
  }

  lemma RefusalIs(ns: Arena, loss: nat, targets: seq<nat>, gradient: Option<nat>)
    ensures Refusal(ns, loss, targets, gradient).None? <==> Servable(ns, loss, targets, gradient)
    ensures var e := Refusal(ns, loss, targets, gradient); e.Some? ==> Explains(ns, loss, targets, gradient, e.value)
  {
    hide Fits, Broadcast, Numel;
    UnknownIn(ns, targets);
    if loss < |ns| && gradient.Some? && gradient.value < |ns| {
      FitsIffBroadcast(ns[gradient.value].shape, ns[loss].shape);
    }
  }

  lemma UnknownIn(ns: Arena, targets: seq<nat>)
    ensures var u := FirstUnknown(ns, targets);
            (u.None? <==> AllKnown(ns, targets)) &&
            (u.Some? ==> exists i: nat :: EarliestUnknown(ns, targets, i) && targets[i] == u.value)
  {
    FoundUnknown(ns, targets);
    if FirstUnknown(ns, targets).None? {
      forall t | t in targets
        ensures t < |ns|
      {
        var k :| 0 <= k < |targets| && targets[k] == t;
      }
    } else {
      var i: nat :| EarliestUnknown(ns, targets, i) && targets[i] == FirstUnknown(ns, targets).value;
      assert targets[i] in targets;
    }
  }

  lemma {:induction false} FoundUnknown(ns: Arena, targets: seq<nat>)
    ensures var u := FirstUnknown(ns, targets);
            u.Some? ==> exists i: nat :: EarliestUnknown(ns, targets, i) && targets[i] == u.value
  {
    if |targets| > 0 {
      if targets[0] < |ns| {
        FoundUnknown(ns, targets[1..]);
        if FirstUnknown(ns, targets).Some? {
          var i: nat :| EarliestUnknown(ns, targets[1..], i) && targets[1..][i] == FirstUnknown(ns, targets).value;
          assert EarliestUnknown(ns, targets, i + 1);
        }
      } else {
        assert EarliestUnknown(ns, targets, 0);
      }
    }
  }

  /**
   * A single-target request that is admitted: known nodes, and a one-element loss or a seed of the loss's own shape.
   */
  ghost predicate StrictlyServable(ns: Arena, loss: nat, wrt: nat, upstream: Option<nat>) {
    loss < |ns| && wrt < |ns| &&
    match upstream
    case None => Numel(ns[loss].shape) == 1
    case Some(g) => g < |ns| && ns[g].shape == ns[loss].shape
  }

  /** What an error of the strict form says of its request; a missing gradient is reported after the sweep only. */
  ghost predicate StrictlyExplains(ns: Arena, loss: nat, wrt: nat, upstream: Option<nat>, e: GraphError) {
    match e
    case UnknownNode(x) =>
      x >= |ns| &&
      x == if loss >= |ns| then loss else if wrt >= |ns| then wrt else if upstream.Some? then upstream.value else 0
    case NonScalarLoss(s) =>
      loss < |ns| && wrt < |ns| && upstream == None && s == ns[loss].shape && Numel(s) != 1
    case GradientShape(o, u) =>
      loss < |ns| && wrt < |ns| && upstream.Some? && upstream.value < |ns| && o == ns[loss].shape &&
      u == ns[upstream.value].shape && o != u
    case NoGradient(_) => false
  }

  lemma StrictRefusalIs(ns: Arena, loss: nat, wrt: nat, upstream: Option<nat>)
    ensures StrictRefusal(ns, loss, wrt, upstream).None? <==> StrictlyServable(ns, loss, wrt, upstream)
    ensures var e := StrictRefusal(ns, loss, wrt, upstream);
            e.Some? ==> StrictlyExplains(ns, loss, wrt, upstream, e.value)
  {
  }

  /** Why a single-target request is refused before its sweep; None when the sweep runs. */
  function StrictRefusal(ns: Arena, loss: nat, wrt: nat, upstream: Option<nat>): Option<GraphError> {
    if loss >= |ns| then Some(UnknownNode(loss))
    else if wrt >= |ns| then Some(UnknownNode(wrt))
    else
      var s := ns[loss].shape;
      match upstream
      case None => if Numel(s) != 1 then Some(NonScalarLoss(s)) else None
      case Some(g) =>
        if g >= |ns| then Some(UnknownNode(g))
        else if ns[g].shape != s then Some(GradientShape(s, ns[g].shape))
        else None
  }

  /** One gradient node per target, the same node for the same target; the old graph is untouched. */
  ghost predicate Delivered(ns: Arena, more: Arena, loss: nat, targets: seq<nat>, gradient: Option<nat>,
                            ids: seq<nat>) {
    |ids| == |targets| && ns <= more && WellFormed(more) &&
    (forall k: nat :: k < |ids| ==> IsGradient(ns, more, loss, targets[k], gradient, ids[k])) &&
    (forall k: nat :: k < |ids| ==> KeepsSmooth(ns, more, loss, gradient, ids[k])) &&
    forall j: nat, k: nat :: j < |ids| && k < |ids| && targets[j] == targets[k] ==> ids[j] == ids[k]
  }

  ghost predicate IsZero(ns: Arena, more: Arena, id: nat, s: Shape) {
    WellFormed(more) && |ns| <= id < |more| && more[id].shape == s &&
    forall pt: Point :: Below(pt, |ns|) ==> AllZero(Values(more, pt)[id])
  }

  lemma SoundParts(ns: Arena, s: Sweep, pt: Point, i: nat)
    requires Sound(ns, s, pt) && i < |ns|
    ensures |s.grads| == |ns| && ns <= s.ns
    ensures s.grads[i].Some? ==> s.grads[i].value < |s.ns| && s.ns[s.grads[i].value].shape == ns[i].shape
  {
  }

  lemma ReinsertedRoom(s: Shape, axes: seq<nat>, k: nat)
    requires Normalized(axes, |s|) && k < |axes|
    ensures axes[k] <= |Reinserted(s, axes, k)|
  {
    ReinsertedPrefix(s, axes, k);
    GapUnreduced(s, axes, k + 1, if k == 0 then 0 else axes[k - 1] + 1);
    UnreducedRun(s, axes, if k == 0 then 0 else axes[k - 1] + 1, axes[k]);
  }

  lemma EmptyFits(s: Shape)
    ensures Fits([], s)
  {
  }

  lemma SpreadFill(s: Shape, x: real)
    ensures Fits([], s) && Gather(OperandMap([], s), Fill(Numel([]), x)) == Fill(Numel(s), x)
  {
  }

  lemma SeedParts(ns: Arena, start: Arena, loss: nat, gradient: Option<nat>, seed: nat)
    requires IsSeed(ns, start, loss, gradient, seed)
    ensures WellFormed(start) && ns <= start && loss < |ns| && seed < |start| && start[seed].shape == ns[loss].shape
  {
  }

  lemma EdgesParts(ns: Arena, root: nat, targets: seq<nat>, active: seq<seq<nat>>)
    requires ActiveEdges(ns, root, targets, active)
    ensures |active| == |ns|
  {
  }

  lemma ZeroFresh(ns: Arena, before: Arena, more: Arena, id: nat, s: Shape)
    requires WellFormed(more) && ns <= before <= more && |before| <= id < |more| && more[id].shape == s
    requires forall pt: Point :: Below(pt, |before|) ==> Values(more, pt)[id] == Fill(Numel(s), 0.0)
    ensures IsZero(ns, more, id, s)
  {
    forall pt: Point | Below(pt, |ns|)
      ensures AllZero(Values(more, pt)[id])
    {
      assert Below(pt, |before|);
    }
  }

  lemma ZerosKept(ns: Arena, before: Arena, more: Arena, zeros: map<nat, nat>)
    requires WellFormed(before) && WellFormed(more) && ns <= before <= more
    requires forall t: nat :: t in zeros ==> t < |ns| && IsZero(ns, before, zeros[t], ns[t].shape)
    ensures forall t: nat :: t in zeros ==> IsZero(ns, more, zeros[t], ns[t].shape)
  {
    forall t: nat | t in zeros
      ensures IsZero(ns, more, zeros[t], ns[t].shape)
    {
      forall pt: Point | Below(pt, |ns|)
        ensures AllZero(Values(more, pt)[zeros[t]])
      {
        ValuesExtend(before, more, pt);
      }
    }
  }

  lemma DeliveredSwept(ns: Arena, start: Arena, loss: nat, gradient: Option<nat>, seed: nat, active: seq<seq<nat>>,
                       targets: seq<nat>, out: Sweep, more: Arena, ids: seq<nat>, zeros: map<nat, nat>)
    requires IsSeed(ns, start, loss, gradient, seed) && ActiveEdges(ns, loss, targets, active)
    requires forall k :: 0 <= k < |targets| ==> targets[k] < |ns|
    requires out == SweepDown(Seeded(start, |ns|, loss, seed), |ns|, active)
    requires Sound(ns, out, Still()) && PlainlyGrown(out.ns, more, {}) && WellFormed(more) && |ids| == |targets|
    requires forall t: nat :: t in zeros ==> t < |ns| && IsZero(ns, more, zeros[t], ns[t].shape)
    requires forall k: nat :: k < |ids| ==>
               if out.grads[targets[k]].Some? then ids[k] == out.grads[targets[k]].value
               else targets[k] in zeros && ids[k] == zeros[targets[k]]
    ensures Delivered(ns, more, loss, targets, gradient, ids)
  {
    hide WellFormed, Values, IsSeed, IsGradient, ActiveEdges, SweepDown, Below, KeepsSmooth, Serves;
    forall k: nat | k < |ids|
      ensures IsGradient(ns, more, loss, targets[k], gradient, ids[k])
      ensures KeepsSmooth(ns, more, loss, gradient, ids[k])
    {
      assert targets[k] in targets;
      ActiveServes(ns, loss, targets, active, targets[k]);
      SweptKeepsSmooth(ns, start, loss, gradient, seed, active, targets[k], more, ids[k]);
      SweptIsGradient(ns, start, loss, gradient, seed, targets, active, targets[k], more, ids[k]);
    }
  }
}
