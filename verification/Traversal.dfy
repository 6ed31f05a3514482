/** Which nodes and edges a reverse traversal keeps, and which gradients a sweep over them creates. */
module Traversal {
  import opened Wrappers
  import opened Shapes
  import opened Vectors
  import opened Graph
  import opened Builders
  import opened Rules
  import opened Reverse
  import opened Closure

  // Chains

  /** The operands a node differentiates: not those of a comparison, nor a condition, nor what a barrier stops. */
  ghost predicate Feeds(op: Op, j: nat) {
    match op
    case Input(_) | Constant(_) | Detach(_) | Compare(_, _, _) => false
    case Binary(_, l, r) => j == l || j == r
    case Select(_, t, f) => j == t || j == f
    case _ => j == op.input
  }

  ghost predicate Chain(ns: Arena, path: seq<nat>, a: nat, b: nat) {
    |path| > 0 && path[0] == a && path[|path| - 1] == b &&
    forall i: nat :: i < |path| - 1 ==> path[i + 1] < path[i] < |ns| && Feeds(ns[path[i]].op, path[i + 1])
  }

  /** A node depends on another exactly when a chain of differentiated operands leads there. */
  lemma ReachesByChain(ns: Arena, a: nat, b: nat)
    ensures Reaches(ns, a, b) <==> exists path: seq<nat> :: Chain(ns, path, a, b)
  {
    if Reaches(ns, a, b) {
      var path := ChainTo(ns, a, b);
    }
    if path: seq<nat> :| Chain(ns, path, a, b) {
      ChainReaches(ns, path, a, b);
    }
  }

  lemma BackwardIs(op: Op, j: nat)
    ensures j in BackwardInputs(op) <==> Feeds(op, j)
  {
  }

  lemma {:induction false} ChainTo(ns: Arena, a: nat, b: nat) returns (path: seq<nat>)
    requires Reaches(ns, a, b)
    ensures Chain(ns, path, a, b)
    decreases a
  {
    if a == b {
      path := [a];
    } else {
      var j :| j in BackwardInputs(ns[a].op) && j < a && Reaches(ns, j, b);
      BackwardIs(ns[a].op, j);
      var rest := ChainTo(ns, j, b);
      path := [a] + rest;
    }
  }

  lemma {:induction false} ChainReaches(ns: Arena, path: seq<nat>, a: nat, b: nat)
    requires Chain(ns, path, a, b)
    ensures Reaches(ns, a, b)
    decreases |path|
  {
    if |path| > 1 {
      var j := path[1];
      assert path[0 + 1] < path[0] < |ns| && Feeds(ns[path[0]].op, path[0 + 1]);
      BackwardIs(ns[a].op, j);
      ChainReaches(ns, path[1..], j, b);
    }
  }

  ghost predicate ReachesAny(ns: Arena, a: nat, targets: seq<nat>) {
    exists t :: t in targets && Reaches(ns, a, t)
  }

  ghost predicate Edge(ns: Arena, i: nat, j: nat) {
    i < |ns| && j in BackwardInputs(ns[i].op)
  }

  /** The active edges of node `i`: those on a chain from the root to a requested target. */
  ghost predicate ActiveAt(ns: Arena, root: nat, targets: seq<nat>, i: nat, edges: seq<nat>) {
    forall j: nat :: j in edges <==> Reaches(ns, root, i) && Edge(ns, i, j) && ReachesAny(ns, j, targets)
  }

  ghost predicate ActiveEdges(ns: Arena, root: nat, targets: seq<nat>, active: seq<seq<nat>>) {
    |active| == |ns| && forall i: nat :: i < |ns| ==> ActiveAt(ns, root, targets, i, active[i])
  }

  lemma ActiveServes(ns: Arena, root: nat, targets: seq<nat>, active: seq<seq<nat>>, at: nat)
    requires ActiveEdges(ns, root, targets, active) && at in targets
    ensures Serves(ns, root, active, at)
  {
    hide Reaches;
    forall i: nat, j: nat | i < |ns| && j in active[i]
      ensures j in BackwardInputs(ns[i].op)
    {
      assert ActiveAt(ns, root, targets, i, active[i]);
    }
    forall i: nat, j: nat | i < |ns| && j in BackwardInputs(ns[i].op) && j !in active[i] && Reaches(ns, root, i)
      ensures !Reaches(ns, j, at)
    {
      assert ActiveAt(ns, root, targets, i, active[i]) && Edge(ns, i, j);
    }
  }

  /** A marking that contains `a` and is closed under backward edges contains all that `a` reaches. */
  lemma {:induction false} ClosedMarking(ns: Arena, marked: seq<bool>, a: nat, i: nat)
    requires WellFormed(ns) && |marked| == |ns| && a < |ns| && marked[a] && Reaches(ns, a, i)
    requires forall n: nat, j: nat :: Edge(ns, n, j) && marked[n] ==> j < |ns| && marked[j]
    ensures i < |ns| && marked[i]
    decreases a
  {
    if a != i {
      var j :| j in BackwardInputs(ns[a].op) && j < a && Reaches(ns, j, i);
      assert Edge(ns, a, j);
      ClosedMarking(ns, marked, j, i);
    }
  }

  lemma ReachesAnyStep(ns: Arena, i: nat, targets: seq<nat>)
    requires WellFormed(ns) && i < |ns|
    ensures ReachesAny(ns, i, targets) <==>
            i in targets || exists j :: j in BackwardInputs(ns[i].op) && ReachesAny(ns, j, targets)
  {
    InputsBelow(ns, i);
    if ReachesAny(ns, i, targets) && i !in targets {
      var t :| t in targets && Reaches(ns, i, t);
      var j :| j in BackwardInputs(ns[i].op) && j < i && Reaches(ns, j, t);
      assert ReachesAny(ns, j, targets);
    }
    if i in targets {
      assert Reaches(ns, i, i);
    } else if j :| j in BackwardInputs(ns[i].op) && ReachesAny(ns, j, targets) {
      var t :| t in targets && Reaches(ns, j, t);
      assert Reaches(ns, i, t);
    }
  }

  /** The operands marked as containing a target, in operand order. */
  function Wanted(inputs: seq<nat>, marked: seq<bool>): (kept: seq<nat>)
    ensures forall j :: j in kept <==> j in inputs && j < |marked| && marked[j]
  {
    if |inputs| == 0 then []
    else
      var last := inputs[|inputs| - 1];
      Wanted(inputs[..|inputs| - 1], marked) + if last < |marked| && marked[last] then [last] else []
  }

  /** Filtering a node's operands by a correct marking of the earlier nodes leaves its active edges. */
  lemma WantedActive(ns: Arena, root: nat, targets: seq<nat>, i: nat, marked: seq<bool>)
    requires WellFormed(ns) && i < |ns| && |marked| == |ns| && Reaches(ns, root, i)
    requires forall j: nat :: j < i && Reaches(ns, root, j) ==> (marked[j] <==> ReachesAny(ns, j, targets))
    ensures ActiveAt(ns, root, targets, i, Wanted(BackwardInputs(ns[i].op), marked))
  {
    hide WellFormed, ReachesAny, Reaches;
    InputsBelow(ns, i);
    forall j: nat | j in BackwardInputs(ns[i].op)
      ensures Reaches(ns, root, j)
    {
      ReachesEdge(ns, root, i, j);
    }
  }

  /** A node contains a target when it is one or keeps an active edge. */
  lemma KeptDecides(ns: Arena, root: nat, targets: seq<nat>, i: nat, kept: seq<nat>)
    requires WellFormed(ns) && i < |ns| && Reaches(ns, root, i) && ActiveAt(ns, root, targets, i, kept)
    ensures ReachesAny(ns, i, targets) <==> i in targets || |kept| > 0
  {
    hide WellFormed, Reaches, ReachesAny;
    ReachesAnyStep(ns, i, targets);
    if |kept| > 0 {
      assert kept[0] in kept;
    }
    if j: nat :| j in BackwardInputs(ns[i].op) && ReachesAny(ns, j, targets) {
      assert Edge(ns, i, j);
    }
  }

  lemma NoneActive(ns: Arena, root: nat, targets: seq<nat>, i: nat)
    requires !Reaches(ns, root, i)
    ensures ActiveAt(ns, root, targets, i, [])
  {
  }

  /** Every marked node's operands are marked or waiting. */
  ghost predicate Frontiered(ns: Arena, marked: seq<bool>, pending: seq<nat>) {
    |marked| == |ns| &&
    forall n: nat, j: nat :: Edge(ns, n, j) && marked[n] ==> (j < |ns| && marked[j]) || j in pending
  }

  lemma InputsReached(ns: Arena, root: nat, i: nat)
    requires WellFormed(ns) && i < |ns| && Reaches(ns, root, i)
    ensures var inputs := BackwardInputs(ns[i].op);
            forall k: nat :: k < |inputs| ==> inputs[k] < |ns| && Reaches(ns, root, inputs[k])
  {
    hide WellFormed;
    var inputs := BackwardInputs(ns[i].op);
    InputsBelow(ns, i);
    forall k: nat | k < |inputs|
      ensures inputs[k] < |ns| && Reaches(ns, root, inputs[k])
    {
      assert inputs[k] in inputs;
      ReachesEdge(ns, root, i, inputs[k]);
    }
  }

  /** Everything waiting to be marked is reached from the root. */
  ghost predicate Waiting(ns: Arena, root: nat, pending: seq<nat>) {
    forall k: nat :: k < |pending| ==> pending[k] < |ns| && Reaches(ns, root, pending[k])
  }

  /** What the worklist keeps: marked and waiting nodes are reached, and nothing below a marked node is lost. */
  ghost predicate Explored(ns: Arena, root: nat, marked: seq<bool>, pending: seq<nat>, unmarked: set<nat>) {
    Waiting(ns, root, pending) && Frontiered(ns, marked, pending) && root < |ns| && (marked[root] || root in pending) &&
    (forall i: nat :: i < |ns| && marked[i] ==> Reaches(ns, root, i)) &&
    forall i: nat :: i in unmarked <==> i < |ns| && !marked[i]
  }

  lemma FrontierStarts(ns: Arena, root: nat, marked: seq<bool>, unmarked: set<nat>)
    requires root < |ns| && |marked| == |ns| && forall i :: 0 <= i < |ns| ==> !marked[i]
    requires forall i: nat :: i in unmarked <==> i < |ns|
    ensures Explored(ns, root, marked, [root], unmarked)
  {
  }

  /** Popping a node keeps the frontier; a node popped for the first time is marked and adds its operands. */
  lemma FrontierStep(ns: Arena, root: nat, marked: seq<bool>, pending: seq<nat>, node: nat, unmarked: set<nat>)
    requires WellFormed(ns) && Explored(ns, root, marked, pending + [node], unmarked)
    ensures node < |ns| == |marked|
    ensures marked[node] ==> Explored(ns, root, marked, pending, unmarked)
    ensures !marked[node] ==>
              node in unmarked &&
              Explored(ns, root, marked[node := true], pending + BackwardInputs(ns[node].op), unmarked - {node})
  {
    hide WellFormed, Reaches;
    var all := pending + [node];
    assert forall k: nat :: k < |pending| ==> pending[k] == all[k];
    assert all[|pending|] == node;
    InputsReached(ns, root, node);
  }

  /** An exhausted worklist has marked exactly the nodes the root depends on. */
  lemma FrontierDone(ns: Arena, root: nat, marked: seq<bool>, unmarked: set<nat>)
    requires WellFormed(ns) && Explored(ns, root, marked, [], unmarked)
    ensures forall i: nat :: i < |ns| ==> (marked[i] <==> Reaches(ns, root, i))
  {
    hide WellFormed, Reaches;
    forall i: nat | i < |ns| && Reaches(ns, root, i)
      ensures marked[i]
    {
      ClosedMarking(ns, marked, root, i);
    }
  }

  // Every node between the root and a target receives a gradient

  lemma CreditKeeps(grads: seq<Option<nat>>, j: nat, b: Built)
    ensures var out := Credit(grads, j, b);
            |out.grads| == |grads| && (j < |grads| ==> out.grads[j].Some?) &&
            forall i :: 0 <= i < |grads| && grads[i].Some? ==> out.grads[i].Some?
  {
  }

  /** A rule credits every active operand it has and takes no gradient away. */
  lemma RouteCredits(s: Sweep, op: Op, node: nat, up: nat, active: seq<nat>)
    ensures var out := Route(s, op, node, up, active);
            |out.grads| == |s.grads| &&
            (forall i :: 0 <= i < |s.grads| && s.grads[i].Some? ==> out.grads[i].Some?) &&
            forall j :: j in active && j in BackwardInputs(op) && j < |s.grads| ==> out.grads[j].Some?
  {
    hide Credit, PushUnbroadcast, PushSelect, LeftRule, RightRule, UnaryRule, LinearRule, PushConstant;
    match op
    case Input(_) =>
    case Constant(_) =>
    case Detach(_) =>
    case Compare(_, _, _) =>
    case Unary(uop, a) => CreditKeeps(s.grads, a, UnaryRule(s.ns, uop, up, node, a));
    case Binary(bop, l, r) =>
      var a := if l in active then LeftRule(s.ns, bop, up, l, r) else Built(s.ns, up);
      var b := if r in active then RightRule(a.ns, bop, up, l, r) else Built(a.ns, up);
      var u := PushUnbroadcast(b.ns, a.id, ShapeOf(b.ns, l));
      CreditKeeps(s.grads, l, u);
      var s1 := if l in active then Credit(s.grads, l, u) else Sweep(b.ns, s.grads);
      CreditKeeps(s1.grads, r, PushUnbroadcast(s1.ns, b.id, ShapeOf(s1.ns, r)));
    case Select(c, t, f) =>
      var zeros := PushConstant(s.ns, ShapeOf(s.ns, up), 0.0);
      var g := PushSelect(zeros.ns, c, up, zeros.id);
      var u := PushUnbroadcast(g.ns, g.id, ShapeOf(g.ns, t));
      CreditKeeps(s.grads, t, u);
      var s1 := if t in active then Credit(s.grads, t, u) else Sweep(zeros.ns, s.grads);
      var h := PushSelect(s1.ns, c, zeros.id, up);
      CreditKeeps(s1.grads, f, PushUnbroadcast(h.ns, h.id, ShapeOf(h.ns, f)));
    case _ => CreditKeeps(s.grads, op.input, LinearRule(s.ns, op, up));
  }

  /** A node other than the root hangs below some node the root depends on. */
  lemma {:induction false} ParentOf(ns: Arena, root: nat, i: nat) returns (parent: nat)
    requires Reaches(ns, root, i) && root != i
    ensures parent < |ns| && i < parent && Reaches(ns, root, parent) && Edge(ns, parent, i)
    decreases root
  {
    var j :| j in BackwardInputs(ns[root].op) && j < root && Reaches(ns, j, i);
    if j == i {
      parent := root;
      assert Reaches(ns, root, root);
    } else {
      parent := ParentOf(ns, j, i);
      assert Reaches(ns, root, parent);
    }
  }

  /** The root has a gradient, and so has every wanted node with a parent at `k` or later. */
  ghost predicate Covered(ns: Arena, root: nat, targets: seq<nat>, grads: seq<Option<nat>>, k: nat) {
    |grads| == |ns| && root < |ns| && grads[root].Some? &&
    forall p: nat, i: nat ::
      k <= p && Reaches(ns, root, p) && Edge(ns, p, i) && i < |ns| && ReachesAny(ns, i, targets) ==>
      grads[i].Some?
  }

  lemma CoveredAt(ns: Arena, root: nat, targets: seq<nat>, grads: seq<Option<nat>>, k: nat, i: nat)
    requires Covered(ns, root, targets, grads, k) && i < |ns| && k <= i + 1
    requires Reaches(ns, root, i) && ReachesAny(ns, i, targets)
    ensures grads[i].Some?
  {
    hide Reaches, ReachesAny, Edge;
    if i != root {
      var p := ParentOf(ns, root, i);
    }
  }

  lemma VisitCovers(ns: Arena, root: nat, targets: seq<nat>, s: Sweep, active: seq<seq<nat>>, k: nat)
    requires WellFormed(ns) && ns <= s.ns && ActiveEdges(ns, root, targets, active) && k < |ns|
    requires Covered(ns, root, targets, s.grads, k + 1)
    ensures Covered(ns, root, targets, Visit(s, k, active).grads, k)
  {
    hide WellFormed, Reaches, ReachesAny, Route;
    if s.grads[k].Some? && |active[k]| > 0 {
      RouteCredits(s, ns[k].op, k, s.grads[k].value, active[k]);
    }
    assert ActiveAt(ns, root, targets, k, active[k]);
    forall i: nat | Reaches(ns, root, k) && Edge(ns, k, i) && i < |ns| && ReachesAny(ns, i, targets)
      ensures i in active[k] && s.grads[k].Some?
    {
      assert i in active[k];
      ReachesAnyStep(ns, k, targets);
      CoveredAt(ns, root, targets, s.grads, k + 1, k);
    }
  }

  lemma {:induction false} SweepCovers(ns: Arena, root: nat, targets: seq<nat>, s: Sweep, active: seq<seq<nat>>, k: nat,
                                       at: nat)
    requires at < |ns| && Aims(ns, Direction(at, Zeros(Numel(ns[at].shape)))) && Serves(ns, root, active, at)
    requires Sound(ns, s, Still()) && Rooted(ns, root, s.grads) && k <= |ns|
    requires ActiveEdges(ns, root, targets, active) && Covered(ns, root, targets, s.grads, k)
    ensures Covered(ns, root, targets, SweepDown(s, k, active).grads, 0)
    decreases k
  {
    hide WellFormed, Values, Tangents, Visit, Sound, Serves, Rooted, Aims, Covered, ActiveEdges, Balance;
    if k > 0 {
      var d := Direction(at, Zeros(Numel(ns[at].shape)));
      SoundGrows(ns, s, Still());
      VisitStep(ns, root, s, k - 1, active, Still(), d);
      VisitCovers(ns, root, targets, s, active, k - 1);
      SweepCovers(ns, root, targets, Visit(s, k - 1, active), active, k - 1, at);
    }
  }

  lemma SoundGrows(ns: Arena, s: Sweep, pt: Point)
    requires Sound(ns, s, pt)
    ensures WellFormed(ns) && ns <= s.ns && WellFormed(s.ns) && |s.grads| == |ns|
  {
  }

  /** A point that feeds nothing and pins nothing: what shape arguments are run at. */
  ghost function Still(): Point {
    Point(map[], map[])
  }

  lemma AtRest(ns: Arena, at: nat)
    requires at < |ns|
    ensures var d := Direction(at, Zeros(Numel(ns[at].shape)));
            Aims(ns, d) && Free(ns, Still(), d) && Below(Still(), |ns|)
  {
  }

  // What a gradient request means

  datatype GraphError =
    | UnknownNode(id: nat)
    | NonScalarLoss(shape: Shape)
    | GradientShape(output: Shape, upstream: Shape)
    | NoGradient(id: nat)

  /** The first requested target that is not a node. */
  function FirstUnknown(ns: Arena, targets: seq<nat>): (r: Option<nat>)
    ensures r.None? <==> forall k :: 0 <= k < |targets| ==> targets[k] < |ns|
  {
    if |targets| == 0 then None
    else if targets[0] >= |ns| then Some(targets[0])
    else FirstUnknown(ns, targets[1..])
  }

  /** Why a multi-target request is refused, earliest check first; None when it is served. */
  function Refusal(ns: Arena, loss: nat, targets: seq<nat>, gradient: Option<nat>): Option<GraphError> {
    if loss >= |ns| then Some(UnknownNode(loss))
    else if FirstUnknown(ns, targets).Some? then Some(UnknownNode(FirstUnknown(ns, targets).value))
    else
      var s := ns[loss].shape;
      match gradient
      case None => if |s| != 0 then Some(NonScalarLoss(s)) else None
      case Some(g) =>
        if g >= |ns| then Some(UnknownNode(g))
        else if |targets| == 0 || Numel(ns[g].shape) == Numel(s) || Fits(ns[g].shape, s) then None
        else Some(GradientShape(s, ns[g].shape))
  }

  /** The seed a served request stands for: ones, or the given gradient reread at the loss's shape. */
  ghost function SeedVec(ns: Arena, pt: Point, loss: nat, gradient: Option<nat>): (y: Vec)
    requires WellFormed(ns) && loss < |ns|
    ensures |y| == Numel(ns[loss].shape)
  {
    var s := ns[loss].shape;
    match gradient
    case None => Fill(Numel(s), 1.0)
    case Some(g) =>
      if g < |ns| && Numel(ns[g].shape) == Numel(s) then Values(ns, pt)[g]
      else if g < |ns| && Fits(ns[g].shape, s) then Operand(ns, Values(ns, pt), g, s)
      else Zeros(Numel(s))
  }

  /** A point at which the target may be moved: only nodes without backward edges are overridden beside it. */
  ghost predicate Admits(ns: Arena, pt: Point, target: nat) {
    Below(pt, |ns|) && forall p :: p in pt.pinned && p != target && p < |ns| ==> BackwardInputs(ns[p].op) == []
  }

  /** At `pt`, node `id` pairs with every direction of the target as the seed pairs with the loss's tangent. */
  ghost predicate AdjointAt(ns: Arena, more: Arena, pt: Point, loss: nat, target: nat, gradient: Option<nat>, id: nat)
    requires WellFormed(ns) && WellFormed(more) && loss < |ns| && target < |ns| && id < |more|
    requires more[id].shape == ns[target].shape
  {
    forall v: Vec :: |v| == Numel(ns[target].shape) ==>
      Dot(Values(more, pt)[id], v) == Dot(SeedVec(ns, pt, loss, gradient), Tangents(ns, pt, Direction(target, v))[loss])
  }

  /** Node `id` of the grown arena is the gradient of the seeded loss at the target, at every point. */
  ghost predicate IsGradient(ns: Arena, more: Arena, loss: nat, target: nat, gradient: Option<nat>, id: nat) {
    WellFormed(ns) && WellFormed(more) && ns <= more && loss < |ns| && target < |ns| && id < |more| &&
    more[id].shape == ns[target].shape &&
    forall pt: Point :: Admits(ns, pt, target) ==> AdjointAt(ns, more, pt, loss, target, gradient, id)
  }

  /** An operation that is differentiable wherever its operands are, and follows them. */
  predicate Everywhere(op: Op) {
    match op
    case Unary(u, _) => u == Neg || u == Square
    case Binary(b, _, _) => b != Div
    case Compare(_, _, _) => false
    case Select(_, _, _) => false
    case Detach(_) => false
    case _ => true
  }

  /** The appended nodes are such operations, and read only each other and the nodes `from`. */
  ghost predicate PlainlyGrown(ns: Arena, more: Arena, from: set<nat>) {
    Closes(|ns|, from, ns, more) && forall i: nat :: |ns| <= i < |more| ==> Everywhere(more[i].op)
  }

  /** The original node that a seed is computed from. */
  function SeedSource(gradient: Option<nat>): set<nat> {
    match gradient
    case None => {}
    case Some(g) => {g}
  }

  /** `start` extends `ns` by nodes that compute the seed of the request. */
  ghost predicate IsSeed(ns: Arena, start: Arena, loss: nat, gradient: Option<nat>, seed: nat) {
    PlainlyGrown(ns, start, SeedSource(gradient)) && Within(|ns|, SeedSource(gradient), seed) &&
    WellFormed(ns) && WellFormed(start) && ns <= start && loss < |ns| && seed < |start| &&
    start[seed].shape == ns[loss].shape &&
    forall pt: Point :: Below(pt, |ns|) ==> Values(start, pt)[seed] == SeedVec(ns, pt, loss, gradient)
  }

  /** What a sweep leaves at one requested target, a zero where nothing was credited, is its gradient. */
  lemma SweptIsGradient(ns: Arena, start: Arena, loss: nat, gradient: Option<nat>, seed: nat, targets: seq<nat>,
                        active: seq<seq<nat>>, target: nat, more: Arena, id: nat)
    requires IsSeed(ns, start, loss, gradient, seed) && ActiveEdges(ns, loss, targets, active)
    requires target in targets && target < |ns| && WellFormed(more) && id < |more|
    requires more[id].shape == ns[target].shape
    requires var out := SweepDown(Seeded(start, |ns|, loss, seed), |ns|, active);
             out.ns <= more && WellFormed(out.ns) && |out.grads| == |ns| &&
             (out.grads[target] == Some(id) ||
              (out.grads[target].None? && forall pt: Point :: Below(pt, |ns|) ==> AllZero(Values(more, pt)[id])))
    ensures IsGradient(ns, more, loss, target, gradient, id)
  {
    hide WellFormed, Values, Tangents, Sound, Serves, ActiveEdges, Dot, SweepDown, SeedVec, GradientAt, Admits;
    var out := SweepDown(Seeded(start, |ns|, loss, seed), |ns|, active);
    ActiveServes(ns, loss, targets, active, target);
    assert ns <= more by {
      AtRest(ns, target);
      SweepIsAdjoint(ns, start, loss, seed, active, Still(), Direction(target, Zeros(Numel(ns[target].shape))));
      SoundGrows(ns, out, Still());
    }
    forall pt: Point | Admits(ns, pt, target)
      ensures AdjointAt(ns, more, pt, loss, target, gradient, id)
    {
      SweptAdjointAt(ns, start, loss, gradient, seed, active, target, more, id, pt);
    }
  }

  lemma SweptAdjointAt(ns: Arena, start: Arena, loss: nat, gradient: Option<nat>, seed: nat,
                       active: seq<seq<nat>>, target: nat, more: Arena, id: nat, pt: Point)
    requires IsSeed(ns, start, loss, gradient, seed) && Serves(ns, loss, active, target) && Admits(ns, pt, target)
    requires target < |ns| && WellFormed(more) && id < |more| && more[id].shape == ns[target].shape
    requires var out := SweepDown(Seeded(start, |ns|, loss, seed), |ns|, active);
             out.ns <= more && WellFormed(out.ns) && |out.grads| == |ns| &&
             (out.grads[target] == Some(id) ||
              (out.grads[target].None? && forall pt: Point :: Below(pt, |ns|) ==> AllZero(Values(more, pt)[id])))
    ensures AdjointAt(ns, more, pt, loss, target, gradient, id)
  {
    hide WellFormed, Values, Tangents, Serves, Dot, SweepDown, SeedVec;
    var out := SweepDown(Seeded(start, |ns|, loss, seed), |ns|, active);
    ValuesExtend(out.ns, more, pt);
    forall v: Vec | |v| == Numel(ns[target].shape)
      ensures Dot(Values(more, pt)[id], v) ==
              Dot(SeedVec(ns, pt, loss, gradient), Tangents(ns, pt, Direction(target, v))[loss])
    {
      SweepIsAdjoint(ns, start, loss, seed, active, pt, Direction(target, v));
      assert GradientAt(ns, out, pt, target) == Values(more, pt)[id];
    }
  }

  /** A multi-target sweep gives a target a gradient exactly when the root depends on it. */
  lemma GradientIffReached(ns: Arena, start: Arena, root: nat, seed: nat, targets: seq<nat>, active: seq<seq<nat>>,
                           at: nat)
    requires WellFormed(ns) && WellFormed(start) && ns <= start && root < |ns| && seed < |start|
    requires start[seed].shape == ns[root].shape && ActiveEdges(ns, root, targets, active) && at in targets && at < |ns|
    ensures var out := SweepDown(Seeded(start, |ns|, root, seed), |ns|, active);
            |out.grads| == |ns| && (out.grads[at].Some? <==> Reaches(ns, root, at))
  {
    hide WellFormed, Values, Tangents, Sound, Serves, Rooted, Aims, Covered, ActiveEdges, Balance, SweepDown;
    var s := Seeded(start, |ns|, root, seed);
    var d := Direction(at, Zeros(Numel(ns[at].shape)));
    AtRest(ns, at);
    ActiveServes(ns, root, targets, active, at);
    StartBalance(ns, start, root, seed, Still(), d);
    SweepBalance(ns, root, s, |ns|, active, Still(), d);
    StartCovered(ns, root, targets, s);
    SweepCovers(ns, root, targets, s, active, |ns|, at);
    EndCovered(ns, root, targets, SweepDown(s, |ns|, active), at);
  }

  lemma StartCovered(ns: Arena, root: nat, targets: seq<nat>, s: Sweep)
    requires root < |ns| && |s.grads| == |ns| && s.grads[root].Some?
    ensures Covered(ns, root, targets, s.grads, |ns|)
  {
  }

  lemma EndCovered(ns: Arena, root: nat, targets: seq<nat>, s: Sweep, at: nat)
    requires Covered(ns, root, targets, s.grads, 0) && Rooted(ns, root, s.grads) && at in targets && at < |ns|
    ensures |s.grads| == |ns|
    ensures s.grads[at].Some? <==> Reaches(ns, root, at)
  {
    if Reaches(ns, root, at) {
      assert Reaches(ns, at, at);
      assert ReachesAny(ns, at, targets);
      CoveredAt(ns, root, targets, s.grads, 0, at);
    }
  }
}
