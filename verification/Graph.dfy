/** The append-only graph arena, its real-number evaluation and its forward-mode tangents. */
module Graph {
  import opened Shapes
  import opened Axes
  import opened Vectors

  datatype UnaryOp = Neg | Reciprocal | Square | Relu | Step

  datatype BinaryOp = Add | Sub | Mul | Div

  datatype CompareOp = Eq | Ne | Lt | Le | Gt | Ge

  datatype Op =
    | Input(name: string)
    | Constant(data: Vec)
    | Detach(input: nat)
    | Contiguous(input: nat)
    | Unary(uop: UnaryOp, input: nat)
    | Binary(bop: BinaryOp, lhs: nat, rhs: nat)
    | Compare(cop: CompareOp, lhs: nat, rhs: nat)
    | Select(condition: nat, onTrue: nat, onFalse: nat)
    | Sum(input: nat, axes: seq<nat>, keepdim: bool)
    | SumTo(input: nat)
    | Reshape(input: nat)
    | Permute(input: nat, axes: seq<nat>)
    | Expand(input: nat)

  /** The shape argument of Reshape, Expand and SumTo is the node's own shape. */
  datatype Node = Node(op: Op, shape: Shape)

  type Arena = seq<Node>

  /** `n` applies an operation linear in its one operand, whose shape is `s`. */
  ghost predicate LinearOk(s: Shape, n: Node) {
    match n.op
    case Contiguous(_) => s == n.shape
    case Sum(_, axes, keepdim) => Normalized(axes, |s|) && n.shape == ReducedShape(s, axes, keepdim)
    case SumTo(_) => Fits(n.shape, s)
    case Reshape(_) => Numel(n.shape) == Numel(s)
    case Permute(_, axes) => Permutes(axes, |s|) && n.shape == Permuted(s, axes)
    case Expand(_) => Fits(s, n.shape)
    case _ => false
  }

  /** The shape-checked form every builder leaves behind; operands precede their user. */
  ghost predicate NodeOk(ns: Arena, n: Node) {
    match n.op
    case Input(_) => true
    case Constant(data) => |data| == Numel(n.shape)
    case Detach(a) => a < |ns| && ns[a].shape == n.shape
    case Unary(_, a) => a < |ns| && ns[a].shape == n.shape
    case Binary(_, a, b) => a < |ns| && b < |ns| && Fits(ns[a].shape, n.shape) && Fits(ns[b].shape, n.shape)
    case Compare(_, a, b) => a < |ns| && b < |ns| && Fits(ns[a].shape, n.shape) && Fits(ns[b].shape, n.shape)
    case Select(c, t, f) =>
      c < |ns| && t < |ns| && f < |ns| &&
      Fits(ns[c].shape, n.shape) && Fits(ns[t].shape, n.shape) && Fits(ns[f].shape, n.shape)
    case _ => n.op.input < |ns| && LinearOk(ns[n.op.input].shape, n)
  }

  ghost predicate WellFormed(ns: Arena) {
    |ns| == 0 || (WellFormed(ns[..|ns| - 1]) && NodeOk(ns[..|ns| - 1], ns[|ns| - 1]))
  }

  lemma {:induction false} WellFormedPrefix(ns: Arena, k: nat)
    requires WellFormed(ns) && k <= |ns|
    ensures WellFormed(ns[..k])
    ensures k < |ns| ==> NodeOk(ns[..k], ns[k])
  {
    if k < |ns| - 1 {
      WellFormedPrefix(ns[..|ns| - 1], k);
      assert ns[..|ns| - 1][..k] == ns[..k];
    } else {
      assert ns[..|ns|] == ns;
    }
  }

  lemma WellFormedPush(ns: Arena, n: Node)
    requires WellFormed(ns) && NodeOk(ns, n)
    ensures WellFormed(ns + [n])
  {
    assert (ns + [n])[..|ns|] == ns;
  }

  // Elementwise meaning of the operations. Reciprocal is total: zero maps to zero.

  function Recip(x: real): real {
    if x == 0.0 then 0.0 else 1.0 / x
  }

  function Flag(b: bool): real {
    if b then 1.0 else 0.0
  }

  function UnaryValue(op: UnaryOp, x: real): real {
    match op
    case Neg => -x
    case Reciprocal => Recip(x)
    case Square => x * x
    case Relu => if x > 0.0 then x else 0.0
    case Step => Flag(x > 0.0)
  }

  function UnarySlope(op: UnaryOp, x: real): real {
    match op
    case Neg => -1.0
    case Reciprocal => -(Recip(x) * Recip(x))
    case Square => 2.0 * x
    case Relu => Flag(x > 0.0)
    case Step => 0.0
  }

  function BinaryValue(op: BinaryOp, a: real, b: real): real {
    match op
    case Add => a + b
    case Sub => a - b
    case Mul => a * b
    case Div => a * Recip(b)
  }

  function LeftSlope(op: BinaryOp, a: real, b: real): real {
    match op
    case Add => 1.0
    case Sub => 1.0
    case Mul => b
    case Div => Recip(b)
  }

  function RightSlope(op: BinaryOp, a: real, b: real): real {
    match op
    case Add => 1.0
    case Sub => -1.0
    case Mul => a
    case Div => -(a * Recip(b * b))
  }

  function CompareValue(op: CompareOp, a: real, b: real): real {
    match op
    case Eq => Flag(a == b)
    case Ne => Flag(a != b)
    case Lt => Flag(a < b)
    case Le => Flag(a <= b)
    case Gt => Flag(a > b)
    case Ge => Flag(a >= b)
  }

  function UnaryVec(op: UnaryOp, x: Vec): (y: Vec)
    ensures |y| == |x| && forall k :: 0 <= k < |y| ==> y[k] == UnaryValue(op, x[k])
  {
    seq(|x|, k requires 0 <= k < |x| => UnaryValue(op, x[k]))
  }

  function UnaryTangent(op: UnaryOp, x: Vec, t: Vec): (y: Vec)
    requires |t| == |x|
    ensures |y| == |x| && forall k :: 0 <= k < |y| ==> y[k] == Times(UnarySlope(op, x[k]), t[k])
  {
    seq(|x|, k requires 0 <= k < |x| => Times(UnarySlope(op, x[k]), t[k]))
  }

  function BinaryVec(op: BinaryOp, a: Vec, b: Vec): (y: Vec)
    requires |a| == |b|
    ensures |y| == |a| && forall k :: 0 <= k < |y| ==> y[k] == BinaryValue(op, a[k], b[k])
  {
    seq(|a|, k requires 0 <= k < |a| => BinaryValue(op, a[k], b[k]))
  }

  function BinaryTangent(op: BinaryOp, a: Vec, b: Vec, s: Vec, t: Vec): (y: Vec)
    requires |a| == |b| == |s| == |t|
    ensures |y| == |a|
    ensures forall k :: 0 <= k < |y| ==>
              y[k] == Times(LeftSlope(op, a[k], b[k]), s[k]) + Times(RightSlope(op, a[k], b[k]), t[k])
  {
    seq(|a|, k requires 0 <= k < |a| =>
      Times(LeftSlope(op, a[k], b[k]), s[k]) + Times(RightSlope(op, a[k], b[k]), t[k]))
  }

  function CompareVec(op: CompareOp, a: Vec, b: Vec): (y: Vec)
    requires |a| == |b|
    ensures |y| == |a| && forall k :: 0 <= k < |y| ==> y[k] == CompareValue(op, a[k], b[k])
  {
    seq(|a|, k requires 0 <= k < |a| => CompareValue(op, a[k], b[k]))
  }

  function SelectVec(c: Vec, t: Vec, f: Vec): (y: Vec)
    requires |c| == |t| == |f|
    ensures |y| == |c| && forall k :: 0 <= k < |y| ==> y[k] == if c[k] != 0.0 then t[k] else f[k]
  {
    seq(|c|, k requires 0 <= k < |c| => if c[k] != 0.0 then t[k] else f[k])
  }

  /** One vector per node, each of its node's element count. */
  ghost predicate Sized(ns: Arena, vs: seq<Vec>) {
    |vs| == |ns| && forall i :: 0 <= i < |ns| ==> |vs[i]| == Numel(ns[i].shape)
  }

  /** Operand `a` read at every element of an output of shape `s`. */
  ghost function Operand(ns: Arena, vs: seq<Vec>, a: nat, s: Shape): (y: Vec)
    requires Sized(ns, vs) && a < |ns| && Fits(ns[a].shape, s)
    ensures |y| == Numel(s)
  {
    Gather(OperandMap(ns[a].shape, s), vs[a])
  }

  /** Summing `x` of shape `outer` down to `inner`. */
  ghost function SumDown(inner: Shape, outer: Shape, x: Vec): (y: Vec)
    requires Fits(inner, outer) && |x| == Numel(outer)
    ensures |y| == Numel(inner)
  {
    Scatter(OperandMap(inner, outer), x, Numel(inner))
  }

  /** A linear operation applied to any operand vector. */
  ghost function Linear(s: Shape, n: Node, x: Vec): (y: Vec)
    requires LinearOk(s, n) && |x| == Numel(s)
    ensures |y| == Numel(n.shape)
  {
    match n.op
    case Sum(_, axes, keepdim) =>
      KeptFits(s, axes);
      ReducedNumel(s, axes, keepdim);
      SumDown(Kept(s, axes), s, x)
    case SumTo(_) => SumDown(n.shape, s, x)
    case Permute(_, axes) => Gather(PermuteMap(s, axes), x)
    case Expand(_) => Gather(OperandMap(s, n.shape), x)
    case _ => x
  }

  ghost function Feed(feeds: map<string, Vec>, name: string, n: nat): (v: Vec)
    ensures |v| == n
  {
    if name in feeds && |feeds[name]| == n then feeds[name] else Zeros(n)
  }

  ghost function Evaluate(ns: Arena, n: Node, vs: seq<Vec>, feeds: map<string, Vec>): (y: Vec)
    requires NodeOk(ns, n) && Sized(ns, vs)
    ensures |y| == Numel(n.shape)
  {
    match n.op
    case Input(name) => Feed(feeds, name, Numel(n.shape))
    case Constant(data) => data
    case Detach(a) => vs[a]
    case Unary(op, a) => UnaryVec(op, vs[a])
    case Binary(op, a, b) => BinaryVec(op, Operand(ns, vs, a, n.shape), Operand(ns, vs, b, n.shape))
    case Compare(op, a, b) => CompareVec(op, Operand(ns, vs, a, n.shape), Operand(ns, vs, b, n.shape))
    case Select(c, t, f) =>
      SelectVec(Operand(ns, vs, c, n.shape), Operand(ns, vs, t, n.shape), Operand(ns, vs, f, n.shape))
    case _ => Linear(ns[n.op.input].shape, n, vs[n.op.input])
  }

  /** Input tensors by name, and interior nodes whose value is replaced outright. */
  datatype Point = Point(feeds: map<string, Vec>, pinned: map<nat, Vec>)

  ghost predicate Pinned(pt: Point, i: nat, n: Node) {
    i in pt.pinned && |pt.pinned[i]| == Numel(n.shape)
  }

  /** The value of every node. */
  ghost function Values(ns: Arena, pt: Point): (vs: seq<Vec>)
    requires WellFormed(ns)
    ensures Sized(ns, vs)
  {
    if |ns| == 0 then []
    else
      var k := |ns| - 1;
      var vs := Values(ns[..k], pt);
      vs + [if Pinned(pt, k, ns[k]) then pt.pinned[k] else Evaluate(ns[..k], ns[k], vs, pt.feeds)]
  }

  /** One step of forward-mode differentiation; Detach, Compare and the leaves carry no tangent. */
  ghost function Differentiate(ns: Arena, n: Node, vs: seq<Vec>, ts: seq<Vec>): (y: Vec)
    requires NodeOk(ns, n) && Sized(ns, vs) && Sized(ns, ts)
    ensures |y| == Numel(n.shape)
  {
    match n.op
    case Input(_) => Zeros(Numel(n.shape))
    case Constant(_) => Zeros(Numel(n.shape))
    case Detach(_) => Zeros(Numel(n.shape))
    case Compare(_, _, _) => Zeros(Numel(n.shape))
    case Unary(op, a) => UnaryTangent(op, vs[a], ts[a])
    case Binary(op, a, b) =>
      BinaryTangent(op, Operand(ns, vs, a, n.shape), Operand(ns, vs, b, n.shape),
                    Operand(ns, ts, a, n.shape), Operand(ns, ts, b, n.shape))
    case Select(c, t, f) =>
      SelectVec(Operand(ns, vs, c, n.shape), Operand(ns, ts, t, n.shape), Operand(ns, ts, f, n.shape))
    case _ => Linear(ns[n.op.input].shape, n, ts[n.op.input])
  }

  /** The independent variable of a derivative: node `at` moves in direction `v`. */
  datatype Direction = Direction(at: nat, v: Vec)

  ghost predicate Aims(ns: Arena, d: Direction) {
    d.at < |ns| ==> |d.v| == Numel(ns[d.at].shape)
  }

  /** The forward-mode tangent of every node, dual-number style, along direction `d`. */
  ghost function Tangents(ns: Arena, pt: Point, d: Direction): (ts: seq<Vec>)
    requires WellFormed(ns) && Aims(ns, d)
    ensures Sized(ns, ts)
  {
    hide Values, Differentiate, NodeOk, Pinned;
    if |ns| == 0 then []
    else
      var k := |ns| - 1;
      var ts := Tangents(ns[..k], pt, d);
      ts + [if k == d.at then d.v
            else if Pinned(pt, k, ns[k]) then Zeros(Numel(ns[k].shape))
            else Differentiate(ns[..k], ns[k], Values(ns[..k], pt), ts)]
  }

  lemma {:induction false} ValuesPrefix(ns: Arena, pt: Point, k: nat)
    requires WellFormed(ns) && k <= |ns|
    ensures WellFormed(ns[..k]) && Values(ns[..k], pt) == Values(ns, pt)[..k]
  {
    hide Evaluate, Differentiate;
    WellFormedPrefix(ns, k);
    if k < |ns| {
      ValuesPrefix(ns[..|ns| - 1], pt, k);
      assert ns[..|ns| - 1][..k] == ns[..k];
    } else {
      assert ns[..k] == ns;
    }
  }

  /** Old nodes keep their values when the arena grows. */
  lemma ValuesExtend(ns: Arena, more: Arena, pt: Point)
    requires WellFormed(ns) && WellFormed(more) && ns <= more
    ensures Values(ns, pt) <= Values(more, pt)
  {
    ValuesPrefix(more, pt, |ns|);
    assert more[..|ns|] == ns;
  }

  lemma ValueAt(ns: Arena, pt: Point, i: nat)
    requires WellFormed(ns) && i < |ns|
    ensures NodeOk(ns[..i], ns[i]) && Sized(ns[..i], Values(ns, pt)[..i])
    ensures Values(ns, pt)[i] ==
            if Pinned(pt, i, ns[i]) then pt.pinned[i]
            else Evaluate(ns[..i], ns[i], Values(ns, pt)[..i], pt.feeds)
  {
    hide Evaluate, Differentiate;
    WellFormedPrefix(ns, i);
    ValuesPrefix(ns, pt, i);
    ValuesPrefix(ns, pt, i + 1);
    assert ns[..i + 1][..i] == ns[..i];
    assert Values(ns, pt)[i] == Values(ns, pt)[..i + 1][i];
  }

  lemma {:induction false} TangentsPrefix(ns: Arena, pt: Point, d: Direction, k: nat)
    requires WellFormed(ns) && Aims(ns, d) && k <= |ns|
    ensures WellFormed(ns[..k]) && Tangents(ns[..k], pt, d) == Tangents(ns, pt, d)[..k]
  {
    hide Evaluate, Differentiate, Values, NodeOk, Pinned;
    WellFormedPrefix(ns, k);
    if k < |ns| {
      TangentsPrefix(ns[..|ns| - 1], pt, d, k);
      assert ns[..|ns| - 1][..k] == ns[..k];
    } else {
      assert ns[..k] == ns;
    }
  }

  lemma TangentAt(ns: Arena, pt: Point, d: Direction, i: nat)
    requires WellFormed(ns) && Aims(ns, d) && i < |ns|
    ensures NodeOk(ns[..i], ns[i])
    ensures Sized(ns[..i], Values(ns, pt)[..i]) && Sized(ns[..i], Tangents(ns, pt, d)[..i])
    ensures Tangents(ns, pt, d)[i] ==
            if i == d.at then d.v
            else if Pinned(pt, i, ns[i]) then Zeros(Numel(ns[i].shape))
            else Differentiate(ns[..i], ns[i], Values(ns, pt)[..i], Tangents(ns, pt, d)[..i])
  {
    hide Evaluate, Differentiate;
    WellFormedPrefix(ns, i);
    ValuesPrefix(ns, pt, i);
    TangentsPrefix(ns, pt, d, i);
    TangentsPrefix(ns, pt, d, i + 1);
    assert ns[..i + 1][..i] == ns[..i];
    assert Tangents(ns, pt, d)[i] == Tangents(ns, pt, d)[..i + 1][i];
  }
}
