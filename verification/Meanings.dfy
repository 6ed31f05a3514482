/** What shapes join to and what every operation computes, element by element, at coordinates. */
module Meanings {
  import opened Wrappers
  import opened Shapes
  import opened Axes
  import opened Vectors
  import opened Graph

  // Broadcasting, from the right

  /** The extent `j` places from the right end, or one beyond the left end. */
  function FromRight(s: Shape, j: nat): nat {
    if j < |s| then s[|s| - 1 - j] else 1
  }

  /** Extents that meet, counted from the right: equal, or one of them a one. */
  ghost predicate Meet(a: Shape, b: Shape, j: nat) {
    FromRight(a, j) == FromRight(b, j) || FromRight(a, j) == 1 || FromRight(b, j) == 1
  }

  /**
   * Shapes join exactly when all their extents meet, and then to the longer rank with the other extent beside a one.
   */
  lemma BroadcastFromRight(a: Shape, b: Shape)
    ensures Broadcast(a, b).Some? <==> forall j: nat :: j < |a| || j < |b| ==> Meet(a, b, j)
    ensures Broadcast(a, b).Some? ==>
              var out := Broadcast(a, b).value;
              |out| == (if |a| < |b| then |b| else |a|) &&
              forall j: nat :: j < |out| ==>
                FromRight(out, j) == if FromRight(a, j) == 1 then FromRight(b, j) else FromRight(a, j)
  {
    var rank := Max(|a|, |b|);
    forall j: nat | j < rank
      ensures Aligned(a, rank, rank - 1 - j) == FromRight(a, j) && Aligned(b, rank, rank - 1 - j) == FromRight(b, j)
    {
    }
    forall i: nat | i < rank
      ensures Aligned(a, rank, i) == FromRight(a, rank - 1 - i) && Aligned(b, rank, i) == FromRight(b, rank - 1 - i)
    {
    }
    if Broadcast(a, b).Some? {
      forall j: nat | j < |a| || j < |b|
        ensures Meet(a, b, j)
      {
        assert Aligned(a, rank, rank - 1 - j) == FromRight(a, j);
      }
    } else {
      var i: nat :| i < rank && Aligned(a, rank, i) != Aligned(b, rank, i) && Aligned(a, rank, i) != 1 &&
        Aligned(b, rank, i) != 1;
      assert !Meet(a, b, rank - 1 - i);
    }
  }

  /**
   * An operand element of output coordinate `c`: axes align at the right, and an extent of one is always read at zero.
   */
  lemma OperandFromRight(inner: Shape, outer: Shape, c: seq<nat>, d: seq<nat>)
    requires Fits(inner, outer) && InRange(outer, c) && |d| == |inner|
    requires forall j: nat :: j < |d| ==> FromRight(d, j) == if FromRight(inner, j) == 1 then 0 else FromRight(c, j)
    ensures InRange(inner, d) && Offset(outer, c) < Numel(outer)
    ensures OperandMap(inner, outer)[Offset(outer, c)] == Offset(inner, d)
  {
    hide Offset, Numel, Coords, OperandCoords;
    CoordsOfOffset(outer, c);
    OperandCoordsFromRight(inner, outer, c, d);
    MapAt(inner, outer, c);
  }

  lemma MapAt(inner: Shape, outer: Shape, c: seq<nat>)
    requires Fits(inner, outer) && InRange(outer, c) && Offset(outer, c) < Numel(outer)
    requires Coords(outer, Offset(outer, c)) == c
    ensures OperandMap(inner, outer)[Offset(outer, c)] == Offset(inner, OperandCoords(inner, outer, c))
  {
    hide Offset, Numel, Coords, OperandCoords;
  }

  lemma OperandCoordsFromRight(inner: Shape, outer: Shape, c: seq<nat>, d: seq<nat>)
    requires Fits(inner, outer) && InRange(outer, c) && |d| == |inner|
    requires forall j: nat :: j < |d| ==> FromRight(d, j) == if FromRight(inner, j) == 1 then 0 else FromRight(c, j)
    ensures InRange(inner, d) && OperandCoords(inner, outer, c) == d
  {
    var r := OperandCoords(inner, outer, c);
    forall i: nat | i < |d|
      ensures d[i] == r[i]
    {
      assert d[i] == FromRight(d, |d| - 1 - i);
    }
    assert d == r;
  }

  // Permutation

  /** Axis `i` of a permuted tensor is axis `axes[i]` of its operand. */
  lemma PermuteReads(s: Shape, axes: seq<nat>, x: Vec, c: seq<nat>, d: seq<nat>)
    requires Permutes(axes, |s|) && |x| == Numel(s) && InRange(s, d) && |c| == |s|
    requires forall i :: 0 <= i < |s| ==> c[i] == d[axes[i]]
    ensures var out := Permuted(s, axes);
            |out| == |s| && (forall i :: 0 <= i < |s| ==> out[i] == s[axes[i]]) && InRange(out, c) &&
            Offset(out, c) < Numel(out) && Offset(s, d) < Numel(s) &&
            Gather(PermuteMap(s, axes), x)[Offset(out, c)] == x[Offset(s, d)]
  {
    hide Offset, Numel;
    var out := Permuted(s, axes);
    CoordsOfOffset(out, c);
    OffsetBound(s, d);
    var e := SourceCoords(s, axes, c);
    forall a: nat | a < |s|
      ensures e[a] == d[a]
    {
      assert axes[Inverse(axes)[a]] == a;
    }
    assert e == d;
  }

  // Operations

  lemma UnaryMeans(op: UnaryOp, x: real)
    ensures var y := UnaryValue(op, x);
            match op
            case Neg => x + y == 0.0
            case Reciprocal => x != 0.0 ==> x * y == 1.0
            case Square => y == x * x
            case Relu => y == if x > 0.0 then x else 0.0
            case Step => y == if x > 0.0 then 1.0 else 0.0
  {
  }

  lemma BinaryMeans(op: BinaryOp, a: real, b: real)
    ensures var y := BinaryValue(op, a, b);
            match op
            case Add => y == a + b
            case Sub => y + b == a
            case Mul => y == a * b
            case Div => b != 0.0 ==> y * b == a
  {
    if op == Div && b != 0.0 {
      Quotient(a, b, 1.0 / b);
    }
  }

  lemma Quotient(a: real, b: real, r: real)
    requires b * r == 1.0
    ensures (a * r) * b == a
  {
    assert (a * r) * b == a * (b * r);
  }

  lemma CompareMeans(op: CompareOp, a: real, b: real)
    ensures CompareValue(op, a, b) ==
            if (match op
                case Eq => a == b case Ne => a != b case Lt => a < b case Le => a <= b case Gt => a > b
                  case Ge => a >= b)
            then 1.0 else 0.0
  {
  }

  /** At a kink the reverse rules use the slope on the left. */
  lemma KinkSlopes()
    ensures UnarySlope(Relu, 0.0) == 0.0 && UnarySlope(Step, 0.0) == 0.0
  {
  }

  /** Element `k` of an operand, read at the node's shape. */
  ghost function Reads(ns: Arena, pt: Point, a: nat, s: Shape, k: nat): real
    requires WellFormed(ns) && a < |ns| && Fits(ns[a].shape, s) && k < Numel(s)
  {
    Values(ns, pt)[a][OperandMap(ns[a].shape, s)[k]]
  }

  ghost predicate Computes(ns: Arena, pt: Point, op: Op, s: Shape, k: nat, y: real)
    requires WellFormed(ns) && NodeOk(ns, Node(op, s)) && k < Numel(s)
  {
    match op
    case Unary(u, a) => y == UnaryValue(u, Values(ns, pt)[a][k])
    case Binary(b, l, r) => y == BinaryValue(b, Reads(ns, pt, l, s, k), Reads(ns, pt, r, s, k))
    case Compare(c, l, r) => y == CompareValue(c, Reads(ns, pt, l, s, k), Reads(ns, pt, r, s, k))
    case Select(c, t, f) =>
      y == if Reads(ns, pt, c, s, k) != 0.0 then Reads(ns, pt, t, s, k) else Reads(ns, pt, f, s, k)
    case Detach(a) => y == Values(ns, pt)[a][k]
    case Constant(data) => y == data[k]
    case Contiguous(a) => y == Values(ns, pt)[a][k]
    case Reshape(a) => y == Values(ns, pt)[a][k]
    case Expand(a) => y == Reads(ns, pt, a, s, k)
    case Input(name) => name in pt.feeds && |pt.feeds[name]| == Numel(s) ==> y == pt.feeds[name][k]
    case _ => true
  }

  /** What every node but a reduction or permutation computes from its operands, left before right. */
  lemma NodeComputes(ns: Arena, pt: Point, i: nat, k: nat)
    requires WellFormed(ns) && i < |ns| && i !in pt.pinned && k < Numel(ns[i].shape)
    ensures NodeOk(ns, ns[i])
    ensures Computes(ns, pt, ns[i].op, ns[i].shape, k, Values(ns, pt)[i][k])
  {
    hide Values, WellFormed, OperandMap, UnaryValue, BinaryValue, CompareValue, Permuted, Kept, ReducedShape, Numel,
      PermuteMap, SumDown;
    ValueAt(ns, pt, i);
    NodeKept(ns, i);
  }

  lemma NodeKept(ns: Arena, i: nat)
    requires i < |ns| && NodeOk(ns[..i], ns[i])
    ensures NodeOk(ns, ns[i])
  {
    hide LinearOk, Fits;
  }

  /** A gradient barrier passes its operand's value on and stops every tangent. */
  lemma BarrierStops(ns: Arena, pt: Point, d: Direction, i: nat)
    requires WellFormed(ns) && Aims(ns, d) && i < |ns| && i != d.at && ns[i].op.Detach?
    ensures Tangents(ns, pt, d)[i] == Zeros(Numel(ns[i].shape))
  {
    hide Values, Tangents, WellFormed;
    TangentAt(ns, pt, d, i);
  }

  // Reductions

  /** Shapes are reduced axis by axis: a reduced axis is dropped, or kept as a one. */
  lemma ReducedNext(s: Shape, e: nat, axes: seq<nat>)
    ensures ReducedShape([], axes, false) == [] && ReducedShape([], axes, true) == []
    ensures ReducedShape(s + [e], axes, false) == ReducedShape(s, axes, false) + if |s| in axes then [] else [e]
    ensures ReducedShape(s + [e], axes, true) == ReducedShape(s, axes, true) + [if |s| in axes then 1 else e]
  {
    UnreducedNext(s, e, axes, 0);
    assert Kept(s + [e], axes) == Kept(s, axes) + [if |s| in axes then 1 else e];
  }

  lemma {:induction false} UnreducedNext(s: Shape, e: nat, axes: seq<nat>, from: nat)
    requires from <= |s|
    ensures Unreduced(s + [e], axes, from) == Unreduced(s, axes, from) + if |s| in axes then [] else [e]
    decreases |s| - from
  {
    if from < |s| {
      UnreducedNext(s, e, axes, from + 1);
    } else {
      assert Unreduced(s + [e], axes, from + 1) == [];
    }
  }

  /** The shape a reduction sums to before unit axes are dropped. */
  ghost predicate SumsTo(op: Op, s: Shape, inner: Shape, outer: Shape) {
    match op
    case Sum(_, axes, _) => inner == ReducedShape(outer, axes, true)
    case SumTo(_) => inner == s
    case _ => false
  }

  /** A reduction adds every element into the one that a broadcast back would read in its place. */
  lemma ReductionPairs(ns: Arena, pt: Point, i: nat, inner: Shape, y: Vec)
    requires WellFormed(ns) && i < |ns| && i !in pt.pinned && (ns[i].op.Sum? || ns[i].op.SumTo?)
    requires ns[i].op.input < |ns| && SumsTo(ns[i].op, ns[i].shape, inner, ns[ns[i].op.input].shape)
    requires |y| == Numel(inner)
    ensures var outer := ns[ns[i].op.input].shape;
            Fits(inner, outer) && |Values(ns, pt)[i]| == |y| &&
            Dot(Values(ns, pt)[i], y) == Dot(Values(ns, pt)[ns[i].op.input], Gather(OperandMap(inner, outer), y))
  {
    hide Values, WellFormed, OperandMap, Fits, Scatter, Dot;
    var a := ns[i].op.input;
    ValueAt(ns, pt, i);
    KeptFits(ns[a].shape, if ns[i].op.Sum? then ns[i].op.axes else []);
    ScatterAdjoint(OperandMap(inner, ns[a].shape), Values(ns, pt)[a], y);
  }
}
