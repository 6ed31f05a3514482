/** The scan reverse rules on whole tensors: every line along the axis follows the one-line rule. */
module Lines {
  import opened Shapes
  import opened Vectors
  import opened Graph
  import opened Scans
  import opened Extrema

  /** The coordinate moved to position `j` of the axis. */
  function Moved(c: seq<nat>, axis: nat, j: nat): (r: seq<nat>)
    requires axis < |c|
    ensures |r| == |c| && r[axis] == j && forall i :: 0 <= i < |c| && i != axis ==> r[i] == c[i]
  {
    c[axis := j]
  }

  /** The offsets of the line along `axis` through coordinate `c`. */
  function LineMap(s: Shape, axis: nat, c: seq<nat>): (m: seq<nat>)
    requires axis < |s| && InRange(s, c)
    ensures |m| == s[axis] && Addresses(m, Numel(s))
  {
    LineInside(s, axis, c);
    seq(s[axis], j requires 0 <= j < s[axis] && Offset(s, Moved(c, axis, j)) < Numel(s) => Offset(s, Moved(c, axis, j)))
  }

  lemma LineInside(s: Shape, axis: nat, c: seq<nat>)
    requires axis < |s| && InRange(s, c)
    ensures forall j: nat :: j < s[axis] ==> InRange(s, Moved(c, axis, j)) && Offset(s, Moved(c, axis, j)) < Numel(s)
  {
    forall j: nat | j < s[axis]
      ensures InRange(s, Moved(c, axis, j)) && Offset(s, Moved(c, axis, j)) < Numel(s)
    {
      OffsetBound(s, Moved(c, axis, j));
    }
  }

  function Line(s: Shape, axis: nat, x: Vec, c: seq<nat>): (y: Vec)
    requires axis < |s| && InRange(s, c) && |x| == Numel(s)
    ensures |y| == s[axis]
  {
    Gather(LineMap(s, axis, c), x)
  }

  datatype LineOp = PrefixSums | PrefixProducts | PrefixBests(kind: Extremum) | Backwards

  function OnLine(op: LineOp, x: Vec): (y: Vec)
    ensures |y| == |x|
  {
    match op
    case PrefixSums => Sums(x)
    case PrefixProducts => Products(x)
    case PrefixBests(kind) => Bests(kind, x)
    case Backwards => Reversed(x)
  }

  /** A scan or a reversal along one axis: every element is computed from its own line. */
  function AlongAxis(op: LineOp, s: Shape, axis: nat, x: Vec): (y: Vec)
    requires axis < |s| && |x| == Numel(s)
    ensures |y| == Numel(s)
    ensures forall n :: 0 <= n < |y| ==> y[n] == AlongAt(op, s, axis, x, n)
  {
    seq(Numel(s), n requires 0 <= n < Numel(s) => AlongAt(op, s, axis, x, n))
  }

  function AlongAt(op: LineOp, s: Shape, axis: nat, x: Vec, n: nat): real
    requires axis < |s| && |x| == Numel(s) && n < Numel(s)
  {
    OnLine(op, Line(s, axis, x, Coords(s, n)))[Coords(s, n)[axis]]
  }

  /** Lines through coordinates that differ only along the axis are the same line. */
  lemma SameLine(s: Shape, axis: nat, c: seq<nat>, j: nat)
    requires axis < |s| && InRange(s, c) && j < s[axis]
    ensures InRange(s, Moved(c, axis, j)) && LineMap(s, axis, Moved(c, axis, j)) == LineMap(s, axis, c)
  {
    LineInside(s, axis, c);
    forall k: nat | k < s[axis]
      ensures LineMap(s, axis, Moved(c, axis, j))[k] == LineMap(s, axis, c)[k]
    {
      assert Moved(Moved(c, axis, j), axis, k) == Moved(c, axis, k);
    }
  }

  /** A line of a scanned tensor is the scanned line. */
  lemma LineOfAlong(op: LineOp, s: Shape, axis: nat, x: Vec, c: seq<nat>)
    requires axis < |s| && InRange(s, c) && |x| == Numel(s)
    ensures Line(s, axis, AlongAxis(op, s, axis, x), c) == OnLine(op, Line(s, axis, x, c))
  {
    hide OnLine;
    LineInside(s, axis, c);
    forall j: nat | j < s[axis]
      ensures Line(s, axis, AlongAxis(op, s, axis, x), c)[j] == OnLine(op, Line(s, axis, x, c))[j]
    {
      SameLine(s, axis, c, j);
      CoordsOfOffset(s, Moved(c, axis, j));
    }
  }

  /** Elementwise operations act line by line. */
  lemma LineOfBinary(op: BinaryOp, s: Shape, axis: nat, x: Vec, y: Vec, c: seq<nat>)
    requires axis < |s| && InRange(s, c) && |x| == |y| == Numel(s)
    ensures Line(s, axis, BinaryVec(op, x, y), c) == BinaryVec(op, Line(s, axis, x, c), Line(s, axis, y, c))
  {
    hide BinaryValue;
  }

  lemma LineOfCompare(s: Shape, axis: nat, x: Vec, y: Vec, c: seq<nat>)
    requires axis < |s| && InRange(s, c) && |x| == |y| == Numel(s)
    ensures Line(s, axis, CompareVec(Eq, x, y), c) == CompareVec(Eq, Line(s, axis, x, c), Line(s, axis, y, c))
  {
    hide CompareValue;
  }

  lemma LineOfSelect(s: Shape, axis: nat, m: Vec, x: Vec, y: Vec, c: seq<nat>)
    requires axis < |s| && InRange(s, c) && |m| == |x| == |y| == Numel(s)
    ensures Line(s, axis, SelectVec(m, x, y), c) ==
            SelectVec(Line(s, axis, m, c), Line(s, axis, x, c), Line(s, axis, y, c))
  {
  }

  lemma LineOfFill(s: Shape, axis: nat, v: real, c: seq<nat>)
    requires axis < |s| && InRange(s, c)
    ensures Line(s, axis, Fill(Numel(s), v), c) == Fill(s[axis], v)
  {
  }

  // The reverse rules on tensors

  function SumsVjpAlong(s: Shape, axis: nat, u: Vec): (y: Vec)
    requires axis < |s| && |u| == Numel(s)
    ensures |y| == Numel(s)
  {
    AlongAxis(Backwards, s, axis, AlongAxis(PrefixSums, s, axis, AlongAxis(Backwards, s, axis, u)))
  }

  lemma SumsVjpLines(s: Shape, axis: nat, u: Vec, c: seq<nat>)
    requires axis < |s| && |u| == Numel(s) && InRange(s, c)
    ensures Line(s, axis, SumsVjpAlong(s, axis, u), c) == SumsVjp(Line(s, axis, u, c))
  {
    hide Line, AlongAxis;
    var reversed := AlongAxis(Backwards, s, axis, u);
    LineOfAlong(Backwards, s, axis, u, c);
    LineOfAlong(PrefixSums, s, axis, reversed, c);
    LineOfAlong(Backwards, s, axis, AlongAxis(PrefixSums, s, axis, reversed), c);
  }

  function MaskAlong(s: Shape, x: Vec): (y: Vec)
    requires |x| == Numel(s)
    ensures |y| == Numel(s)
  {
    CompareVec(Eq, x, Fill(Numel(s), 0.0))
  }

  function SafeAlong(s: Shape, x: Vec): (y: Vec)
    requires |x| == Numel(s)
    ensures |y| == Numel(s)
  {
    SelectVec(MaskAlong(s, x), Fill(Numel(s), 1.0), x)
  }

  function WeightedAlong(s: Shape, axis: nat, u: Vec, x: Vec, zeros: real): (y: Vec)
    requires axis < |s| && |u| == |x| == Numel(s)
    ensures |y| == Numel(s)
  {
    var count := AlongAxis(PrefixSums, s, axis, MaskAlong(s, x));
    var weighted := BinaryVec(Mul, u, AlongAxis(PrefixProducts, s, axis, SafeAlong(s, x)));
    SelectVec(CompareVec(Eq, count, Fill(Numel(s), zeros)), weighted, Fill(Numel(s), 0.0))
  }

  /** The prefix-product rule as the graph composes it, on the whole tensor. */
  function ProductsVjpAlong(s: Shape, axis: nat, u: Vec, x: Vec): (y: Vec)
    requires axis < |s| && |u| == |x| == Numel(s)
    ensures |y| == Numel(s)
  {
    var ordinary := BinaryVec(Div, SumsVjpAlong(s, axis, WeightedAlong(s, axis, u, x, 0.0)), SafeAlong(s, x));
    SelectVec(MaskAlong(s, x), SumsVjpAlong(s, axis, WeightedAlong(s, axis, u, x, 1.0)), ordinary)
  }

  lemma MaskLines(s: Shape, axis: nat, x: Vec, c: seq<nat>)
    requires axis < |s| && |x| == Numel(s) && InRange(s, c)
    ensures Line(s, axis, MaskAlong(s, x), c) == Mask(Line(s, axis, x, c))
    ensures Line(s, axis, SafeAlong(s, x), c) == Safe(Line(s, axis, x, c))
  {
    hide Line;
    LineOfFill(s, axis, 0.0, c);
    LineOfFill(s, axis, 1.0, c);
    LineOfCompare(s, axis, x, Fill(Numel(s), 0.0), c);
    LineOfSelect(s, axis, MaskAlong(s, x), Fill(Numel(s), 1.0), x, c);
    assert Zeros(s[axis]) == Fill(s[axis], 0.0);
  }

  lemma WeightedLines(s: Shape, axis: nat, u: Vec, x: Vec, zeros: real, c: seq<nat>)
    requires axis < |s| && |u| == |x| == Numel(s) && InRange(s, c)
    ensures Line(s, axis, WeightedAlong(s, axis, u, x, zeros), c) ==
              Weighted(Line(s, axis, u, c), Line(s, axis, x, c), zeros)
  {
    hide Line, AlongAxis, MaskAlong, SafeAlong, Mask, Safe;
    var count := AlongAxis(PrefixSums, s, axis, MaskAlong(s, x));
    var products := AlongAxis(PrefixProducts, s, axis, SafeAlong(s, x));
    MaskLines(s, axis, x, c);
    LineOfAlong(PrefixSums, s, axis, MaskAlong(s, x), c);
    LineOfAlong(PrefixProducts, s, axis, SafeAlong(s, x), c);
    LineOfFill(s, axis, zeros, c);
    LineOfFill(s, axis, 0.0, c);
    LineOfCompare(s, axis, count, Fill(Numel(s), zeros), c);
    LineOfBinary(Mul, s, axis, u, products, c);
    LineOfSelect(s, axis, CompareVec(Eq, count, Fill(Numel(s), zeros)), BinaryVec(Mul, u, products),
                 Fill(Numel(s), 0.0), c);
    assert Zeros(s[axis]) == Fill(s[axis], 0.0);
  }

  /** Every line of the tensor rule is the one-line rule, at every rank and axis. */
  lemma ProductsVjpLines(s: Shape, axis: nat, u: Vec, x: Vec, c: seq<nat>)
    requires axis < |s| && |u| == |x| == Numel(s) && InRange(s, c)
    ensures Line(s, axis, ProductsVjpAlong(s, axis, u, x), c) == ProductsVjp(Line(s, axis, u, c), Line(s, axis, x, c))
  {
    hide Line, AlongAxis, MaskAlong, SafeAlong, Mask, Safe, SumsVjpAlong, SumsVjp, WeightedAlong, Weighted;
    var zeroLane, ordinary := WeightedAlong(s, axis, u, x, 1.0), WeightedAlong(s, axis, u, x, 0.0);
    MaskLines(s, axis, x, c);
    WeightedLines(s, axis, u, x, 1.0, c);
    WeightedLines(s, axis, u, x, 0.0, c);
    SumsVjpLines(s, axis, zeroLane, c);
    SumsVjpLines(s, axis, ordinary, c);
    LineOfBinary(Div, s, axis, SumsVjpAlong(s, axis, ordinary), SafeAlong(s, x), c);
    LineOfSelect(s, axis, MaskAlong(s, x), SumsVjpAlong(s, axis, zeroLane),
                 BinaryVec(Div, SumsVjpAlong(s, axis, ordinary), SafeAlong(s, x)), c);
  }

  /** Each element of the tensor rule, in closed form on its own line. */
  lemma ProductsVjpElement(s: Shape, axis: nat, u: Vec, x: Vec, n: nat)
    requires axis < |s| && |u| == |x| == Numel(s) && n < Numel(s)
    ensures var c := Coords(s, n);
            ProductsVjpAlong(s, axis, u, x)[n] == Share(Line(s, axis, u, c), Line(s, axis, x, c), c[axis], c[axis])
  {
    hide ProductsVjpAlong, ProductsVjp, Share;
    var c := Coords(s, n);
    ProductsVjpLines(s, axis, u, x, c);
    ProductsVjpExact(Line(s, axis, u, c), Line(s, axis, x, c), c[axis]);
    OffsetOfCoords(s, n);
    assert Moved(c, axis, c[axis]) == c;
    assert LineMap(s, axis, c)[c[axis]] == n;
    assert Line(s, axis, ProductsVjpAlong(s, axis, u, x), c)[c[axis]] == ProductsVjpAlong(s, axis, u, x)[n];
  }
}
