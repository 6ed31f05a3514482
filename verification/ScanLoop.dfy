/** The prefix scan as the backend runs it: three nested loops over one flat tensor. */
module ScanLoop {
  import opened Wrappers
  import opened Shapes
  import opened Vectors
  import opened Scans
  import opened Extrema
  import opened Lines

  // The scan as it runs: outer block, position inside the block, then along the axis

  /** Moving a coordinate along one axis moves its offset by that axis's stride. */
  lemma {:induction false} OffsetMoved(s: Shape, c: seq<nat>, axis: nat, j: nat)
    requires axis < |s| == |c|
    ensures Offset(s, Moved(c, axis, j)) == Offset(s, Moved(c, axis, 0)) + j * Numel(s[axis + 1..])
  {
    hide Numel;
    var at, origin := Moved(c, axis, j), Moved(c, axis, 0);
    if axis == 0 {
      assert at[1..] == origin[1..];
    } else {
      assert at[1..] == Moved(c[1..], axis - 1, j) && origin[1..] == Moved(c[1..], axis - 1, 0);
      assert s[1..][axis..] == s[axis + 1..];
      OffsetMoved(s[1..], c[1..], axis - 1, j);
    }
  }

  /** The element at position `j` of the line that starts `within` elements into block `block`. */
  function Place(extent: nat, inner: nat, block: nat, within: nat, j: nat): nat {
    (block * extent + j) * inner + within
  }

  lemma PlaceIs(extent: nat, inner: nat, block: nat, within: nat, j: nat)
    requires within < inner && j < extent
    ensures var n := Place(extent, inner, block, within, j);
            n / inner == block * extent + j && n % inner == within && (n / inner) % extent == j &&
              (n / inner) / extent == block
  {
    DivModUnique(block * extent + j, within, inner);
    DivModUnique(block, j, extent);
  }

  lemma PlaceOf(extent: nat, inner: nat, n: nat)
    requires inner > 0 && extent > 0
    ensures n == Place(extent, inner, (n / inner) / extent, n % inner, (n / inner) % extent)
  {
    var q := n / inner;
    assert q == (q / extent) * extent + q % extent;
    assert n == q * inner + n % inner;
  }

  lemma PlaceMoves(extent: nat, inner: nat, block: nat, within: nat, j: nat)
    ensures Place(extent, inner, block, within, j) == Place(extent, inner, block, within, 0) + j * inner
  {
    assert (block * extent + j) * inner == (block * extent + 0) * inner + j * inner;
  }

  /** The line through block `block` at position `within`, read off the flat tensor. */
  function FlatLine(extent: nat, inner: nat, x: Vec, block: nat, within: nat): (y: Vec)
    requires forall j: nat :: j < extent ==> Place(extent, inner, block, within, j) < |x|
    ensures |y| == extent && forall j: nat :: j < extent ==> y[j] == x[Place(extent, inner, block, within, j)]
  {
    seq(extent, j requires 0 <= j < extent && Place(extent, inner, block, within, j) < |x| =>
      x[Place(extent, inner, block, within, j)])
  }

  /** The flat tensor seen through one axis: its blocks, and the stride inside a block. */
  lemma Blocks(s: Shape, axis: nat)
    requires axis < |s|
    ensures Numel(s) == Numel(s[..axis]) * (s[axis] * Numel(s[axis + 1..]))
  {
    assert s == s[..axis] + s[axis..];
    NumelConcat(s[..axis], s[axis..]);
    assert s[axis..][1..] == s[axis + 1..];
  }

  lemma PlaceInside(outer: nat, extent: nat, inner: nat, block: nat, within: nat, j: nat)
    requires block < outer && within < inner && j < extent
    ensures Place(extent, inner, block, within, j) < outer * (extent * inner)
  {
    MulMono(block * extent + j + 1, (block + 1) * extent, inner);
    MulMono(block + 1, outer, extent * inner);
    assert ((block + 1) * extent) * inner == (block + 1) * (extent * inner);
    assert (block * extent + j + 1) * inner == (block * extent + j) * inner + inner;
  }

  /** An element's own line, and its place in it. */
  lemma LineAtPlace(s: Shape, axis: nat, x: Vec, block: nat, within: nat, j: nat)
    requires axis < |s| && |x| == Numel(s) && j < s[axis]
    requires block < Numel(s[..axis]) && within < Numel(s[axis + 1..])
    ensures var inner := Numel(s[axis + 1..]);
            (forall i: nat :: i < s[axis] ==> Place(s[axis], inner, block, within, i) < |x|) &&
            var n := Place(s[axis], inner, block, within, j);
            Coords(s, n)[axis] == j && Line(s, axis, x, Coords(s, n)) == FlatLine(s[axis], inner, x, block, within)
  {
    hide Numel, Offset;
    var extent, inner := s[axis], Numel(s[axis + 1..]);
    Blocks(s, axis);
    forall i: nat | i < extent
      ensures Place(extent, inner, block, within, i) < |x|
    {
      PlaceInside(Numel(s[..axis]), extent, inner, block, within, i);
    }
    var n := Place(extent, inner, block, within, j);
    var c := Coords(s, n);
    PlaceIs(extent, inner, block, within, j);
    OffsetOfCoords(s, n);
    assert c[axis] == j && Moved(c, axis, j) == c;
    LineInside(s, axis, c);
    OffsetMoved(s, c, axis, j);
    PlaceMoves(extent, inner, block, within, j);
    forall i: nat | i < extent
      ensures Line(s, axis, x, c)[i] == x[Place(extent, inner, block, within, i)]
    {
      OffsetMoved(s, c, axis, i);
      PlaceMoves(extent, inner, block, within, i);
    }
  }

  /** The running value after `n` elements of a line; an extremum has none before the first. */
  function Running(op: LineOp, x: Vec, n: nat): Option<real>
    requires n <= |x|
  {
    match op
    case PrefixSums => Some(PartialSum(x, n))
    case PrefixProducts => Some(PartialProduct(x, n))
    case PrefixBests(kind) => if n == 0 then None else Some(Best(kind, x, n))
    case Backwards => None
  }

  /** One element folded into the running value. */
  function Folded(op: LineOp, acc: Option<real>, next: real): real {
    match op
    case PrefixSums => (match acc case Some(a) => a + next case None => next)
    case PrefixProducts => (match acc case Some(a) => Times(a, next) case None => next)
    case PrefixBests(kind) => (match acc case Some(a) => if Beats(kind, next, a) then next else a case None => next)
    case Backwards => next
  }

  lemma RunningNext(op: LineOp, x: Vec, n: nat)
    requires n < |x| && !op.Backwards?
    ensures Running(op, x, n + 1) == Some(Folded(op, Running(op, x, n), x[n]))
    ensures OnLine(op, x)[n] == Running(op, x, n + 1).value
  {
  }

  /** The lines finished before position `within` of block `block`, and `j` elements of that one. */
  predicate Finished(extent: nat, inner: nat, n: nat, block: nat, within: nat, j: nat)
    requires extent > 0 && inner > 0
  {
    var b, w := (n / inner) / extent, n % inner;
    b < block || (b == block && (w < within || (w == within && (n / inner) % extent < j)))
  }

  /** Every finished element is computed from its own line. */
  ghost predicate Done(out: Vec, op: LineOp, s: Shape, axis: nat, x: Vec, block: nat, within: nat, j: nat)
    requires axis < |s| && |x| == Numel(s) && s[axis] > 0 && Numel(s[axis + 1..]) > 0
  {
    |out| == Numel(s) &&
    forall n: nat :: n < |out| && Finished(s[axis], Numel(s[axis + 1..]), n, block, within, j) ==>
      out[n] == AlongAt(op, s, axis, x, n)
  }

  lemma DoneStart(out: Vec, op: LineOp, s: Shape, axis: nat, x: Vec)
    requires axis < |s| && |x| == |out| == Numel(s) && s[axis] > 0 && Numel(s[axis + 1..]) > 0
    ensures Done(out, op, s, axis, x, 0, 0, 0)
  {
    hide Numel, AlongAt;
  }

  lemma DoneNext(out: Vec, op: LineOp, s: Shape, axis: nat, x: Vec, block: nat, within: nat, j: nat, v: real)
    requires axis < |s| && |x| == Numel(s) && j < s[axis] && block < Numel(s[..axis]) && within < Numel(s[axis + 1..])
    requires Done(out, op, s, axis, x, block, within, j)
    ensures var n := Place(s[axis], Numel(s[axis + 1..]), block, within, j);
            n < |x| && (v == AlongAt(op, s, axis, x, n) ==> Done(out[n := v], op, s, axis, x, block, within, j + 1))
  {
    hide Numel, AlongAt, Place;
    var extent, inner := s[axis], Numel(s[axis + 1..]);
    var at := Place(extent, inner, block, within, j);
    Blocks(s, axis);
    PlaceInside(Numel(s[..axis]), extent, inner, block, within, j);
    forall n: nat | n < |out| && Finished(extent, inner, n, block, within, j + 1)
      ensures n == at || Finished(extent, inner, n, block, within, j)
    {
      PlaceOf(extent, inner, n);
    }
  }

  lemma DoneLine(out: Vec, op: LineOp, s: Shape, axis: nat, x: Vec, block: nat, within: nat)
    requires axis < |s| && |x| == Numel(s) && s[axis] > 0 && Numel(s[axis + 1..]) > 0
    requires Done(out, op, s, axis, x, block, within, s[axis])
    ensures Done(out, op, s, axis, x, block, within + 1, 0)
  {
    hide Numel, AlongAt;
  }

  lemma DoneBlock(out: Vec, op: LineOp, s: Shape, axis: nat, x: Vec, block: nat)
    requires axis < |s| && |x| == Numel(s) && s[axis] > 0 && Numel(s[axis + 1..]) > 0
    requires Done(out, op, s, axis, x, block, Numel(s[axis + 1..]), 0)
    ensures Done(out, op, s, axis, x, block + 1, 0, 0)
  {
    hide Numel, AlongAt;
  }

  lemma DoneAll(out: Vec, op: LineOp, s: Shape, axis: nat, x: Vec)
    requires axis < |s| && |x| == Numel(s) && s[axis] > 0 && Numel(s[axis + 1..]) > 0
    requires Done(out, op, s, axis, x, Numel(s[..axis]), 0, 0)
    ensures out == AlongAxis(op, s, axis, x)
  {
    hide Numel, AlongAt;
    var extent, inner, outer := s[axis], Numel(s[axis + 1..]), Numel(s[..axis]);
    Blocks(s, axis);
    forall n: nat | n < |out|
      ensures Finished(extent, inner, n, outer, 0, 0)
    {
      BlockInside(outer, extent, inner, n);
    }
  }

  lemma BlockInside(outer: nat, extent: nat, inner: nat, n: nat)
    requires extent > 0 && inner > 0 && n < outer * (extent * inner)
    ensures (n / inner) / extent < outer
  {
    var b := (n / inner) / extent;
    PlaceOf(extent, inner, n);
    assert (b * extent) * inner == b * (extent * inner);
    assert (b * extent + (n / inner) % extent) * inner == (b * extent) * inner + ((n / inner) % extent) * inner;
    if b >= outer {
      MulMono(outer, b, extent * inner);
    }
  }

  /** Element `j` of a line, once the running value has taken it in. */
  lemma Scanned(op: LineOp, s: Shape, axis: nat, x: Vec, block: nat, within: nat, j: nat)
    requires axis < |s| && |x| == Numel(s) && !op.Backwards? && j < s[axis]
    requires block < Numel(s[..axis]) && within < Numel(s[axis + 1..])
    ensures var inner := Numel(s[axis + 1..]);
            (forall i: nat :: i < s[axis] ==> Place(s[axis], inner, block, within, i) < |x|) &&
            var line, n := FlatLine(s[axis], inner, x, block, within), Place(s[axis], inner, block, within, j);
            Running(op, line, j + 1) == Some(AlongAt(op, s, axis, x, n)) &&
            AlongAt(op, s, axis, x, n) == Folded(op, Running(op, line, j), x[n])
  {
    hide Numel, Running, Folded, OnLine, Place, Line, FlatLine;
    LineAtPlace(s, axis, x, block, within, j);
    RunningNext(op, FlatLine(s[axis], Numel(s[axis + 1..]), x, block, within), j);
  }

  /** Before the first element: the identity of a sum or product, nothing for an extremum. */
  function Identity(op: LineOp): (acc: Option<real>)
    ensures forall x: Vec :: acc == Running(op, x, 0)
  {
    match op case PrefixSums => Some(0.0) case PrefixProducts => Some(1.0) case _ => None
  }

  // What a scan means, element by element

  function At(s: Shape, x: Vec, c: seq<nat>): real
    requires InRange(s, c) && |x| == Numel(s)
  {
    OffsetBound(s, c);
    x[Offset(s, c)]
  }

  /** The element at `c` follows from the scanned element before it on its line. */
  ghost predicate Follows(op: LineOp, s: Shape, axis: nat, x: Vec, out: Vec, c: seq<nat>)
    requires axis < |s| && InRange(s, c) && |x| == |out| == Numel(s)
  {
    if c[axis] == 0 then At(s, out, c) == At(s, x, c)
    else
      var before, a, y := At(s, out, Moved(c, axis, c[axis] - 1)), At(s, x, c), At(s, out, c);
      match op
      case PrefixSums => y == before + a
      case PrefixProducts => y == before * a
      case PrefixBests(Maximum) => y == if a > before then a else before
      case PrefixBests(Minimum) => y == if a < before then a else before
      case Backwards => true
  }

  /** The element at `c` is one of its line up to there, and none of those is beyond it. */
  ghost predicate Extreme(kind: Extremum, s: Shape, axis: nat, x: Vec, out: Vec, c: seq<nat>)
    requires axis < |s| && InRange(s, c) && |x| == |out| == Numel(s)
  {
    (forall k: nat :: k <= c[axis] ==>
       if kind == Maximum then At(s, x, Moved(c, axis, k)) <= At(s, out, c)
         else At(s, out, c) <= At(s, x, Moved(c, axis, k))) &&
    exists k: nat :: k <= c[axis] && At(s, x, Moved(c, axis, k)) == At(s, out, c)
  }

  lemma OnOwnLine(s: Shape, axis: nat, x: Vec, c: seq<nat>, j: nat)
    requires axis < |s| && InRange(s, c) && |x| == Numel(s) && j < s[axis]
    ensures InRange(s, Moved(c, axis, j)) && Line(s, axis, x, c)[j] == At(s, x, Moved(c, axis, j))
  {
    LineInside(s, axis, c);
  }

  lemma ScannedAt(op: LineOp, s: Shape, axis: nat, x: Vec, c: seq<nat>, j: nat)
    requires axis < |s| && InRange(s, c) && |x| == Numel(s) && j < s[axis]
    ensures InRange(s, Moved(c, axis, j))
    ensures At(s, AlongAxis(op, s, axis, x), Moved(c, axis, j)) == OnLine(op, Line(s, axis, x, c))[j]
  {
    hide OnLine, At, Line;
    LineOfAlong(op, s, axis, x, c);
    OnOwnLine(s, axis, AlongAxis(op, s, axis, x), c, j);
  }

  lemma NextOnLine(op: LineOp, line: Vec, j: nat)
    requires j < |line| && !op.Backwards?
    ensures var y := OnLine(op, line);
            if j == 0 then y[0] == line[0]
            else
              match op
              case PrefixSums => y[j] == y[j - 1] + line[j]
              case PrefixProducts => y[j] == y[j - 1] * line[j]
              case PrefixBests(Maximum) => y[j] == if line[j] > y[j - 1] then line[j] else y[j - 1]
              case PrefixBests(Minimum) => y[j] == if line[j] < y[j - 1] then line[j] else y[j - 1]
  {
    if j == 0 {
      assert PartialSum(line, 0) == 0.0 && PartialProduct(line, 0) == 1.0;
    }
  }

  /** Every element of a scan follows from the one before it. */
  lemma ScanFollows(op: LineOp, s: Shape, axis: nat, x: Vec, c: seq<nat>)
    requires axis < |s| && InRange(s, c) && |x| == Numel(s) && !op.Backwards?
    ensures Follows(op, s, axis, x, AlongAxis(op, s, axis, x), c)
  {
    hide OnLine, At, Line, AlongAxis;
    var j := c[axis];
    assert Moved(c, axis, j) == c;
    ScannedAt(op, s, axis, x, c, j);
    OnOwnLine(s, axis, x, c, j);
    NextOnLine(op, Line(s, axis, x, c), j);
    if j > 0 {
      ScannedAt(op, s, axis, x, c, j - 1);
    }
  }

  /** The cumulative maximum is a maximum and the cumulative minimum a minimum. */
  lemma ScanIsExtreme(kind: Extremum, s: Shape, axis: nat, x: Vec, c: seq<nat>)
    requires axis < |s| && InRange(s, c) && |x| == Numel(s)
    ensures Extreme(kind, s, axis, x, AlongAxis(PrefixBests(kind), s, axis, x), c)
  {
    hide At, Line, AlongAxis, Beats;
    var j, line := c[axis], Line(s, axis, x, c);
    assert Moved(c, axis, j) == c;
    ScannedAt(PrefixBests(kind), s, axis, x, c, j);
    var i := BestIsBest(kind, line, j + 1);
    forall k: nat | k <= j
      ensures line[k] == At(s, x, Moved(c, axis, k))
    {
      OnOwnLine(s, axis, x, c, k);
    }
  }

  lemma ScanMeans(op: LineOp, s: Shape, axis: nat, x: Vec)
    requires axis < |s| && |x| == Numel(s) && !op.Backwards?
    ensures var y := AlongAxis(op, s, axis, x);
            (forall c :: InRange(s, c) ==> Follows(op, s, axis, x, y, c)) &&
            (op.PrefixBests? ==> forall c :: InRange(s, c) ==> Extreme(op.kind, s, axis, x, y, c))
  {
    hide Follows, Extreme, AlongAxis, InRange;
    forall c | InRange(s, c)
      ensures Follows(op, s, axis, x, AlongAxis(op, s, axis, x), c)
    {
      ScanFollows(op, s, axis, x, c);
    }
    if op.PrefixBests? {
      forall c | InRange(s, c)
        ensures Extreme(op.kind, s, axis, x, AlongAxis(op, s, axis, x), c)
      {
        ScanIsExtreme(op.kind, s, axis, x, c);
      }
    }
  }

  /**
   * The scan of a tensor: block by block, line by line, and along the line with a running value. A scalar is returned
   * as it is.
   */
  method PrefixScan(op: LineOp, s: Shape, axis: nat, x: Vec) returns (out: Vec)
    requires (|s| == 0 || axis < |s|) && |x| == Numel(s) && !op.Backwards?
    ensures out == if |s| == 0 then x else AlongAxis(op, s, axis, x)
    ensures |s| > 0 ==> forall c :: InRange(s, c) ==> Follows(op, s, axis, x, out, c)
    ensures |s| > 0 && op.PrefixBests? ==> forall c :: InRange(s, c) ==> Extreme(op.kind, s, axis, x, out, c)
  {
    hide Numel, AlongAt, Running, Folded, Done, Place, FlatLine, Follows, Extreme, InRange;
    if |s| == 0 {
      return x;
    }
    ScanMeans(op, s, axis, x);
    var extent, inner, outer := s[axis], Numel(s[axis + 1..]), Numel(s[..axis]);
    Blocks(s, axis);
    out := Zeros(Numel(s));
    if extent == 0 || inner == 0 || outer == 0 {
      assert out == AlongAxis(op, s, axis, x);
      return;
    }
    DoneStart(out, op, s, axis, x);
    for block := 0 to outer
      invariant |out| == Numel(s) && Done(out, op, s, axis, x, block, 0, 0)
    {
      for within := 0 to inner
        invariant |out| == Numel(s) && Done(out, op, s, axis, x, block, within, 0)
      {
        LineAtPlace(s, axis, x, block, within, 0);
        var acc := Identity(op);
        for j := 0 to extent
          invariant |out| == Numel(s) && Done(out, op, s, axis, x, block, within, j)
          invariant acc == Running(op, FlatLine(extent, inner, x, block, within), j)
        {
          var at := Place(extent, inner, block, within, j);
          Scanned(op, s, axis, x, block, within, j);
          var value := Folded(op, acc, x[at]);
          acc := Some(value);
          DoneNext(out, op, s, axis, x, block, within, j, value);
          out := out[at := value];
        }
        DoneLine(out, op, s, axis, x, block, within);
      }
      DoneBlock(out, op, s, axis, x, block);
    }
    DoneAll(out, op, s, axis, x);
  }
}
