/** The cumulative-extremum rule on whole tensors: a permuted, broadcast and twice reduced composition, line by line. */
module ExtremaLines {
  import opened Shapes
  import opened Axes
  import opened Vectors
  import opened Graph
  import opened Scans
  import opened Extrema
  import opened Lines

  /** The element at coordinate `c`. */
  function At(s: Shape, x: Vec, c: seq<nat>): real
    requires InRange(s, c) && |x| == Numel(s)
  {
    OffsetBound(s, c);
    x[Offset(s, c)]
  }

  // Reducing along one axis

  lemma {:induction false} SameSums(x: Vec, y: Vec, n: nat)
    requires n <= |x| && n <= |y| && forall k :: 0 <= k < n ==> x[k] == y[k]
    ensures PartialSum(x, n) == PartialSum(y, n)
  {
    if n > 0 {
      SameSums(x, y, n - 1);
    }
  }

  ghost predicate Ascends(ps: seq<nat>) {
    forall i, j :: 0 <= i < j < |ps| ==> ps[i] < ps[j]
  }

  lemma ScatterLast(m: seq<nat>, y: Vec, n: nat, k: nat)
    requires |m| == |y| && |m| > 0 && Addresses(m, n) && k < n
    ensures var last := |m| - 1;
            Scatter(m, y, n)[k] == Scatter(m[..last], y[..last], n)[k] + if m[last] == k then y[last] else 0.0
  {
  }

  /** The positions `ps` of `m` that hold `k`, in order. */
  ghost predicate Holding(m: seq<nat>, k: nat, ps: seq<nat>) {
    Ascends(ps) && Addresses(ps, |m|) && (forall j :: 0 <= j < |ps| ==> m[ps[j]] == k) &&
    forall p :: 0 <= p < |m| && m[p] == k ==> p in ps
  }

  lemma HoldingLast(m: seq<nat>, k: nat, ps: seq<nat>)
    requires |m| > 0 && Holding(m, k, ps)
    ensures var last := |m| - 1;
            if m[last] == k then |ps| > 0 && ps[|ps| - 1] == last && Holding(m[..last], k, ps[..|ps| - 1])
            else Holding(m[..last], k, ps)
  {
    var last := |m| - 1;
    if m[last] == k {
      EndsWith(ps, last);
    } else {
      assert Addresses(ps, last);
    }
  }

  lemma EndsWith(ps: seq<nat>, last: nat)
    requires Ascends(ps) && Addresses(ps, last + 1) && last in ps
    ensures |ps| > 0 && ps[|ps| - 1] == last && Ascends(ps[..|ps| - 1]) && Addresses(ps[..|ps| - 1], last)
    ensures forall p :: p in ps && p != last ==> p in ps[..|ps| - 1]
  {
    var i :| 0 <= i < |ps| && ps[i] == last;
    UpTo(ps, i);
    assert ps == ps[..|ps| - 1] + [last];
  }

  lemma UpTo(ps: seq<nat>, i: nat)
    requires Ascends(ps) && i < |ps|
    ensures ps[i] <= ps[|ps| - 1] && (ps[i] == ps[|ps| - 1] ==> i == |ps| - 1)
  {
  }

  lemma HoldingInside(m: seq<nat>, k: nat, ps: seq<nat>)
    requires Holding(m, k, ps)
    ensures Addresses(ps, |m|)
  {
  }

  lemma SomeHolding(m: seq<nat>, k: nat, ps: seq<nat>)
    requires Holding(m, k, ps) && |ps| > 0
    ensures |m| > 0
  {
    assert ps[0] < |m|;
  }

  /** A scattered element is the sum of what was written there, in order. */
  lemma {:induction false} ScatterSums(m: seq<nat>, y: Vec, n: nat, k: nat, ps: seq<nat>)
    requires |m| == |y| && Addresses(m, n) && k < n && Holding(m, k, ps)
    ensures Addresses(ps, |m|) && Scatter(m, y, n)[k] == PartialSum(Gather(ps, y), |ps|)
  {
    hide Holding, Scatter;
    HoldingInside(m, k, ps);
    if |m| > 0 {
      var last := |m| - 1;
      ScatterLast(m, y, n, k);
      HoldingLast(m, k, ps);
      var less := if m[last] == k then ps[..|ps| - 1] else ps;
      ScatterSums(m[..last], y[..last], n, k, less);
      SameSums(Gather(ps, y), Gather(less, y[..last]), |less|);
    } else if |ps| > 0 {
      SomeHolding(m, k, ps);
    } else {
      ScatterNever(m, y, n, k);
    }
  }

  /** Moving a coordinate up along one axis moves its offset up. */
  lemma {:induction false} OffsetAscends(s: Shape, c: seq<nat>, a: nat, j: nat, k: nat)
    requires InRange(s, c) && a < |s| && j < k < s[a]
    ensures Offset(s, Moved(c, a, j)) < Offset(s, Moved(c, a, k))
  {
    hide Numel;
    var low, high := Moved(c, a, j), Moved(c, a, k);
    if a == 0 {
      assert low[1..] == high[1..] == c[1..];
      OffsetBound(s[1..], c[1..]);
      MulMono(j + 1, k, Numel(s[1..]));
    } else {
      assert low[1..] == Moved(c[1..], a - 1, j) && high[1..] == Moved(c[1..], a - 1, k);
      OffsetAscends(s[1..], c[1..], a - 1, j, k);
    }
  }

  lemma LineAscends(s: Shape, a: nat, c: seq<nat>)
    requires InRange(s, c) && a < |s|
    ensures Ascends(LineMap(s, a, c))
  {
    forall j: nat, k: nat | j < k < s[a]
      ensures LineMap(s, a, c)[j] < LineMap(s, a, c)[k]
    {
      OffsetAscends(s, c, a, j, k);
    }
  }

  /** A reduced axis is read at its one position, every other axis where the output is. */
  lemma KeptCoords(s: Shape, a: nat, c: seq<nat>)
    requires InRange(s, c) && a < |s|
    ensures Fits(Kept(s, [a]), s) && InRange(Kept(s, [a]), Moved(c, a, 0))
    ensures OperandCoords(Kept(s, [a]), s, c) == Moved(c, a, 0)
  {
  }

  /** Which elements a one-axis reduction adds into the element of `c`'s line: that line's ... */
  lemma LineReduced(s: Shape, a: nat, c: seq<nat>, j: nat)
    requires InRange(s, c) && a < |s| && j < s[a]
    ensures Fits(Kept(s, [a]), s) && InRange(Kept(s, [a]), Moved(c, a, 0))
    ensures OperandMap(Kept(s, [a]), s)[LineMap(s, a, c)[j]] == Offset(Kept(s, [a]), Moved(c, a, 0))
  {
    hide Offset, Coord, Kept, Numel;
    LineInside(s, a, c);
    CoordsOfOffset(s, Moved(c, a, j));
    KeptCoords(s, a, c);
    KeptCoords(s, a, Moved(c, a, j));
    assert Moved(Moved(c, a, j), a, 0) == Moved(c, a, 0);
  }

  /** ... and no others. */
  lemma ReducedFrom(s: Shape, a: nat, c: seq<nat>, p: nat)
    requires InRange(s, c) && a < |s| && p < Numel(s)
    requires Fits(Kept(s, [a]), s) && OperandMap(Kept(s, [a]), s)[p] == Offset(Kept(s, [a]), Moved(c, a, 0))
    ensures p in LineMap(s, a, c)
  {
    hide Offset, Coord, Kept, Numel, Coords;
    var kept, line, d := Kept(s, [a]), LineMap(s, a, c), Coords(s, p);
    KeptCoords(s, a, c);
    KeptCoords(s, a, d);
    OffsetOfCoords(s, p);
    CoordsOfOffset(kept, Moved(c, a, 0));
    CoordsOfOffset(kept, Moved(d, a, 0));
    assert d == Moved(Moved(d, a, 0), a, d[a]) == Moved(c, a, d[a]);
    assert line[d[a]] == p;
  }

  /** Reducing one axis sums every line along it. */
  lemma SumAlong(s: Shape, a: nat, x: Vec, c: seq<nat>)
    requires InRange(s, c) && a < |s| && |x| == Numel(s)
    ensures Fits(Kept(s, [a]), s) && InRange(Kept(s, [a]), Moved(c, a, 0))
    ensures At(Kept(s, [a]), SumDown(Kept(s, [a]), s, x), Moved(c, a, 0)) == PartialSum(Line(s, a, x, c), s[a])
  {
    hide Offset, Numel, Kept, OperandMap, LineMap;
    var kept, line := Kept(s, [a]), LineMap(s, a, c);
    KeptCoords(s, a, c);
    var k := Offset(kept, Moved(c, a, 0));
    OffsetBound(kept, Moved(c, a, 0));
    LineAscends(s, a, c);
    forall j | 0 <= j < |line|
      ensures OperandMap(kept, s)[line[j]] == k
    {
      LineReduced(s, a, c, j);
    }
    forall p | 0 <= p < Numel(s) && OperandMap(kept, s)[p] == k
      ensures p in line
    {
      ReducedFrom(s, a, c, p);
    }
    assert Holding(OperandMap(kept, s), k, line);
    ScatterSums(OperandMap(kept, s), x, Numel(kept), k, line);
  }

  // The rule

  lemma AxisPresent(axes: seq<nat>, rank: nat, axis: nat)
    requires axis < rank == |axes|
    requires forall i :: 0 <= i < rank ==> axes[i] == if i == rank - 1 then axis else if i < axis then i else i + 1
    ensures forall a :: 0 <= a < rank ==> a in axes
  {
    forall a | 0 <= a < rank
      ensures a in axes
    {
      var i := if a == axis then rank - 1 else if a < axis then a else a - 1;
      assert axes[i] == a;
    }
  }

  /** The axes with `axis` moved to the end. */
  function AxisLast(rank: nat, axis: nat): (axes: seq<nat>)
    requires axis < rank
    ensures Permutes(axes, rank)
  {
    var axes := seq(rank, i requires 0 <= i < rank => if i == rank - 1 then axis else if i < axis then i else i + 1);
    AxisPresent(axes, rank, axis);
    axes
  }

  /** The coordinate with its entry along `axis` moved to the end. */
  function Turned(c: seq<nat>, axis: nat): (r: seq<nat>)
    requires axis < |c|
    ensures |r| == |c|
  {
    seq(|c|, i requires 0 <= i < |c| => c[AxisLast(|c|, axis)[i]])
  }

  /** The extents before the last one. */
  function Lead(s: Shape, axis: nat): (lead: Shape)
    requires axis < |s|
    ensures |lead| == |s| - 1 && Permuted(s, AxisLast(|s|, axis)) == lead + [s[axis]]
  {
    var t := Permuted(s, AxisLast(|s|, axis));
    t[..|s| - 1]
  }

  /** 0, 1, 2, ... */
  function Arange(n: nat): (v: Vec)
    ensures |v| == n && forall k: nat :: k < n ==> v[k] == k as real
  {
    seq(n, k requires 0 <= k < n => k as real)
  }

  /** An operand of shape `inner` read at every element of `outer`. */
  function Spread(inner: Shape, outer: Shape, x: Vec): (y: Vec)
    requires Fits(inner, outer) && |x| == Numel(inner)
    ensures |y| == Numel(outer)
  {
    Gather(OperandMap(inner, outer), x)
  }

  lemma TableCounts(lead: Shape, n: nat)
    ensures Numel(lead + [n, 1]) == Numel(lead + [n]) == Numel(lead + [1, n])
    ensures Numel([n, 1]) == n == Numel([1, n])
  {
    assert [n, 1][1..] == [1] && [1, n][1..] == [n] && [1][1..] == [] && [n][1..] == [];
    NumelConcat(lead, [n, 1]);
    NumelConcat(lead, [1, n]);
    NumelConcat(lead, [n]);
  }

  lemma TableFits(lead: Shape, n: nat)
    ensures Fits(lead + [n, 1], lead + [n, n]) && Fits(lead + [1, n], lead + [n, n])
    ensures Fits([n, 1], [n, n]) && Fits([1, n], [n, n]) && Fits([n, n], lead + [n, n])
  {
  }

  lemma TableKept(lead: Shape, n: nat)
    ensures Kept(lead + [n, n], [|lead|]) == lead + [1, n] && Kept(lead + [n, n], [|lead| + 1]) == lead + [n, 1]
  {
  }

  lemma TableShapes(lead: Shape, n: nat)
    ensures Fits(lead + [n, 1], lead + [n, n]) && Fits(lead + [1, n], lead + [n, n])
    ensures Fits([n, 1], [n, n]) && Fits([1, n], [n, n]) && Fits([n, n], lead + [n, n])
    ensures Numel(lead + [n, 1]) == Numel(lead + [n]) == Numel(lead + [1, n])
    ensures Numel([n, 1]) == n == Numel([1, n])
    ensures Kept(lead + [n, n], [|lead|]) == lead + [1, n] && Kept(lead + [n, n], [|lead| + 1]) == lead + [n, 1]
  {
    hide *;
    TableCounts(lead, n);
    TableFits(lead, n);
    TableKept(lead, n);
  }

  /** One row per position and one column per prefix: where the position ties for the prefix and lies in it. */
  function WinnerTable(lead: Shape, n: nat, x: Vec, values: Vec): (w: Vec)
    requires |x| == |values| == Numel(lead + [n])
    ensures |w| == Numel(lead + [n, n])
  {
    TableShapes(lead, n);
    var table := lead + [n, n];
    var ties := CompareVec(Eq, Spread(lead + [n, 1], table, x), Spread(lead + [1, n], table, values));
    var prefix := CompareVec(Le, Spread([n, 1], [n, n], Arange(n)), Spread([1, n], [n, n], Arange(n)));
    BinaryVec(Mul, ties, Spread([n, n], table, prefix))
  }

  /** The share of every position in every prefix's gradient. */
  ghost function ShareTable(lead: Shape, n: nat, u: Vec, x: Vec, values: Vec): (w: Vec)
    requires |u| == |x| == |values| == Numel(lead + [n])
    ensures |w| == Numel(lead + [n, n])
  {
    TableShapes(lead, n);
    var table, row := lead + [n, n], lead + [1, n];
    var winners := WinnerTable(lead, n, x, values);
    var counts := SumDown(row, table, winners);
    BinaryVec(Div, BinaryVec(Mul, winners, Spread(row, table, u)), Spread(row, table, counts))
  }

  /** The rule as the graph composes it, on the whole tensor. */
  ghost function BestsVjpAlong(s: Shape, axis: nat, u: Vec, x: Vec, values: Vec): (y: Vec)
    requires (|s| == 0 || axis < |s|) && |u| == |x| == |values| == Numel(s)
    ensures |y| == Numel(s)
  {
    if |s| == 0 || Numel(s) == 0 then u
    else
      var axes, lead, n := AxisLast(|s|, axis), Lead(s, axis), s[axis];
      var m := PermuteMap(s, axes);
      TableShapes(lead, n);
      var shares := ShareTable(lead, n, Gather(m, u), Gather(m, x), Gather(m, values));
      var turned := SumDown(lead + [n, 1], lead + [n, n], shares);
      PermutedBack(s, axes);
      Gather(PermuteMap(lead + [n], Inverse(axes)), turned)
  }

  // Reading the tables

  lemma {:induction false} OffsetConcat(a: Shape, b: Shape, c: seq<nat>, d: seq<nat>)
    requires |c| == |a| && |d| == |b|
    ensures Offset(a + b, c + d) == Offset(a, c) * Numel(b) + Offset(b, d)
  {
    if |a| == 0 {
      assert a + b == b && c + d == d;
    } else {
      OffsetConcat(a[1..], b, c[1..], d);
      NumelConcat(a[1..], b);
      assert (a + b)[1..] == a[1..] + b && (c + d)[1..] == c[1..] + d;
      Distribute(c[0], Numel(a[1..]), Numel(b), Offset(a[1..], c[1..]));
    }
  }

  lemma Distribute(x: nat, m: nat, n: nat, y: nat)
    ensures x * (m * n) + y * n == (x * m + y) * n
  {
  }

  lemma PairOffset(m: nat, n: nat, i: nat, j: nat)
    ensures Numel([m, n]) == m * n && Offset([m, n], [i, j]) == i * n + j
    ensures Numel([n]) == n && Offset([n], [j]) == j
  {
    var s, c: seq<nat> := [m, n], [i, j];
    assert s[1..] == [n] && c[1..] == [j] && [n][1..] == [] && [j][1..] == [];
    assert Numel([n]) == n * Numel([]) && Offset([n], [j]) == j * Numel([]) + Offset([], []);
    assert Numel(s) == m * Numel(s[1..]) && Offset(s, c) == i * Numel(s[1..]) + Offset(s[1..], c[1..]);
  }

  /** A unit axis beside the last one does not move an element. */
  lemma UnitBeside(lead: Shape, n: nat, l: seq<nat>, i: nat)
    requires |l| == |lead|
    ensures Offset(lead + [n, 1], l + [i, 0]) == Offset(lead + [n], l + [i]) == Offset(lead + [1, n], l + [0, i])
  {
    OffsetConcat(lead, [n, 1], l, [i, 0]);
    OffsetConcat(lead, [1, n], l, [0, i]);
    OffsetConcat(lead, [n], l, [i]);
    PairOffset(n, 1, i, 0);
    PairOffset(1, n, 0, i);
  }

  lemma SpreadAt(inner: Shape, outer: Shape, x: Vec, c: seq<nat>)
    requires Fits(inner, outer) && |x| == Numel(inner) && InRange(outer, c)
    ensures At(outer, Spread(inner, outer, x), c) == At(inner, x, OperandCoords(inner, outer, c))
  {
    hide Fits, Offset;
    CoordsOfOffset(outer, c);
  }

  lemma CellInRange(lead: Shape, n: nat, l: seq<nat>, i: nat, j: nat)
    requires InRange(lead, l) && i < n && j < n
    ensures InRange(lead + [n, n], l + [i, j]) && InRange(lead + [n, 1], l + [i, 0])
    ensures InRange(lead + [1, n], l + [0, j])
    ensures InRange(lead + [n], l + [i])
  {
  }

  lemma CellCoords(lead: Shape, n: nat, l: seq<nat>, i: nat, j: nat)
    requires InRange(lead, l) && i < n && j < n
    ensures Fits(lead + [n, 1], lead + [n, n]) && Fits(lead + [1, n], lead + [n, n]) && Fits([n, n], lead + [n, n])
    ensures InRange(lead + [n, n], l + [i, j])
    ensures OperandCoords(lead + [n, 1], lead + [n, n], l + [i, j]) == l + [i, 0]
    ensures OperandCoords(lead + [1, n], lead + [n, n], l + [i, j]) == l + [0, j]
    ensures OperandCoords([n, n], lead + [n, n], l + [i, j]) == [i, j]
  {
  }

  /** A column spread over the table is read by row, a row spread over it by column. */
  lemma TallAndWide(lead: Shape, n: nat, x: Vec, l: seq<nat>, i: nat, j: nat)
    requires InRange(lead, l) && i < n && j < n && |x| == Numel(lead + [n])
    ensures Fits(lead + [n, 1], lead + [n, n]) && Fits(lead + [1, n], lead + [n, n])
    ensures Numel(lead + [n, 1]) == Numel(lead + [n]) == Numel(lead + [1, n])
    ensures InRange(lead + [n, n], l + [i, j]) && InRange(lead + [n], l + [i]) && InRange(lead + [n], l + [j])
    ensures At(lead + [n, n], Spread(lead + [n, 1], lead + [n, n], x), l + [i, j]) == At(lead + [n], x, l + [i])
    ensures At(lead + [n, n], Spread(lead + [1, n], lead + [n, n], x), l + [i, j]) == At(lead + [n], x, l + [j])
  {
    hide Fits, OperandCoords, Spread, Numel, Offset, Kept;
    TableShapes(lead, n);
    CellInRange(lead, n, l, i, j);
    CellInRange(lead, n, l, j, i);
    CellCoords(lead, n, l, i, j);
    SpreadAt(lead + [n, 1], lead + [n, n], x, l + [i, j]);
    SpreadAt(lead + [1, n], lead + [n, n], x, l + [i, j]);
    UnitBeside(lead, n, l, i);
    UnitBeside(lead, n, l, j);
  }

  /** The line at leading coordinates `l` of a tensor whose last axis has extent `n`. */
  function Row(lead: Shape, n: nat, x: Vec, l: seq<nat>): (y: Vec)
    requires InRange(lead, l) && |x| == Numel(lead + [n])
    ensures |y| == n
    ensures forall i: nat :: i < n ==> InRange(lead + [n], l + [i]) && y[i] == At(lead + [n], x, l + [i])
  {
    seq(n, i requires 0 <= i < n => At(lead + [n], x, l + [i]))
  }

  lemma PrefixAt(lead: Shape, n: nat, l: seq<nat>, i: nat, j: nat)
    requires InRange(lead, l) && i < n && j < n
    ensures Fits([n, 1], [n, n]) && Fits([1, n], [n, n]) && Fits([n, n], lead + [n, n])
    ensures Numel([n, 1]) == n == Numel([1, n])
    ensures InRange(lead + [n, n], l + [i, j])
    ensures var prefix := CompareVec(Le, Spread([n, 1], [n, n], Arange(n)), Spread([1, n], [n, n], Arange(n)));
            At(lead + [n, n], Spread([n, n], lead + [n, n], prefix), l + [i, j]) == Flag(i <= j)
  {
    hide Fits, OperandCoords, Spread, Numel, Offset, Kept;
    TableShapes(lead, n);
    CellCoords(lead, n, l, i, j);
    var prefix := CompareVec(Le, Spread([n, 1], [n, n], Arange(n)), Spread([1, n], [n, n], Arange(n)));
    SpreadAt([n, n], lead + [n, n], prefix, l + [i, j]);
    PairOffset(n, n, i, i);
    PairOffset(n, n, j, j);
    assert [] + [n] == [n] && [] + [n, n] == [n, n] && [] + [n, 1] == [n, 1] && [] + [1, n] == [1, n];
    assert [] + [i, j] == [i, j] && [] + [i] == [i] && [] + [j] == [j];
    TallAndWide([], n, Arange(n), [], i, j);
    AtCompare(Le, [n, n], Spread([n, 1], [n, n], Arange(n)), Spread([1, n], [n, n], Arange(n)), [i, j]);
  }

  lemma AtBinary(op: BinaryOp, s: Shape, x: Vec, y: Vec, c: seq<nat>)
    requires |x| == |y| == Numel(s) && InRange(s, c)
    ensures At(s, BinaryVec(op, x, y), c) == BinaryValue(op, At(s, x, c), At(s, y, c))
  {
    hide BinaryValue;
    OffsetBound(s, c);
  }

  lemma AtCompare(op: CompareOp, s: Shape, x: Vec, y: Vec, c: seq<nat>)
    requires |x| == |y| == Numel(s) && InRange(s, c)
    ensures At(s, CompareVec(op, x, y), c) == CompareValue(op, At(s, x, c), At(s, y, c))
  {
    hide CompareValue;
    OffsetBound(s, c);
  }

  lemma FlagBoth(a: bool, b: bool)
    ensures BinaryValue(Mul, Flag(a), Flag(b)) == Flag(a && b)
  {
  }

  lemma WinnerAt(lead: Shape, n: nat, x: Vec, values: Vec, l: seq<nat>, i: nat, j: nat)
    requires InRange(lead, l) && i < n && j < n && |x| == |values| == Numel(lead + [n])
    ensures InRange(lead + [n, n], l + [i, j])
    ensures At(lead + [n, n], WinnerTable(lead, n, x, values), l + [i, j]) ==
            Winner(Row(lead, n, x, l), Row(lead, n, values, l), i, j)
  {
    hide Fits, Spread, Numel, Offset, Kept, Flag, InRange, At, BinaryValue;
    var table := lead + [n, n];
    TableShapes(lead, n);
    TallAndWide(lead, n, x, l, i, j);
    TallAndWide(lead, n, values, l, i, j);
    PrefixAt(lead, n, l, i, j);
    var ties := CompareVec(Eq, Spread(lead + [n, 1], table, x), Spread(lead + [1, n], table, values));
    var prefix := CompareVec(Le, Spread([n, 1], [n, n], Arange(n)), Spread([1, n], [n, n], Arange(n)));
    AtCompare(Eq, table, Spread(lead + [n, 1], table, x), Spread(lead + [1, n], table, values), l + [i, j]);
    AtBinary(Mul, table, ties, Spread([n, n], table, prefix), l + [i, j]);
    FlagBoth(At(lead + [n], x, l + [i]) == At(lead + [n], values, l + [j]), i <= j);
  }

  // Summing the tables

  /** Summing the table's rows at column `j`, and its columns at row `i`. */
  lemma TableSums(lead: Shape, n: nat, w: Vec, l: seq<nat>, i: nat, line: Vec, down: bool)
    requires InRange(lead, l) && i < n && |w| == Numel(lead + [n, n]) && |line| == n
    requires forall k: nat :: k < n ==> InRange(lead + [n, n], Cell(l, i, k, down)) &&
                                        line[k] == At(lead + [n, n], w, Cell(l, i, k, down))
    ensures var flat := if down then lead + [1, n] else lead + [n, 1];
            Fits(flat, lead + [n, n]) && Numel(flat) == Numel(lead + [n]) && InRange(lead + [n], l + [i]) &&
            At(lead + [n], SumDown(flat, lead + [n, n], w), l + [i]) == PartialSum(line, n)
  {
    hide Fits, Numel, Offset, Kept, SumDown, LineMap;
    var table, a := lead + [n, n], if down then |lead| else |lead| + 1;
    var c := l + [i, i];
    TableShapes(lead, n);
    CellInRange(lead, n, l, i, i);
    SumAlong(table, a, w, c);
    UnitBeside(lead, n, l, i);
    assert Moved(c, a, 0) == if down then l + [0, i] else l + [i, 0];
    TableLine(lead, n, w, l, i, line, down);
  }

  /** The cell at `i` across and `k` along the summed axis. */
  function Cell(l: seq<nat>, i: nat, k: nat, down: bool): seq<nat> {
    if down then l + [k, i] else l + [i, k]
  }

  lemma TableLine(lead: Shape, n: nat, w: Vec, l: seq<nat>, i: nat, line: Vec, down: bool)
    requires InRange(lead, l) && i < n && |w| == Numel(lead + [n, n]) && |line| == n
    requires forall k: nat :: k < n ==> InRange(lead + [n, n], Cell(l, i, k, down)) &&
                                        line[k] == At(lead + [n, n], w, Cell(l, i, k, down))
    ensures InRange(lead + [n, n], l + [i, i])
    ensures Line(lead + [n, n], if down then |lead| else |lead| + 1, w, l + [i, i]) == line
  {
    hide Numel, Offset, InRange, Cell, Line, At, Moved;
    var table, a, c := lead + [n, n], if down then |lead| else |lead| + 1, l + [i, i];
    assert InRange(table, c) && table[a] == n && |l| == |lead| by {
      CellInRange(lead, n, l, i, i);
    }
    forall k: nat | k < n
      ensures Line(table, a, w, c)[k] == line[k]
    {
      CellMoved(l, i, k, down);
      LineAt(table, a, w, c, k);
    }
  }

  lemma LineAt(s: Shape, a: nat, x: Vec, c: seq<nat>, k: nat)
    requires a < |s| && |x| == Numel(s) && InRange(s, c) && k < s[a]
    ensures InRange(s, Moved(c, a, k)) && Line(s, a, x, c)[k] == At(s, x, Moved(c, a, k))
  {
    hide Offset, Numel;
    LineInside(s, a, c);
  }

  lemma CellMoved(l: seq<nat>, i: nat, k: nat, down: bool)
    ensures Moved(l + [i, i], if down then |l| else |l| + 1, k) == Cell(l, i, k, down)
  {
  }

  lemma {:induction false} CountIsSum(x: Vec, values: Vec, j: nat, line: Vec, m: nat)
    requires |x| == |values| == |line| && j < |x| && m <= |x|
    requires forall i :: 0 <= i < |x| ==> line[i] == Winner(x, values, i, j)
    ensures PartialSum(line, m) == Count(x, values, j, m)
  {
    hide Winner;
    if m > 0 {
      CountIsSum(x, values, j, line, m - 1);
    }
  }

  lemma {:induction false} ReceivedIsSum(u: Vec, x: Vec, values: Vec, i: nat, line: Vec, m: nat)
    requires |u| == |x| == |values| == |line| && i < |x| && m <= |x|
    requires forall j :: 0 <= j < |x| ==> line[j] == Contribution(u, x, values, i, j)
    ensures PartialSum(line, m) == Received(u, x, values, i, m)
  {
    hide Contribution;
    if m > 0 {
      ReceivedIsSum(u, x, values, i, line, m - 1);
    }
  }

  lemma CountAt(lead: Shape, n: nat, x: Vec, values: Vec, l: seq<nat>, j: nat)
    requires InRange(lead, l) && j < n && |x| == |values| == Numel(lead + [n])
    ensures Fits(lead + [1, n], lead + [n, n]) && Numel(lead + [1, n]) == Numel(lead + [n])
    ensures InRange(lead + [n], l + [j])
    ensures At(lead + [n], SumDown(lead + [1, n], lead + [n, n], WinnerTable(lead, n, x, values)), l + [j]) ==
            Count(Row(lead, n, x, l), Row(lead, n, values, l), j, n)
  {
    hide Fits, Numel, Offset, SumDown, WinnerTable, Winner, At, InRange;
    var X, V := Row(lead, n, x, l), Row(lead, n, values, l);
    var line := seq(n, i requires 0 <= i < n => Winner(X, V, i, j));
    forall i: nat | i < n
      ensures InRange(lead + [n, n], Cell(l, j, i, true)) &&
              line[i] == At(lead + [n, n], WinnerTable(lead, n, x, values), Cell(l, j, i, true))
    {
      WinnerAt(lead, n, x, values, l, i, j);
    }
    TableSums(lead, n, WinnerTable(lead, n, x, values), l, j, line, true);
    CountIsSum(X, V, j, line, n);
  }

  lemma ShareAt(lead: Shape, n: nat, u: Vec, x: Vec, values: Vec, l: seq<nat>, i: nat, j: nat)
    requires InRange(lead, l) && i < n && j < n && |u| == |x| == |values| == Numel(lead + [n])
    ensures InRange(lead + [n, n], l + [i, j])
    ensures At(lead + [n, n], ShareTable(lead, n, u, x, values), l + [i, j]) ==
            Contribution(Row(lead, n, u, l), Row(lead, n, x, l), Row(lead, n, values, l), i, j)
  {
    hide Fits, Numel, Offset, SumDown, WinnerTable, Winner, At, InRange, BinaryValue, Count, Spread, Kept;
    var table, row := lead + [n, n], lead + [1, n];
    TableShapes(lead, n);
    var winners := WinnerTable(lead, n, x, values);
    var counts := SumDown(row, table, winners);
    WinnerAt(lead, n, x, values, l, i, j);
    CountAt(lead, n, x, values, l, j);
    TallAndWide(lead, n, u, l, i, j);
    TallAndWide(lead, n, counts, l, i, j);
    AtBinary(Mul, table, winners, Spread(row, table, u), l + [i, j]);
    AtBinary(Div, table, BinaryVec(Mul, winners, Spread(row, table, u)), Spread(row, table, counts), l + [i, j]);
  }

  lemma ReceivedAt(lead: Shape, n: nat, u: Vec, x: Vec, values: Vec, l: seq<nat>, i: nat)
    requires InRange(lead, l) && i < n && |u| == |x| == |values| == Numel(lead + [n])
    ensures Fits(lead + [n, 1], lead + [n, n]) && Numel(lead + [n, 1]) == Numel(lead + [n])
    ensures InRange(lead + [n], l + [i])
    ensures At(lead + [n], SumDown(lead + [n, 1], lead + [n, n], ShareTable(lead, n, u, x, values)), l + [i]) ==
            Received(Row(lead, n, u, l), Row(lead, n, x, l), Row(lead, n, values, l), i, n)
  {
    hide Fits, Numel, Offset, SumDown, ShareTable, Contribution, At, InRange;
    var U, X, V := Row(lead, n, u, l), Row(lead, n, x, l), Row(lead, n, values, l);
    var line := seq(n, j requires 0 <= j < n => Contribution(U, X, V, i, j));
    forall j: nat | j < n
      ensures InRange(lead + [n, n], Cell(l, i, j, false)) &&
              line[j] == At(lead + [n, n], ShareTable(lead, n, u, x, values), Cell(l, i, j, false))
    {
      ShareAt(lead, n, u, x, values, l, i, j);
    }
    TableSums(lead, n, ShareTable(lead, n, u, x, values), l, i, line, false);
    ReceivedIsSum(U, X, V, i, line, n);
  }

  // Back to the tensor's own axes

  lemma TurnedBack(s: Shape, axis: nat, c: seq<nat>)
    requires axis < |s| && InRange(s, c)
    ensures var axes, t := AxisLast(|s|, axis), Turned(c, axis);
            Permutes(Inverse(axes), |s|) && Permuted(Permuted(s, axes), Inverse(axes)) == s &&
            InRange(Permuted(s, axes), t) && SourceCoords(s, axes, t) == c &&
            SourceCoords(Permuted(s, axes), Inverse(axes), c) == t
  {
    var axes, t := AxisLast(|s|, axis), Turned(c, axis);
    PermutedBack(s, axes);
    InverseInverts(axes);
    assert InRange(Permuted(s, axes), t);
    assert SourceCoords(s, axes, t) == c;
    assert SourceCoords(Permuted(s, axes), Inverse(axes), c) == t;
  }

  lemma PermuteAt(s: Shape, axes: seq<nat>, x: Vec, t: seq<nat>)
    requires Permutes(axes, |s|) && |x| == Numel(s) && InRange(Permuted(s, axes), t)
    ensures At(Permuted(s, axes), Gather(PermuteMap(s, axes), x), t) == At(s, x, SourceCoords(s, axes, t))
  {
    hide Offset, Permuted, SourceCoords;
    CoordsOfOffset(Permuted(s, axes), t);
  }

  /** The last axis of the permuted tensor runs along the line. */
  lemma TurnedLine(s: Shape, axis: nat, x: Vec, c: seq<nat>)
    requires axis < |s| && InRange(s, c) && |x| == Numel(s)
    ensures var lead, l := Lead(s, axis), Turned(c, axis)[..|s| - 1];
            InRange(lead, l) && Turned(c, axis) == l + [c[axis]] &&
            Row(lead, s[axis], Gather(PermuteMap(s, AxisLast(|s|, axis)), x), l) == Line(s, axis, x, c)
  {
    hide Offset, Numel, Permuted, SourceCoords, AxisLast, PermuteMap;
    var lead, l, axes := Lead(s, axis), Turned(c, axis)[..|s| - 1], AxisLast(|s|, axis);
    TurnedParts(s, axis, c, c[axis]);
    LineInside(s, axis, c);
    forall j: nat | j < s[axis]
      ensures Row(lead, s[axis], Gather(PermuteMap(s, axes), x), l)[j] == Line(s, axis, x, c)[j]
    {
      TurnedParts(s, axis, c, j);
      TurnedBack(s, axis, Moved(c, axis, j));
      PermuteAt(s, axes, x, l + [j]);
    }
  }

  lemma TurnedParts(s: Shape, axis: nat, c: seq<nat>, j: nat)
    requires axis < |s| && InRange(s, c) && j < s[axis]
    ensures var l := Turned(c, axis)[..|s| - 1];
            InRange(Lead(s, axis), l) && Turned(Moved(c, axis, j), axis) == l + [j] && Turned(c, axis) == l + [c[axis]]
  {
    var axes, l := AxisLast(|s|, axis), Turned(c, axis)[..|s| - 1];
    assert axes[|s| - 1] == axis;
    assert forall i :: 0 <= i < |s| - 1 ==> axes[i] != axis;
    assert Turned(Moved(c, axis, j), axis) == l + [j];
    assert Turned(c, axis) == l + [c[axis]];
  }

  lemma SameLength(s: Shape, c: seq<nat>)
    requires InRange(s, c)
    ensures |c| == |s| && Numel(s) > 0 && forall i :: 0 <= i < |s| ==> c[i] < s[i]
  {
    OffsetBound(s, c);
  }

  /** Each element of the tensor rule receives its line's shares. */
  lemma BestsVjpAt(s: Shape, axis: nat, u: Vec, x: Vec, values: Vec, c: seq<nat>)
    requires axis < |s| && |u| == |x| == |values| == Numel(s) && InRange(s, c)
    ensures At(s, BestsVjpAlong(s, axis, u, x, values), c) ==
            Received(Line(s, axis, u, c), Line(s, axis, x, c), Line(s, axis, values, c), c[axis], s[axis])
  {
    SameLength(s, c);
    hide Offset, Numel, Permuted, SourceCoords, AxisLast, PermuteMap, InRange, At, Row, SumDown, ShareTable, Received,
         Line, Fits,
         Kept, Turned, Lead, Inverse, Permutes, LineMap, OperandMap;
    var axes, lead, n, l := AxisLast(|s|, axis), Lead(s, axis), s[axis], Turned(c, axis)[..|s| - 1];
    var m := PermuteMap(s, axes);
    TableShapes(lead, n);
    PermutedBack(s, axes);
    TurnedBack(s, axis, c);
    TurnedLine(s, axis, u, c);
    TurnedLine(s, axis, x, c);
    TurnedLine(s, axis, values, c);
    ReceivedAt(lead, n, Gather(m, u), Gather(m, x), Gather(m, values), l, c[axis]);
    var turned := SumDown(lead + [n, 1], lead + [n, n],
                          ShareTable(lead, n, Gather(m, u), Gather(m, x), Gather(m, values)));
    PermuteAt(lead + [n], Inverse(axes), turned, c);
  }

  /** Every line of the tensor rule is the one-line rule, at every rank and axis. */
  lemma BestsVjpLines(s: Shape, axis: nat, u: Vec, x: Vec, values: Vec, c: seq<nat>)
    requires axis < |s| && |u| == |x| == |values| == Numel(s) && InRange(s, c)
    ensures Line(s, axis, BestsVjpAlong(s, axis, u, x, values), c) ==
            BestsVjp(Line(s, axis, u, c), Line(s, axis, x, c), Line(s, axis, values, c))
  {
    hide BestsVjpAlong, Received, Offset, Numel;
    var y := BestsVjpAlong(s, axis, u, x, values);
    LineInside(s, axis, c);
    forall j: nat | j < s[axis]
      ensures Line(s, axis, y, c)[j] == BestsVjp(Line(s, axis, u, c), Line(s, axis, x, c), Line(s, axis, values, c))[j]
    {
      SameLine(s, axis, c, j);
      BestsVjpAt(s, axis, u, x, values, Moved(c, axis, j));
    }
  }

  /** Gradient mass is conserved on every line of the tensor: what a line receives is what its prefixes were given. */
  lemma LineMassConserved(kind: Extremum, s: Shape, axis: nat, u: Vec, x: Vec, c: seq<nat>)
    requires axis < |s| && |u| == |x| == Numel(s) && InRange(s, c)
    ensures var values := AlongAxis(PrefixBests(kind), s, axis, x);
            PartialSum(Line(s, axis, BestsVjpAlong(s, axis, u, x, values), c), s[axis]) ==
            PartialSum(Line(s, axis, u, c), s[axis])
  {
    hide BestsVjpAlong, BestsVjp, AlongAxis, Line;
    BestsVjpLines(s, axis, u, x, AlongAxis(PrefixBests(kind), s, axis, x), c);
    LineOfAlong(PrefixBests(kind), s, axis, x, c);
    MassConserved(kind, Line(s, axis, u, c), Line(s, axis, x, c));
  }
}
