/** Dense shapes: element counts, row-major coordinates and broadcasting. */
module Shapes {
  import opened Wrappers

  type Shape = seq<nat>

  /** The largest representable count. */
  const COUNT_LIMIT: nat := 0xFFFF_FFFF_FFFF_FFFF

  /** The checked element count, refused as soon as a leading product leaves the 64-bit range. */
  function CheckedNumel(s: Shape): Option<nat> {
    if |s| == 0 then Some(1)
    else
      match CheckedNumel(s[..|s| - 1])
      case None => None
      case Some(n) => if n * s[|s| - 1] <= COUNT_LIMIT then Some(n * s[|s| - 1]) else None
  }

  /** The mathematical element count. */
  function Numel(s: Shape): nat {
    if |s| == 0 then 1 else s[0] * Numel(s[1..])
  }

  predicate InRange(s: Shape, c: seq<nat>) {
    |c| == |s| && forall i :: 0 <= i < |s| ==> c[i] < s[i]
  }

  /** Row-major offset of a coordinate vector. */
  function Offset(s: Shape, c: seq<nat>): nat
    requires |c| == |s|
  {
    if |s| == 0 then 0 else c[0] * Numel(s[1..]) + Offset(s[1..], c[1..])
  }

  /** The coordinate of linear index `n` along axis `i`: divide by the stride, reduce by the extent. */
  function Coord(s: Shape, n: nat, i: nat): (c: nat)
    requires n < Numel(s) && i < |s|
    ensures c < s[i]
  {
    Positive(s, i);
    (n / Numel(s[i + 1..])) % s[i]
  }

  function Coords(s: Shape, n: nat): (c: seq<nat>)
    requires n < Numel(s)
    ensures InRange(s, c)
  {
    seq(|s|, i requires 0 <= i < |s| => Coord(s, n, i))
  }

  lemma {:induction false} Positive(s: Shape, i: nat)
    requires Numel(s) > 0 && i < |s|
    ensures s[i] > 0 && Numel(s[i + 1..]) > 0 && Numel(s[i..]) == s[i] * Numel(s[i + 1..])
  {
    assert s[i..][1..] == s[i + 1..];
    if i > 0 {
      Positive(s[1..], i - 1);
      assert s[1..][i - 1..] == s[i..];
      assert s[1..][i..] == s[i + 1..];
    } else {
      assert s[0..] == s;
    }
  }

  lemma {:induction false} NumelConcat(a: Shape, b: Shape)
    ensures Numel(a + b) == Numel(a) * Numel(b)
  {
    if |a| == 0 {
      assert a + b == b;
    } else {
      NumelConcat(a[1..], b);
      assert (a + b)[1..] == a[1..] + b;
      assert a[0] * (Numel(a[1..]) * Numel(b)) == (a[0] * Numel(a[1..])) * Numel(b);
    }
  }

  lemma {:induction false} OffsetBound(s: Shape, c: seq<nat>)
    requires InRange(s, c)
    ensures Offset(s, c) < Numel(s)
  {
    if |s| > 0 {
      OffsetBound(s[1..], c[1..]);
      assert c[0] * Numel(s[1..]) + Numel(s[1..]) == (c[0] + 1) * Numel(s[1..]);
      MulMono(c[0] + 1, s[0], Numel(s[1..]));
    }
  }

  lemma MulMono(a: nat, b: nat, m: nat)
    requires a <= b
    ensures a * m <= b * m
  {
  }

  lemma DivModUnique(q: nat, r: nat, m: nat)
    requires r < m
    ensures (q * m + r) / m == q && (q * m + r) % m == r
  {
    var n := q * m + r;
    var d, e := n / m, n % m;
    assert d * m + e == n && e < m;
    if d > q {
      MulMono(q + 1, d, m);
    } else if d < q {
      MulMono(d + 1, q, m);
    }
  }

  lemma DivShift(k: nat, low: nat, stride: nat)
    requires stride > 0
    ensures (k * stride + low) / stride == k + low / stride
  {
    var q, r := low / stride, low % stride;
    assert low == q * stride + r;
    assert (k + q) * stride == k * stride + q * stride;
    DivModUnique(k + q, r, stride);
  }

  lemma ModShift(k: nat, low: nat, extent: nat)
    requires extent > 0
    ensures (k * extent + low) % extent == low % extent
  {
    var q, r := low / extent, low % extent;
    assert low == q * extent + r;
    assert (k + q) * extent == k * extent + q * extent;
    DivModUnique(k + q, r, extent);
  }

  lemma MulAssoc4(a: nat, b: nat, c: nat, d: nat)
    ensures a * (b * (c * d)) == ((a * b) * c) * d
  {
    assert b * (c * d) == (b * c) * d;
    assert a * ((b * c) * d) == (a * (b * c)) * d;
    assert a * (b * c) == (a * b) * c;
  }

  /** Dividing first and reducing later sees only the low part of the index. */
  lemma DivModSplit(n: nat, stride: nat, extent: nat, copies: nat, block: nat)
    requires stride > 0 && extent > 0 && block > 0
    requires block == copies * (extent * stride)
    ensures (n / stride) % extent == ((n % block) / stride) % extent
  {
    var m, low := n / block, n % block;
    assert n == m * block + low;
    MulAssoc4(m, copies, extent, stride);
    var k := (m * copies) * extent;
    assert n == k * stride + low;
    DivShift(k, low, stride);
    ModShift(m * copies, low / stride, extent);
  }

  lemma LeadingQuotient(n: nat, rows: nat, block: nat)
    requires block > 0 && n < rows * block
    ensures n / block < rows
    ensures (n / block) % rows == n / block
  {
    var d := n / block;
    assert n == d * block + n % block;
    if d >= rows {
      MulMono(rows, d, block);
    }
  }

  lemma CoordTail(s: Shape, n: nat, i: nat)
    requires |s| > 0 && n < Numel(s) && i < |s| - 1 && Numel(s[1..]) > 0
    ensures Coord(s, n, i + 1) == Coord(s[1..], n % Numel(s[1..]), i)
  {
    var tail := s[1..];
    Positive(tail, i);
    assert tail == tail[..i] + tail[i..];
    NumelConcat(tail[..i], tail[i..]);
    assert tail[i + 1..] == s[i + 2..];
    DivModSplit(n, Numel(tail[i + 1..]), tail[i], Numel(tail[..i]), Numel(tail));
  }

  lemma CoordHead(s: Shape, n: nat)
    requires |s| > 0 && n < Numel(s)
    ensures Numel(s[1..]) > 0 && n / Numel(s[1..]) < s[0]
    ensures Coord(s, n, 0) == n / Numel(s[1..])
  {
    Positive(s, 0);
    assert s[0..] == s && s[0 + 1..] == s[1..];
    LeadingQuotient(n, s[0], Numel(s[1..]));
  }

  /** Peeling the leading axis off a linear index. */
  lemma CoordsUnfold(s: Shape, n: nat)
    requires |s| > 0 && n < Numel(s)
    ensures Numel(s[1..]) > 0 && n / Numel(s[1..]) < s[0] && n % Numel(s[1..]) < Numel(s[1..])
    ensures Coords(s, n) == [n / Numel(s[1..])] + Coords(s[1..], n % Numel(s[1..]))
  {
    hide Numel, Coord, Coords;
    CoordHead(s, n);
    var size := Numel(s[1..]);
    var c, d := Coords(s, n), Coords(s[1..], n % size);
    forall i | 0 <= i < |s|
      ensures c[i] == ([n / size] + d)[i]
    {
      CoordsAt(s, n, i);
      if i > 0 {
        CoordTail(s, n, i - 1);
        CoordsAt(s[1..], n % size, i - 1);
      }
    }
  }

  lemma CoordsAt(s: Shape, n: nat, i: nat)
    requires n < Numel(s) && i < |s|
    ensures Coords(s, n)[i] == Coord(s, n, i)
  {
  }

  lemma QuotientRemainder(n: nat, m: nat)
    requires m > 0
    ensures (n / m) * m + n % m == n
  {
  }

  lemma {:induction false} OffsetOfCoords(s: Shape, n: nat)
    requires n < Numel(s)
    ensures Offset(s, Coords(s, n)) == n
  {
    if |s| > 0 {
      CoordsUnfold(s, n);
      var block := Numel(s[1..]);
      OffsetOfCoords(s[1..], n % block);
      var c := Coords(s, n);
      assert c[0] == n / block && c[1..] == Coords(s[1..], n % block);
      assert Offset(s, c) == c[0] * block + Offset(s[1..], c[1..]);
      QuotientRemainder(n, block);
    }
  }

  lemma {:induction false} CoordsOfOffset(s: Shape, c: seq<nat>)
    requires InRange(s, c)
    ensures Offset(s, c) < Numel(s)
    ensures Coords(s, Offset(s, c)) == c
  {
    OffsetBound(s, c);
    if |s| > 0 {
      OffsetBound(s[1..], c[1..]);
      CoordsOfOffset(s[1..], c[1..]);
      DivModUnique(c[0], Offset(s[1..], c[1..]), Numel(s[1..]));
      CoordsUnfold(s, Offset(s, c));
    }
  }

  // Broadcasting, aligned at the trailing axis.

  /** Extent `i` of `s` once it is padded on the left to `rank` axes with ones. */
  function Aligned(s: Shape, rank: nat, i: nat): nat
    requires |s| <= rank && i < rank
  {
    if i < rank - |s| then 1 else s[i - (rank - |s|)]
  }

  function Max(a: nat, b: nat): nat {
    if a > b then a else b
  }

  function JoinExtent(l: nat, r: nat): nat {
    if l == 0 || r == 0 then 0 else Max(l, r)
  }

  predicate Compatible(a: Shape, b: Shape) {
    var rank := Max(|a|, |b|);
    forall i :: 0 <= i < rank ==>
      Aligned(a, rank, i) == Aligned(b, rank, i) || Aligned(a, rank, i) == 1 || Aligned(b, rank, i) == 1
  }

  function Broadcast(a: Shape, b: Shape): Option<Shape> {
    var rank := Max(|a|, |b|);
    if Compatible(a, b)
    then Some(seq(rank, i requires 0 <= i < rank => JoinExtent(Aligned(a, rank, i), Aligned(b, rank, i))))
    else None
  }

  /** `inner` broadcasts to exactly `outer`. */
  predicate Fits(inner: Shape, outer: Shape) {
    |inner| <= |outer| &&
    forall i :: 0 <= i < |inner| ==> inner[i] == 1 || inner[i] == outer[i + (|outer| - |inner|)]
  }

  /** Both operands of a join broadcast to the joined shape. */
  lemma JoinFits(a: Shape, b: Shape, out: Shape)
    requires Broadcast(a, b) == Some(out)
    ensures Fits(a, out) && Fits(b, out)
  {
    var rank := |out|;
    forall i | 0 <= i < |a|
      ensures a[i] == 1 || a[i] == out[i + (rank - |a|)]
    {
      assert Aligned(a, rank, i + (rank - |a|)) == a[i];
    }
    forall i | 0 <= i < |b|
      ensures b[i] == 1 || b[i] == out[i + (rank - |b|)]
    {
      assert Aligned(b, rank, i + (rank - |b|)) == b[i];
    }
  }

  lemma FitsIffBroadcast(inner: Shape, outer: Shape)
    ensures Fits(inner, outer) <==> Broadcast(inner, outer) == Some(outer)
    ensures Fits(inner, outer) <==> Broadcast(outer, inner) == Some(outer)
  {
    var rank := Max(|inner|, |outer|);
    if Fits(inner, outer) {
      var p := |outer| - |inner|;
      forall i | 0 <= i < rank
        ensures Aligned(inner, rank, i) == 1 || Aligned(inner, rank, i) == Aligned(outer, rank, i)
      {
        if i >= p {
          assert inner[i - p] == 1 || inner[i - p] == outer[i - p + p];
        }
      }
      assert Compatible(inner, outer) && Compatible(outer, inner);
      assert Broadcast(inner, outer).value == outer;
      assert Broadcast(outer, inner).value == outer;
    }
    if Broadcast(inner, outer) == Some(outer) {
      JoinFits(inner, outer, outer);
    }
    if Broadcast(outer, inner) == Some(outer) {
      JoinFits(outer, inner, outer);
    }
  }

  /** The operand coordinate read by output coordinate `c`: size-one axes always read zero. */
  function OperandCoords(inner: Shape, outer: Shape, c: seq<nat>): (r: seq<nat>)
    requires Fits(inner, outer) && InRange(outer, c)
    ensures InRange(inner, r)
  {
    var p := |outer| - |inner|;
    seq(|inner|, i requires 0 <= i < |inner| => if inner[i] == 1 then 0 else c[i + p])
  }

  /** The operand offset read by output offset `n`. */
  function OperandOffset(inner: Shape, outer: Shape, n: nat): (r: nat)
    requires Fits(inner, outer) && n < Numel(outer)
    ensures r < Numel(inner)
  {
    OffsetBound(inner, OperandCoords(inner, outer, Coords(outer, n)));
    Offset(inner, OperandCoords(inner, outer, Coords(outer, n)))
  }

  /** All operand offsets, one for each output element in row-major order. */
  function OperandMap(inner: Shape, outer: Shape): (m: seq<nat>)
    requires Fits(inner, outer)
    ensures |m| == Numel(outer)
    ensures forall k :: 0 <= k < |m| ==> m[k] < Numel(inner)
  {
    seq(Numel(outer), n requires 0 <= n < Numel(outer) => OperandOffset(inner, outer, n))
  }

  function Identity(n: nat): (m: seq<nat>)
    ensures |m| == n && forall k :: 0 <= k < n ==> m[k] == k
  {
    seq(n, k requires 0 <= k < n => k)
  }

  lemma OperandMapSelf(s: Shape)
    ensures Fits(s, s)
    ensures OperandMap(s, s) == Identity(Numel(s))
  {
    forall n | 0 <= n < Numel(s)
      ensures OperandOffset(s, s, n) == n
    {
      assert OperandCoords(s, s, Coords(s, n)) == Coords(s, n);
      OffsetOfCoords(s, n);
    }
  }

  function Ones(n: nat): (s: Shape)
    ensures |s| == n && forall i :: 0 <= i < n ==> s[i] == 1
  {
    seq(n, _ => 1)
  }

  function Origin(n: nat): (s: seq<nat>)
    ensures |s| == n && forall i :: 0 <= i < n ==> s[i] == 0
  {
    seq(n, _ => 0)
  }

  lemma {:induction false} OffsetPadded(p: nat, s: Shape, c: seq<nat>)
    requires |c| == |s|
    ensures Numel(Ones(p) + s) == Numel(s)
    ensures Offset(Ones(p) + s, Origin(p) + c) == Offset(s, c)
  {
    var ps, pc := Ones(p) + s, Origin(p) + c;
    if p == 0 {
      assert ps == s && pc == c;
    } else {
      assert ps[1..] == Ones(p - 1) + s;
      assert pc[1..] == Origin(p - 1) + c;
      OffsetPadded(p - 1, s, c);
    }
  }

  /** Left padding with ones changes neither the element count nor any operand offset. */
  lemma PaddedMap(inner: Shape, outer: Shape)
    requires Fits(inner, outer)
    ensures var padded := Ones(|outer| - |inner|) + inner;
            Fits(padded, outer) && Numel(padded) == Numel(inner) &&
            OperandMap(padded, outer) == OperandMap(inner, outer)
  {
    var p := |outer| - |inner|;
    var padded := Ones(p) + inner;
    forall i | 0 <= i < |padded|
      ensures padded[i] == 1 || padded[i] == outer[i]
    {
      if i >= p {
        assert inner[i - p] == 1 || inner[i - p] == outer[i - p + p];
      }
    }
    OffsetPadded(p, inner, Origin(|inner|));
    forall n | 0 <= n < Numel(outer)
      ensures OperandOffset(padded, outer, n) == OperandOffset(inner, outer, n)
    {
      PaddedOffset(inner, outer, padded, Coords(outer, n));
    }
  }

  lemma PaddedOffset(inner: Shape, outer: Shape, padded: Shape, c: seq<nat>)
    requires Fits(inner, outer) && padded == Ones(|outer| - |inner|) + inner && Fits(padded, outer) && InRange(outer, c)
    ensures Offset(padded, OperandCoords(padded, outer, c)) == Offset(inner, OperandCoords(inner, outer, c))
  {
    hide Offset, Fits, OperandCoords;
    PaddedCoords(inner, outer, padded, c);
    OffsetPadded(|outer| - |inner|, inner, OperandCoords(inner, outer, c));
  }

  lemma PaddedCoords(inner: Shape, outer: Shape, padded: Shape, c: seq<nat>)
    requires Fits(inner, outer) && padded == Ones(|outer| - |inner|) + inner && Fits(padded, outer) && InRange(outer, c)
    ensures OperandCoords(padded, outer, c) == Origin(|outer| - |inner|) + OperandCoords(inner, outer, c)
  {
    var p := |outer| - |inner|;
    hide Fits, OperandCoords;
    var wide, narrow := OperandCoords(padded, outer, c), OperandCoords(inner, outer, c);
    forall i: nat | i < |padded|
      ensures wide[i] == if i < p then 0 else narrow[i - p]
    {
      PaddedCoord(inner, outer, padded, c, i);
    }
    assert wide == Origin(p) + narrow;
  }

  lemma PaddedCoord(inner: Shape, outer: Shape, padded: Shape, c: seq<nat>, i: nat)
    requires Fits(inner, outer) && padded == Ones(|outer| - |inner|) + inner && Fits(padded, outer) && InRange(outer, c)
    requires i < |padded|
    ensures var p := |outer| - |inner|;
            OperandCoords(padded, outer, c)[i] == if i < p then 0 else OperandCoords(inner, outer, c)[i - p]
  {
    hide Fits;
    var p := |outer| - |inner|;
    assert padded[i] == if i < p then 1 else inner[i - p];
  }
}
