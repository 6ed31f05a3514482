/** Checked row-major indexing: strides, coordinates, offsets and broadcast offsets over 64-bit counts. */
module Indexing {
  import opened Wrappers
  import opened Shapes

  datatype IndexError = ShapeOverflow(shape: Shape) | InvalidIndex

  datatype DenseIndex = DenseIndex(shape: Shape, strides: seq<nat>, len: nat)

  /** Every stride is the element count of the axes after it, and every count along the way is representable. */
  ghost predicate Sound(x: DenseIndex) {
    |x.strides| == |x.shape| && x.len == Numel(x.shape) <= COUNT_LIMIT &&
    forall i :: 0 <= i < |x.shape| ==> x.strides[i] == Numel(x.shape[i + 1..]) <= COUNT_LIMIT
  }

  /** All leading products are representable. */
  ghost predicate LeadingFit(s: Shape) {
    forall i: nat :: i <= |s| ==> Numel(s[..i]) <= COUNT_LIMIT
  }

  /** All trailing products are representable. */
  ghost predicate TrailingFit(s: Shape) {
    forall i: nat :: i <= |s| ==> Numel(s[i..]) <= COUNT_LIMIT
  }

  lemma NumelPush(s: Shape, i: nat)
    requires i < |s|
    ensures Numel(s[..i + 1]) == Numel(s[..i]) * s[i]
  {
    assert s[..i + 1] == s[..i] + [s[i]];
    NumelConcat(s[..i], [s[i]]);
    assert [s[i]][1..] == [];
    assert Numel([s[i]]) == s[i] * Numel([]);
  }

  /** The checked element count succeeds exactly when all leading products are representable. */
  lemma {:induction false} CheckedNumelIs(s: Shape)
    ensures CheckedNumel(s) == if LeadingFit(s) then Some(Numel(s)) else None
  {
    if |s| > 0 {
      var n := |s| - 1;
      CheckedNumelIs(s[..n]);
      NumelPush(s, n);
      assert s[..n + 1] == s;
      assert forall i: nat :: i <= n ==> s[..n][..i] == s[..i];
      assert LeadingFit(s) <==> LeadingFit(s[..n]) && Numel(s) <= COUNT_LIMIT by {
        LeadingPush(s);
      }
    }
  }

  lemma LeadingPush(s: Shape)
    requires |s| > 0
    ensures LeadingFit(s) <==> LeadingFit(s[..|s| - 1]) && Numel(s) <= COUNT_LIMIT
  {
    var n := |s| - 1;
    assert s[..n + 1] == s;
    assert forall i: nat :: i <= n ==> s[..n][..i] == s[..i];
    if LeadingFit(s) {
      assert Numel(s[..n + 1]) <= COUNT_LIMIT;
      forall i: nat | i <= n
        ensures Numel(s[..n][..i]) <= COUNT_LIMIT
      {
        assert Numel(s[..i]) <= COUNT_LIMIT;
      }
    }
    if LeadingFit(s[..n]) && Numel(s) <= COUNT_LIMIT {
      forall i: nat | i <= |s|
        ensures Numel(s[..i]) <= COUNT_LIMIT
      {
        if i <= n {
          assert Numel(s[..n][..i]) <= COUNT_LIMIT;
        } else {
          assert s[..i] == s;
        }
      }
    }
  }

  /**
   * Builds an index, or refuses a shape with a leading or trailing product out of range, even when another axis is
   * empty.
   */
  method New(s: Shape) returns (r: Result<DenseIndex, IndexError>)
    ensures r.Ok? <==> LeadingFit(s) && TrailingFit(s)
    ensures r.Ok? ==> r.value.shape == s && Sound(r.value)
    ensures r.Err? ==> r.error == ShapeOverflow(s)
  {
    hide LeadingFit, CheckedNumel;
    var len := CheckedNumel(s);
    CheckedNumelIs(s);
    if len.None? {
      return Err(ShapeOverflow(s));
    }
    var stride := 1;
    var strides: seq<nat> := seq(|s|, _ => 0);
    NumelEnd(s);
    hide Numel;
    for i := |s| downto 0
      invariant |strides| == |s| && stride == Numel(s[i..])
      invariant forall j: nat :: i <= j <= |s| ==> Numel(s[j..]) <= COUNT_LIMIT
      invariant forall j :: i <= j < |s| ==> strides[j] == Numel(s[j + 1..])
    {
      strides := strides[i := stride];
      NumelFrom(s, i);
      if stride * s[i] > COUNT_LIMIT {
        assert Numel(s[i..]) > COUNT_LIMIT;
        return Err(ShapeOverflow(s));
      }
      stride := stride * s[i];
    }
    assert s[0..] == s;
    return Ok(DenseIndex(s, strides, len.value));
  }

  lemma NumelEnd(s: Shape)
    ensures Numel(s[|s|..]) == 1
  {
    assert s[|s|..] == [];
  }

  lemma NumelFrom(s: Shape, i: nat)
    requires i < |s|
    ensures Numel(s[i..]) == Numel(s[i + 1..]) * s[i]
  {
    assert s[i..][1..] == s[i + 1..];
  }

  /** Coordinates of a linear index: divide by each stride, reduce by each extent. */
  function CoordsOf(x: DenseIndex, n: nat): (r: Result<seq<nat>, IndexError>)
    requires Sound(x)
    ensures r.Ok? <==> n < x.len
  {
    if n >= x.len then Err(InvalidIndex)
    else
      Extents(x.shape);
      Ok(seq(|x.shape|, i requires 0 <= i < |x.shape| => n / x.strides[i] % x.shape[i]))
  }

  lemma Extents(s: Shape)
    requires Numel(s) > 0
    ensures forall i: nat :: i < |s| ==> s[i] > 0 && Numel(s[i + 1..]) > 0
  {
    forall i: nat | i < |s|
      ensures s[i] > 0 && Numel(s[i + 1..]) > 0
    {
      Positive(s, i);
    }
  }

  /** Adding up the first `k` coordinates times their strides, refusing any partial result out of range. */
  function Accumulated(x: DenseIndex, c: seq<nat>, k: nat): Option<nat>
    requires |c| == |x.strides| && k <= |c|
  {
    if k == 0 then Some(0)
    else
      match Accumulated(x, c, k - 1)
      case None => None
      case Some(o) =>
        if c[k - 1] * x.strides[k - 1] > COUNT_LIMIT || o + c[k - 1] * x.strides[k - 1] > COUNT_LIMIT then None
        else Some(o + c[k - 1] * x.strides[k - 1])
  }

  function OffsetAt(x: DenseIndex, c: seq<nat>): Result<nat, IndexError>
    requires |x.strides| == |x.shape|
  {
    if |c| != |x.shape| || !InRange(x.shape, c) then Err(InvalidIndex)
    else
      match Accumulated(x, c, |c|)
      case None => Err(InvalidIndex)
      case Some(o) => Ok(o)
  }

  lemma OffsetFrom(s: Shape, c: seq<nat>, k: nat)
    requires |c| == |s| && 0 < k <= |s|
    ensures Offset(s[k - 1..], c[k - 1..]) == c[k - 1] * Numel(s[k..]) + Offset(s[k..], c[k..])
  {
    assert s[k - 1..][1..] == s[k..] && c[k - 1..][1..] == c[k..];
  }

  /** The partial sums never leave the range: each is a share of the final offset. */
  lemma {:induction false} AccumulatedIs(x: DenseIndex, c: seq<nat>, k: nat)
    requires Sound(x) && InRange(x.shape, c) && k <= |c|
    ensures Accumulated(x, c, k).Some?
    ensures Accumulated(x, c, k).value + Offset(x.shape[k..], c[k..]) == Offset(x.shape, c)
    ensures Offset(x.shape, c) < x.len
  {
    OffsetBound(x.shape, c);
    if k > 0 {
      AccumulatedIs(x, c, k - 1);
      OffsetFrom(x.shape, c, k);
      hide Offset, Numel;
    } else {
      assert x.shape[0..] == x.shape && c[0..] == c;
    }
  }

  /**
   * An offset is refused exactly for coordinates out of range, and otherwise is the row-major position below the
   * length.
   */
  lemma OffsetAtIs(x: DenseIndex, c: seq<nat>)
    requires Sound(x)
    ensures OffsetAt(x, c).Ok? <==> InRange(x.shape, c)
    ensures InRange(x.shape, c) ==> OffsetAt(x, c) == Ok(Offset(x.shape, c)) && OffsetAt(x, c).value < x.len
  {
    if InRange(x.shape, c) {
      AccumulatedIs(x, c, |c|);
    }
  }

  /** Below the length the coordinates are the row-major ones, in range; from the length on there are none. */
  lemma CoordsOfIs(x: DenseIndex, n: nat)
    requires Sound(x)
    ensures CoordsOf(x, n) == if n < x.len then Ok(Coords(x.shape, n)) else Err(InvalidIndex)
    ensures n < x.len ==> InRange(x.shape, CoordsOf(x, n).value) && Offset(x.shape, CoordsOf(x, n).value) == n
  {
    if n < x.len {
      Extents(x.shape);
      assert CoordsOf(x, n).value == Coords(x.shape, n);
      OffsetOfCoords(x.shape, n);
    }
  }

  /** Coordinates and offsets are mutually inverse, for every shape and rank the index accepts. */
  lemma IndexRoundTrip(x: DenseIndex, n: nat, c: seq<nat>)
    requires Sound(x)
    ensures n < x.len ==> CoordsOf(x, n).Ok? && OffsetAt(x, CoordsOf(x, n).value) == Ok(n)
    ensures InRange(x.shape, c) ==> OffsetAt(x, c).Ok? && CoordsOf(x, OffsetAt(x, c).value) == Ok(c)
  {
    hide CoordsOf, OffsetAt;
    if n < x.len {
      CoordsOfIs(x, n);
      OffsetAtIs(x, Coords(x.shape, n));
      OffsetOfCoords(x.shape, n);
    }
    if InRange(x.shape, c) {
      OffsetAtIs(x, c);
      CoordsOfOffset(x.shape, c);
      CoordsOfIs(x, Offset(x.shape, c));
    }
  }

  /** The operand coordinate an output coordinate reads: size-one axes read position zero. */
  function Mapped(s: Shape, c: seq<nat>): (r: seq<nat>)
    requires |s| <= |c|
    ensures |r| == |s| && forall i :: 0 <= i < |s| ==> r[i] == if s[i] == 1 then 0 else c[i + (|c| - |s|)]
  {
    seq(|s|, i requires 0 <= i < |s| => if s[i] == 1 then 0 else c[i + (|c| - |s|)])
  }

  function BroadcastOffset(x: DenseIndex, out: DenseIndex, c: seq<nat>): Result<nat, IndexError>
    requires |x.strides| == |x.shape|
  {
    if |c| != |out.shape| || |x.shape| > |out.shape| then Err(InvalidIndex) else OffsetAt(x, Mapped(x.shape, c))
  }

  lemma MappedIsOperand(inner: Shape, outer: Shape, c: seq<nat>)
    requires Fits(inner, outer) && InRange(outer, c)
    ensures Mapped(inner, c) == OperandCoords(inner, outer, c)
  {
  }

  /** The output's rank suits the operand, and the coordinate stays inside every operand axis that is not one. */
  ghost predicate Readable(s: Shape, rank: nat, c: seq<nat>) {
    |c| == rank >= |s| && forall i :: 0 <= i < |s| && s[i] != 1 ==> c[i + (rank - |s|)] < s[i]
  }

  lemma ReadableIs(s: Shape, rank: nat, c: seq<nat>)
    requires |c| == rank >= |s|
    ensures Readable(s, rank, c) <==> InRange(s, Mapped(s, c))
  {
    var m := Mapped(s, c);
    assert forall i :: 0 <= i < |s| ==> m[i] == if s[i] == 1 then 0 else c[i + (rank - |s|)];
  }

  /**
   * A broadcast offset is refused exactly for a wrong rank or a coordinate outside an operand axis. For a shape that
   * broadcasts to the output it is the operand map at the output's own offset.
   */
  lemma BroadcastOffsetIs(x: DenseIndex, out: DenseIndex, c: seq<nat>)
    requires Sound(x) && Sound(out)
    ensures BroadcastOffset(x, out, c) ==
            if Readable(x.shape, |out.shape|, c) then Ok(Offset(x.shape, Mapped(x.shape, c))) else Err(InvalidIndex)
    ensures Fits(x.shape, out.shape) && InRange(out.shape, c) ==>
              Offset(out.shape, c) < out.len &&
              BroadcastOffset(x, out, c) == Ok(OperandMap(x.shape, out.shape)[Offset(out.shape, c)])
  {
    hide Offset, Mapped, Numel, OffsetAt, OperandMap;
    if |c| == |out.shape| >= |x.shape| {
      ReadableIs(x.shape, |out.shape|, c);
      OffsetAtIs(x, Mapped(x.shape, c));
      OffsetAtRefuses(x, Mapped(x.shape, c));
    }
    if Fits(x.shape, out.shape) && InRange(out.shape, c) {
      OperandAt(x.shape, out.shape, c);
      MappedIsOperand(x.shape, out.shape, c);
    }
  }

  lemma OffsetAtRefuses(x: DenseIndex, c: seq<nat>)
    requires |x.strides| == |x.shape|
    ensures !InRange(x.shape, c) ==> OffsetAt(x, c) == Err(InvalidIndex)
  {
  }

  lemma OperandAt(inner: Shape, outer: Shape, c: seq<nat>)
    requires Fits(inner, outer) && InRange(outer, c)
    ensures Offset(outer, c) < Numel(outer)
    ensures OperandMap(inner, outer)[Offset(outer, c)] == Offset(inner, OperandCoords(inner, outer, c))
  {
    hide OperandCoords, Offset, Fits;
    CoordsOfOffset(outer, c);
  }
}
