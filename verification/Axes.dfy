/** Axis bookkeeping behind reductions and permutations. */
module Axes {
  import opened Shapes

  // Reductions

  /** Ascending, distinct and within the rank, as axis normalization leaves them. */
  predicate Normalized(axes: seq<nat>, rank: nat) {
    (forall i :: 0 <= i < |axes| ==> axes[i] < rank) &&
    (forall i, j :: 0 <= i < j < |axes| ==> axes[i] < axes[j])
  }

  /** The reduced shape with every reduced axis kept at extent one. */
  function Kept(s: Shape, axes: seq<nat>): (r: Shape)
    ensures |r| == |s|
  {
    seq(|s|, i requires 0 <= i < |s| => if i in axes then 1 else s[i])
  }

  /** The extents from axis `from` on that are not reduced. */
  function Unreduced(s: Shape, axes: seq<nat>, from: nat): Shape
    requires from <= |s|
    decreases |s| - from
  {
    if from == |s| then []
    else (if from in axes then [] else [s[from]]) + Unreduced(s, axes, from + 1)
  }

  function ReducedShape(s: Shape, axes: seq<nat>, keepdim: bool): Shape {
    if keepdim then Kept(s, axes) else Unreduced(s, axes, 0)
  }

  lemma KeptFits(s: Shape, axes: seq<nat>)
    ensures Fits(Kept(s, axes), s)
  {
  }

  lemma {:induction false} UnreducedNumel(s: Shape, axes: seq<nat>, from: nat)
    requires from <= |s|
    ensures Numel(Unreduced(s, axes, from)) == Numel(Kept(s, axes)[from..])
    decreases |s| - from
  {
    if from < |s| {
      UnreducedNumel(s, axes, from + 1);
      var kept := Kept(s, axes);
      var rest := Unreduced(s, axes, from + 1);
      assert kept[from..][1..] == kept[from + 1..];
      assert Numel(kept[from..]) == kept[from] * Numel(kept[from + 1..]);
      if from in axes {
        assert Unreduced(s, axes, from) == rest;
      } else {
        assert Unreduced(s, axes, from) == [s[from]] + rest;
        assert ([s[from]] + rest)[1..] == rest;
      }
    }
  }

  lemma ReducedNumel(s: Shape, axes: seq<nat>, keepdim: bool)
    ensures Numel(ReducedShape(s, axes, keepdim)) == Numel(Kept(s, axes))
  {
    UnreducedNumel(s, axes, 0);
    assert Kept(s, axes)[0..] == Kept(s, axes);
  }

  /** Re-inserting a unit extent at each of the first `count` reduced axes, in order. */
  function Reinserted(s: Shape, axes: seq<nat>, count: nat): Shape
    requires Normalized(axes, |s|) && count <= |axes|
  {
    if count == 0 then Unreduced(s, axes, 0)
    else
      var d := Reinserted(s, axes, count - 1);
      var at := axes[count - 1];
      if at <= |d| then d[..at] + [1] + d[at..] else d
  }

  lemma {:induction false} UnreducedRun(s: Shape, axes: seq<nat>, from: nat, until: nat)
    requires from <= until <= |s|
    requires forall i :: from <= i < until ==> i !in axes
    ensures Unreduced(s, axes, from) == s[from..until] + Unreduced(s, axes, until)
    decreases until - from
  {
    if from < until {
      UnreducedRun(s, axes, from + 1, until);
      var run, rest := s[from + 1..until], Unreduced(s, axes, until);
      assert s[from..until] == [s[from]] + run;
      assert ([s[from]] + run) + rest == [s[from]] + (run + rest);
    } else {
      assert s[from..until] == [];
    }
  }

  lemma {:induction false} ReinsertedPrefix(s: Shape, axes: seq<nat>, count: nat)
    requires Normalized(axes, |s|) && count <= |axes|
    ensures var done := if count == 0 then 0 else axes[count - 1] + 1;
            done <= |s| && Reinserted(s, axes, count) == Kept(s, axes)[..done] + Unreduced(s, axes, done)
  {
    hide Normalized, Kept, Unreduced;
    if count == 0 {
      assert Kept(s, axes)[..0] + Unreduced(s, axes, 0) == Unreduced(s, axes, 0);
    } else {
      ReinsertedPrefix(s, axes, count - 1);
      ReinsertedStep(s, axes, count);
    }
  }

  lemma ReinsertedStep(s: Shape, axes: seq<nat>, count: nat)
    requires Normalized(axes, |s|) && 0 < count <= |axes|
    requires var from := if count == 1 then 0 else axes[count - 2] + 1;
             from <= |s| && Reinserted(s, axes, count - 1) == Kept(s, axes)[..from] + Unreduced(s, axes, from)
    ensures axes[count - 1] < |s|
    ensures var at := axes[count - 1];
            Reinserted(s, axes, count) == Kept(s, axes)[..at + 1] + Unreduced(s, axes, at + 1)
  {
    hide Normalized, Kept, Unreduced, Reinserted;
    var from := if count == 1 then 0 else axes[count - 2] + 1;
    var at, d := axes[count - 1], Reinserted(s, axes, count - 1);
    ReinsertedNext(s, axes, count);
    GapUnreduced(s, axes, count, from);
    AtReduced(s, axes, at);
    RunKept(s, axes, from, at);
    UnreducedRun(s, axes, from, at);
    SpliceOne(Kept(s, axes), Unreduced(s, axes, at + 1), d, from, at);
  }

  lemma ReinsertedNext(s: Shape, axes: seq<nat>, count: nat)
    requires Normalized(axes, |s|) && 0 < count <= |axes|
    ensures axes[count - 1] < |s|
    ensures var d, at := Reinserted(s, axes, count - 1), axes[count - 1];
            Reinserted(s, axes, count) == if at <= |d| then d[..at] + [1] + d[at..] else d
  {
  }

  lemma AtReduced(s: Shape, axes: seq<nat>, at: nat)
    requires at < |s| && at in axes
    ensures Unreduced(s, axes, at) == Unreduced(s, axes, at + 1) && Kept(s, axes)[at] == 1
  {
  }

  lemma RunKept(s: Shape, axes: seq<nat>, from: nat, until: nat)
    requires from <= until <= |s| && forall i :: from <= i < until ==> i !in axes
    ensures s[from..until] == Kept(s, axes)[from..until]
  {
  }

  lemma SpliceOne(kept: Shape, rest: Shape, d: Shape, from: nat, at: nat)
    requires from <= at < |kept| && kept[at] == 1
    requires d == kept[..from] + (kept[from..at] + rest)
    ensures at <= |d| && d[..at] + [1] + d[at..] == kept[..at + 1] + rest
  {
    assert kept[..from] + kept[from..at] == kept[..at];
    assert d == kept[..at] + rest;
  }

  lemma GapUnreduced(s: Shape, axes: seq<nat>, count: nat, from: nat)
    requires Normalized(axes, |s|) && 0 < count <= |axes|
    requires from == if count == 1 then 0 else axes[count - 2] + 1
    ensures from <= axes[count - 1]
    ensures forall i :: from <= i < axes[count - 1] ==> i !in axes
  {
    forall k | 0 <= k < |axes|
      ensures axes[k] < from || axes[k] >= axes[count - 1]
    {
    }
  }

  /** Inserting a one at each reduced axis of the reduced shape, in ascending order, restores the kept shape. */
  lemma ReinsertedIsKept(s: Shape, axes: seq<nat>)
    requires Normalized(axes, |s|)
    ensures Reinserted(s, axes, |axes|) == Kept(s, axes)
  {
    hide Normalized, Kept, Unreduced, Reinserted;
    ReinsertedPrefix(s, axes, |axes|);
    var done := if |axes| == 0 then 0 else axes[|axes| - 1] + 1;
    NoneBeyond(axes, |s|, done);
    RunKept(s, axes, done, |s|);
    UnreducedEnd(s, axes);
    UnreducedRun(s, axes, done, |s|);
    WholeAgain(Kept(s, axes), done);
  }

  lemma WholeAgain(d: Shape, at: nat)
    requires at <= |d|
    ensures d[..at] + (d[at..|d|] + []) == d
  {
    assert d[at..|d|] + [] == d[at..];
  }

  lemma NoneBeyond(axes: seq<nat>, rank: nat, done: nat)
    requires Normalized(axes, rank) && done == if |axes| == 0 then 0 else axes[|axes| - 1] + 1
    ensures done <= rank && forall i :: done <= i < rank ==> i !in axes
  {
    forall k | 0 <= k < |axes|
      ensures axes[k] < done
    {
    }
  }

  lemma UnreducedEnd(s: Shape, axes: seq<nat>)
    ensures Unreduced(s, axes, |s|) == []
  {
  }

  // Permutations

  predicate Permutes(axes: seq<nat>, rank: nat) {
    |axes| == rank &&
    (forall i :: 0 <= i < rank ==> axes[i] < rank) &&
    (forall i, j :: 0 <= i < j < rank ==> axes[i] != axes[j]) &&
    (forall a :: 0 <= a < rank ==> a in axes)
  }

  function Position(axes: seq<nat>, a: nat): (i: nat)
    requires a in axes
    ensures i < |axes| && axes[i] == a
  {
    if axes[0] == a then 0 else 1 + Position(axes[1..], a)
  }

  function Inverse(axes: seq<nat>): (inverse: seq<nat>)
    requires Permutes(axes, |axes|)
    ensures |inverse| == |axes|
    ensures forall a :: 0 <= a < |axes| ==> inverse[a] < |axes| && axes[inverse[a]] == a
  {
    seq(|axes|, a requires 0 <= a < |axes| => Position(axes, a))
  }

  lemma InverseInverts(axes: seq<nat>)
    requires Permutes(axes, |axes|)
    ensures forall i :: 0 <= i < |axes| ==> Inverse(axes)[axes[i]] == i
    ensures Permutes(Inverse(axes), |axes|)
    ensures Inverse(Inverse(axes)) == axes
  {
    var inverse := Inverse(axes);
    forall i | 0 <= i < |axes|
      ensures inverse[axes[i]] == i && i in inverse
    {
      assert axes[inverse[axes[i]]] == axes[i];
    }
    forall i, j | 0 <= i < j < |axes|
      ensures inverse[i] != inverse[j]
    {
      assert axes[inverse[i]] == i && axes[inverse[j]] == j;
    }
    var twice := Inverse(inverse);
    forall i | 0 <= i < |axes|
      ensures twice[i] == axes[i]
    {
      assert inverse[twice[i]] == i;
      assert axes[inverse[twice[i]]] == twice[i];
    }
  }

  function Permuted(s: Shape, axes: seq<nat>): (r: Shape)
    requires Permutes(axes, |s|)
    ensures |r| == |s|
  {
    seq(|s|, i requires 0 <= i < |s| => s[axes[i]])
  }

  /** The input coordinates read by output coordinates `c`. */
  function SourceCoords(s: Shape, axes: seq<nat>, c: seq<nat>): (d: seq<nat>)
    requires Permutes(axes, |s|) && InRange(Permuted(s, axes), c)
    ensures InRange(s, d)
  {
    var inverse := Inverse(axes);
    var d := seq(|s|, a requires 0 <= a < |s| => c[inverse[a]]);
    assert forall a :: 0 <= a < |s| ==> d[a] < Permuted(s, axes)[inverse[a]];
    d
  }

  function PermuteOffset(s: Shape, axes: seq<nat>, n: nat): (r: nat)
    requires Permutes(axes, |s|) && n < Numel(Permuted(s, axes))
    ensures r < Numel(s)
  {
    var d := SourceCoords(s, axes, Coords(Permuted(s, axes), n));
    OffsetBound(s, d);
    Offset(s, d)
  }

  function PermuteMap(s: Shape, axes: seq<nat>): (m: seq<nat>)
    requires Permutes(axes, |s|)
    ensures |m| == Numel(Permuted(s, axes))
    ensures forall k :: 0 <= k < |m| ==> m[k] < Numel(s)
  {
    var total := Numel(Permuted(s, axes));
    seq(total, n requires 0 <= n < total => PermuteOffset(s, axes, n))
  }

  lemma PermutedBack(s: Shape, axes: seq<nat>)
    requires Permutes(axes, |s|)
    ensures Permutes(Inverse(axes), |s|)
    ensures Permuted(Permuted(s, axes), Inverse(axes)) == s
  {
    InverseInverts(axes);
    var back := Permuted(Permuted(s, axes), Inverse(axes));
    forall a | 0 <= a < |s|
      ensures back[a] == s[a]
    {
      assert axes[Inverse(axes)[a]] == a;
    }
  }

  lemma SourceCoordsBack(s: Shape, axes: seq<nat>, c: seq<nat>)
    requires Permutes(axes, |s|) && InRange(Permuted(s, axes), c)
    ensures Permutes(Inverse(axes), |s|)
    ensures Permuted(Permuted(s, axes), Inverse(axes)) == s
    ensures SourceCoords(Permuted(s, axes), Inverse(axes), SourceCoords(s, axes, c)) == c
  {
    PermutedBack(s, axes);
    InverseInverts(axes);
    var d := SourceCoords(s, axes, c);
    var e := SourceCoords(Permuted(s, axes), Inverse(axes), d);
    forall i | 0 <= i < |s|
      ensures e[i] == c[i]
    {
      assert e[i] == d[axes[i]];
      assert d[axes[i]] == c[Inverse(axes)[axes[i]]];
    }
  }

  /** Permuting by the inverse axes undoes a permutation, element by element. */
  lemma PermuteBack(s: Shape, axes: seq<nat>, n: nat)
    requires Permutes(axes, |s|) && n < Numel(Permuted(s, axes))
    ensures Permutes(Inverse(axes), |s|)
    ensures Permuted(Permuted(s, axes), Inverse(axes)) == s
    ensures PermuteOffset(Permuted(s, axes), Inverse(axes), PermuteOffset(s, axes, n)) == n
  {
    PermutedBack(s, axes);
    var out := Permuted(s, axes);
    var c := Coords(out, n);
    SourceCoordsBack(s, axes, c);
    CoordsOfOffset(s, SourceCoords(s, axes, c));
    OffsetOfCoords(out, n);
  }

  /** Distinct entries below `n` are at most `n` many. */
  lemma {:induction false} Pigeonhole(m: seq<nat>, n: nat)
    requires forall k :: 0 <= k < |m| ==> m[k] < n
    requires forall i, j :: 0 <= i < j < |m| ==> m[i] != m[j]
    ensures |m| <= n
    decreases n
  {
    if |m| > 0 {
      assert m[0] < n;
      if n - 1 in m {
        var p :| 0 <= p < |m| && m[p] == n - 1;
        Pigeonhole(m[..p] + m[p + 1..], n - 1);
      } else {
        Pigeonhole(m, n - 1);
      }
    }
  }

  lemma PermuteInjective(s: Shape, axes: seq<nat>)
    requires Permutes(axes, |s|)
    ensures Numel(Permuted(s, axes)) <= Numel(s)
  {
    hide Permuted, Inverse, Permutes, PermuteOffset;
    var m := PermuteMap(s, axes);
    forall i, j | 0 <= i < j < |m|
      ensures m[i] != m[j]
    {
      PermuteBack(s, axes, i);
      PermuteBack(s, axes, j);
    }
    Pigeonhole(m, Numel(s));
  }

  lemma PermutedNumel(s: Shape, axes: seq<nat>)
    requires Permutes(axes, |s|)
    ensures Numel(Permuted(s, axes)) == Numel(s)
  {
    PermuteInjective(s, axes);
    PermutedBack(s, axes);
    PermuteInjective(Permuted(s, axes), Inverse(axes));
  }

  /** The index maps of a permutation and of its inverse are mutually inverse. */
  lemma PermuteMapsInverse(s: Shape, axes: seq<nat>)
    requires Permutes(axes, |s|)
    ensures Permutes(Inverse(axes), |s|) && Permuted(Permuted(s, axes), Inverse(axes)) == s
    ensures var m, back := PermuteMap(s, axes), PermuteMap(Permuted(s, axes), Inverse(axes));
            |m| == |back| == Numel(s) &&
            (forall k :: 0 <= k < |m| ==> m[k] < |m| && back[m[k]] == k) &&
            (forall k :: 0 <= k < |m| ==> back[k] < |m| && m[back[k]] == k)
  {
    PermutedNumel(s, axes);
    PermutedBack(s, axes);
    InverseInverts(axes);
    var out, inverse := Permuted(s, axes), Inverse(axes);
    assert Permuted(out, inverse) == s && Inverse(inverse) == axes;
    forall k | 0 <= k < Numel(s)
      ensures PermuteOffset(out, inverse, PermuteOffset(s, axes, k)) == k
      ensures PermuteOffset(s, axes, PermuteOffset(out, inverse, k)) == k
    {
      PermuteBack(s, axes, k);
      PermuteBack(out, inverse, k);
    }
  }
}
