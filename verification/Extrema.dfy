/** The reverse rule of the cumulative maximum and minimum on one line, and where its gradient goes. */
module Extrema {
  import opened Vectors
  import opened Graph
  import opened Scans

  datatype Extremum = Maximum | Minimum

  predicate Beats(kind: Extremum, a: real, b: real) {
    if kind == Maximum then a > b else a < b
  }

  /** The best of the first `n` elements; a later equal element does not replace it. */
  function Best(kind: Extremum, x: Vec, n: nat): real
    requires 0 < n <= |x|
  {
    if n == 1 then x[0]
    else if Beats(kind, x[n - 1], Best(kind, x, n - 1)) then x[n - 1]
    else Best(kind, x, n - 1)
  }

  function Bests(kind: Extremum, x: Vec): (y: Vec)
    ensures |y| == |x| && forall j :: 0 <= j < |x| ==> y[j] == Best(kind, x, j + 1)
  {
    seq(|x|, j requires 0 <= j < |x| => Best(kind, x, j + 1))
  }

  /** Whether position `i` ties for the best of the prefix that ends at `j`. */
  function Winner(x: Vec, values: Vec, i: nat, j: nat): real
    requires |values| == |x| && i < |x| && j < |x|
  {
    Flag(x[i] == values[j] && i <= j)
  }

  /** How many of the first `m` positions tie for the prefix that ends at `j`. */
  function Count(x: Vec, values: Vec, j: nat, m: nat): real
    requires |values| == |x| && j < |x| && m <= |x|
  {
    if m == 0 then 0.0 else Count(x, values, j, m - 1) + Winner(x, values, m - 1, j)
  }

  /** What prefix `j` sends to position `i`. */
  function Contribution(u: Vec, x: Vec, values: Vec, i: nat, j: nat): real
    requires |u| == |values| == |x| && i < |x| && j < |x|
  {
    BinaryValue(Div, BinaryValue(Mul, Winner(x, values, i, j), u[j]), Count(x, values, j, |x|))
  }

  /** What the first `n` prefixes send to position `i`. */
  function Received(u: Vec, x: Vec, values: Vec, i: nat, n: nat): real
    requires |u| == |values| == |x| && i < |x| && n <= |x|
  {
    if n == 0 then 0.0 else Received(u, x, values, i, n - 1) + Contribution(u, x, values, i, n - 1)
  }

  /** The reverse rule: every prefix splits its gradient evenly among the positions that tie for it. */
  function BestsVjp(u: Vec, x: Vec, values: Vec): (y: Vec)
    requires |u| == |values| == |x|
    ensures |y| == |x| && forall i :: 0 <= i < |x| ==> y[i] == Received(u, x, values, i, |x|)
  {
    seq(|x|, i requires 0 <= i < |x| => Received(u, x, values, i, |x|))
  }

  // Ties

  /** The best of a prefix is one of its elements and is beaten by none. */
  lemma {:induction false} BestIsBest(kind: Extremum, x: Vec, n: nat) returns (i: nat)
    requires 0 < n <= |x|
    ensures i < n && x[i] == Best(kind, x, n)
    ensures forall k :: 0 <= k < n ==> !Beats(kind, x[k], Best(kind, x, n))
    ensures kind == Maximum ==> forall k :: 0 <= k < n ==> x[k] <= Best(kind, x, n)
    ensures kind == Minimum ==> forall k :: 0 <= k < n ==> Best(kind, x, n) <= x[k]
  {
    if n == 1 {
      i := 0;
    } else {
      i := BestIsBest(kind, x, n - 1);
      if Beats(kind, x[n - 1], Best(kind, x, n - 1)) {
        i := n - 1;
      }
    }
  }

  lemma {:induction false} CountGrows(x: Vec, values: Vec, j: nat, i: nat, m: nat)
    requires |values| == |x| && j < |x| && m <= |x|
    ensures Count(x, values, j, m) >= if i < m then Winner(x, values, i, j) else 0.0
    decreases m
  {
    if m > 0 {
      CountGrows(x, values, j, i, m - 1);
      if i == m - 1 {
        CountGrows(x, values, j, m, m - 1);
      }
    }
  }

  /** Every prefix has at least one winner. */
  lemma WinnersExist(kind: Extremum, x: Vec, j: nat)
    requires j < |x|
    ensures Count(x, Bests(kind, x), j, |x|) >= 1.0
  {
    var i := BestIsBest(kind, x, j + 1);
    CountGrows(x, Bests(kind, x), j, i, |x|);
  }

  /** A position receives weight only from prefixes that contain it and that it ties for. */
  lemma WeightOnlyFromTies(kind: Extremum, u: Vec, x: Vec, i: nat, j: nat)
    requires |u| == |x| && i < |x| && j < |x| && Contribution(u, x, Bests(kind, x), i, j) != 0.0
    ensures i <= j && x[i] == Best(kind, x, j + 1)
    ensures forall k :: 0 <= k <= j ==> if kind == Maximum then x[k] <= x[i] else x[i] <= x[k]
  {
    if Winner(x, Bests(kind, x), i, j) == 0.0 {
      NoWeight(u[j], Count(x, Bests(kind, x), j, |x|));
    }
    var w := BestIsBest(kind, x, j + 1);
  }

  lemma NoWeight(u: real, count: real)
    ensures BinaryValue(Div, BinaryValue(Mul, 0.0, u), count) == 0.0
  {
  }

  /** Positions that tie for a prefix receive the same amount from it. */
  lemma TiesShareEvenly(kind: Extremum, u: Vec, x: Vec, i: nat, k: nat, j: nat)
    requires |u| == |x| && i <= j && k <= j && j < |x| && x[i] == x[k]
    ensures Contribution(u, x, Bests(kind, x), i, j) == Contribution(u, x, Bests(kind, x), k, j)
  {
  }

  // Conservation

  /** What the first `m` positions receive from prefix `j`. */
  function Sent(u: Vec, x: Vec, values: Vec, j: nat, m: nat): real
    requires |u| == |values| == |x| && j < |x| && m <= |x|
  {
    if m == 0 then 0.0 else Sent(u, x, values, j, m - 1) + Contribution(u, x, values, m - 1, j)
  }

  lemma ShareOf(w: real, u: real, count: real, before: real, sent: real)
    requires sent == Times(Times(before, u), Recip(count))
    ensures sent + BinaryValue(Div, BinaryValue(Mul, w, u), count) == Times(Times(before + w, u), Recip(count))
  {
    var r := Recip(count);
    assert (before * u) * r + (w * u) * r == ((before + w) * u) * r;
  }

  lemma {:induction false} SentSoFar(u: Vec, x: Vec, values: Vec, j: nat, m: nat)
    requires |u| == |values| == |x| && j < |x| && m <= |x|
    ensures Sent(u, x, values, j, m) == Times(Times(Count(x, values, j, m), u[j]), Recip(Count(x, values, j, |x|)))
    decreases m
  {
    hide Times, BinaryValue, Recip, Winner;
    TimesZero(u[j]);
    TimesZero(Recip(Count(x, values, j, |x|)));
    if m > 0 {
      SentSoFar(u, x, values, j, m - 1);
      ShareOf(Winner(x, values, m - 1, j), u[j], Count(x, values, j, |x|), Count(x, values, j, m - 1),
              Sent(u, x, values, j, m - 1));
    }
  }

  lemma WholeShare(count: real, u: real)
    requires count != 0.0
    ensures Times(Times(count, u), Recip(count)) == u
  {
    assert (count * u) * (1.0 / count) == u * (count * (1.0 / count));
  }

  /** A prefix sends out exactly its gradient. */
  lemma PrefixConserves(kind: Extremum, u: Vec, x: Vec, j: nat)
    requires |u| == |x| && j < |x|
    ensures Sent(u, x, Bests(kind, x), j, |x|) == u[j]
  {
    hide Times, Recip;
    WinnersExist(kind, x, j);
    SentSoFar(u, x, Bests(kind, x), j, |x|);
    WholeShare(Count(x, Bests(kind, x), j, |x|), u[j]);
  }

  /** What the first `m` positions receive from the first `n` prefixes. */
  function Flow(u: Vec, x: Vec, values: Vec, n: nat, m: nat): real
    requires |u| == |values| == |x| && n <= |x| && m <= |x|
  {
    if m == 0 then 0.0 else Flow(u, x, values, n, m - 1) + Received(u, x, values, m - 1, n)
  }

  lemma {:induction false} FlowNone(u: Vec, x: Vec, values: Vec, m: nat)
    requires |u| == |values| == |x| && m <= |x|
    ensures Flow(u, x, values, 0, m) == 0.0
  {
    if m > 0 {
      FlowNone(u, x, values, m - 1);
    }
  }

  lemma {:induction false} FlowNext(u: Vec, x: Vec, values: Vec, n: nat, m: nat)
    requires |u| == |values| == |x| && 0 < n <= |x| && m <= |x|
    ensures Flow(u, x, values, n, m) == Flow(u, x, values, n - 1, m) + Sent(u, x, values, n - 1, m)
    decreases m
  {
    hide Contribution;
    if m > 0 {
      FlowNext(u, x, values, n, m - 1);
    }
  }

  lemma {:induction false} FlowIsUpstream(kind: Extremum, u: Vec, x: Vec, n: nat)
    requires |u| == |x| && n <= |x|
    ensures Flow(u, x, Bests(kind, x), n, |x|) == PartialSum(u, n)
  {
    hide Sent, Received;
    if n == 0 {
      FlowNone(u, x, Bests(kind, x), |x|);
    } else {
      FlowIsUpstream(kind, u, x, n - 1);
      FlowNext(u, x, Bests(kind, x), n, |x|);
      PrefixConserves(kind, u, x, n - 1);
    }
  }

  lemma {:induction false} SumIsFlow(u: Vec, x: Vec, values: Vec, m: nat)
    requires |u| == |values| == |x| && m <= |x|
    ensures PartialSum(BestsVjp(u, x, values), m) == Flow(u, x, values, |x|, m)
  {
    hide Received;
    if m > 0 {
      SumIsFlow(u, x, values, m - 1);
    }
  }

  /** Gradient mass is conserved on every line: the input gradients sum to the upstream gradients, ties or not. */
  lemma MassConserved(kind: Extremum, u: Vec, x: Vec)
    requires |u| == |x|
    ensures PartialSum(BestsVjp(u, x, Bests(kind, x)), |x|) == PartialSum(u, |u|)
  {
    SumIsFlow(u, x, Bests(kind, x), |x|);
    FlowIsUpstream(kind, u, x, |x|);
  }
}
