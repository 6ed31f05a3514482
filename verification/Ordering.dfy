/**
 * Exactly which orders of a reduction are safe: every addition must follow its own transfer before any other arrives.
 */
module Ordering {
  import opened Wrappers
  import opened Collective
  import opened Delivery

  /** Destination `d`'s copies and additions, in order. */
  function Arithmetic(order: seq<Action>, d: nat): seq<Action> {
    if |order| == 0 then []
    else
      var n := |order| - 1;
      Arithmetic(order[..n], d) + if order[n].destination == d && order[n].op != Transfer then [order[n]] else []
  }

  /** The source whose contribution is in `d`'s inbox after the actions. */
  function LastSource(order: seq<Action>, d: nat): Option<nat> {
    if |order| == 0 then None
    else
      var n := |order| - 1;
      if order[n].destination == d && order[n].op == Transfer then Some(order[n].source) else LastSource(order[..n], d)
  }

  /** For each of `d`'s additions in turn, the source it really adds. */
  function Delivered(order: seq<Action>, d: nat): seq<Option<nat>> {
    if |order| == 0 then []
    else
      var n := |order| - 1;
      Delivered(order[..n], d) +
        if order[n].destination == d && order[n].op == ReduceSum then [LastSource(order[..n], d)] else []
  }

  /** For each addition in turn, the source it is meant to add. */
  function Meant(steps: seq<Action>): seq<Option<nat>> {
    if |steps| == 0 then []
    else
      var n := |steps| - 1;
      Meant(steps[..n]) + if steps[n].op == ReduceSum then [Some(steps[n].source)] else []
  }

  /** Every addition at `d` is most recently preceded, among the transfers to `d`, by its own. */
  predicate Timely(order: seq<Action>, d: nat) {
    Delivered(order, d) == Meant(Arithmetic(order, d))
  }

  /** All of `d`'s actions touch element `k`, and its copies are of its own contribution. */
  ghost predicate Uniform(order: seq<Action>, d: nat, k: nat) {
    forall i :: 0 <= i < |order| && order[i].destination == d ==>
      Touches(order[i], d, k) && (order[i].op == LocalCopy ==> order[i].source == d)
  }

  lemma Unchanged(steps: seq<Action>, got: seq<Option<nat>>)
    ensures steps + [] == steps && got + [] == got
  {
  }

  lemma MeantPush(steps: seq<Action>, a: Action)
    ensures Meant(steps + [a]) == Meant(steps) + if a.op == ReduceSum then [Some(a.source)] else []
  {
    assert (steps + [a])[..|steps|] == steps;
  }

  function Arrived<E>(job: Job<E>, c: Cell<E>, s: Option<nat>, k: nat): E {
    match s case None => c.inbox case Some(i) => Given(job, i, k)
  }

  lemma ArrivedSome<E>(job: Job<E>, c: Cell<E>, i: nat, k: nat)
    ensures Arrived(job, c, Some(i), k) == Given(job, i, k)
  {
  }

  /** The output of copies and additions when the additions really add `got`. */
  function Folded<E>(job: Job<E>, add: (E, E) -> E, c: Cell<E>, steps: seq<Action>, got: seq<Option<nat>>, k: nat): E
    requires |got| == |Meant(steps)|
    decreases |steps|
  {
    if |steps| == 0 then c.out
    else
      var n := |steps| - 1;
      match steps[n].op
      case LocalCopy => Given(job, steps[n].source, k)
      case Transfer => Folded(job, add, c, steps[..n], got, k)
      case ReduceSum =>
        add(Folded(job, add, c, steps[..n], got[..|got| - 1], k), Arrived(job, c, got[|got| - 1], k))
  }

  lemma FoldedPush<E>(job: Job<E>, add: (E, E) -> E, c: Cell<E>, steps: seq<Action>, got: seq<Option<nat>>, a: Action,
                      last: Option<nat>, k: nat)
    requires |got| == |Meant(steps)| && a.op != Transfer
    ensures Meant(steps + [a]) == Meant(steps) + if a.op == ReduceSum then [Some(a.source)] else []
    ensures a.op == LocalCopy ==> Folded(job, add, c, steps + [a], got, k) == Given(job, a.source, k)
    ensures a.op == ReduceSum ==>
              Folded(job, add, c, steps + [a], got + [last], k) ==
                add(Folded(job, add, c, steps, got, k), Arrived(job, c, last, k))
  {
    hide Given, Arrived;
    MeantPush(steps, a);
    assert (steps + [a])[..|steps|] == steps && (got + [last])[..|got|] == got;
  }

  /** The element after `order` is the fold of its copies and additions over what really arrived. */
  ghost predicate IsFolded<E>(job: Job<E>, add: (E, E) -> E, c: Cell<E>, order: seq<Action>, d: nat, k: nat) {
    |Delivered(order, d)| == |Meant(Arithmetic(order, d))| &&
    var r := RunCell(job, add, c, order, d, k);
    r.inbox == Arrived(job, c, LastSource(order, d), k) &&
    r.out == Folded(job, add, c, Arithmetic(order, d), Delivered(order, d), k)
  }

  lemma FoldedNext<E>(job: Job<E>, add: (E, E) -> E, c: Cell<E>, order: seq<Action>, a: Action, d: nat, k: nat)
    requires IsFolded(job, add, c, order, d, k)
    requires a.destination == d ==> Touches(a, d, k) && (a.op == LocalCopy ==> a.source == d)
    ensures IsFolded(job, add, c, order + [a], d, k)
  {
    hide RunCell, Arithmetic, Delivered, LastSource, Arrived, Given, Folded, Meant;
    var steps, got, last := Arithmetic(order, d), Delivered(order, d), LastSource(order, d);
    RunPush(job, add, c, order, a, d, k);
    ArithmeticPush(order, a, d);
    DeliveredPush(order, a, d);
    LastPush(order, a, d);
    Unchanged(steps, got);
    ArrivedSome(job, c, a.source, k);
    if a.destination == d && a.op != Transfer {
      FoldedPush(job, add, c, steps, got, a, last, k);
    }
  }

  /** Any order's element is the fold of its copies and additions over what really arrived. */
  lemma {:induction false} RunIsFolded<E>(job: Job<E>, add: (E, E) -> E, c: Cell<E>, order: seq<Action>, d: nat, k: nat)
    requires Uniform(order, d, k)
    ensures IsFolded(job, add, c, order, d, k)
  {
    if |order| > 0 {
      hide IsFolded, RunCell;
      var n := |order| - 1;
      RunIsFolded(job, add, c, order[..n], d, k);
      assert order == order[..n] + [order[n]];
      FoldedNext(job, add, c, order[..n], order[n], d, k);
    } else {
      NothingFolded(job, add, c, k);
    }
  }

  lemma NothingFolded<E>(job: Job<E>, add: (E, E) -> E, c: Cell<E>, k: nat)
    ensures Folded(job, add, c, [], [], k) == c.out
  {
  }

  /** A timely order with the plan's copies and additions gives the plan's value, for every input and every addition. */
  lemma TimelySuffices<E>(job: Job<E>, add: (E, E) -> E, c: Cell<E>, plan: seq<Action>, order: seq<Action>, d: nat,
                          k: nat)
    requires Uniform(plan, d, k) && Uniform(order, d, k) && Arithmetic(order, d) == Arithmetic(plan, d)
    requires Timely(plan, d) && Timely(order, d)
    ensures RunCell(job, add, c, order, d, k).out == RunCell(job, add, c, plan, d, k).out
  {
    hide RunCell, Folded, Arithmetic, Delivered;
    RunIsFolded(job, add, c, plan, d, k);
    RunIsFolded(job, add, c, order, d, k);
  }

  // Reduction plans

  /** One copy of `d`'s own contribution first, then additions only. */
  ghost predicate CopyThenAdds(steps: seq<Action>, d: nat) {
    |steps| > 0 && steps[0].op == LocalCopy && steps[0].source == d &&
    forall i :: 0 < i < |steps| ==> steps[i].op == ReduceSum
  }

  /** What a reduction's actions at `d` look like from the outside. */
  ghost predicate RowShape(plan: seq<Action>, d: nat, range: Range) {
    Timely(plan, d) &&
    forall i :: 0 <= i < |plan| && plan[i].destination == d ==>
      plan[i].range == range && (plan[i].op == LocalCopy ==> plan[i].source == d)
  }

  lemma ArithmeticPush(plan: seq<Action>, a: Action, d: nat)
    ensures Arithmetic(plan + [a], d) ==
            Arithmetic(plan, d) + if a.destination == d && a.op != Transfer then [a] else []
  {
    assert (plan + [a])[..|plan|] == plan;
  }

  lemma DeliveredPush(plan: seq<Action>, a: Action, d: nat)
    ensures Delivered(plan + [a], d) ==
            Delivered(plan, d) + if a.destination == d && a.op == ReduceSum then [LastSource(plan, d)] else []
  {
    hide LastSource;
    assert (plan + [a])[..|plan|] == plan;
  }

  lemma TimelyPush(plan: seq<Action>, a: Action, d: nat)
    requires Timely(plan, d)
    requires a.destination == d && a.op == ReduceSum ==> LastSource(plan, d) == Some(a.source)
    ensures Timely(plan + [a], d)
  {
    hide LastSource, Arithmetic, Delivered, Meant;
    ArithmeticPush(plan, a, d);
    DeliveredPush(plan, a, d);
    MeantPush(Arithmetic(plan, d), a);
    Unchanged(Arithmetic(plan, d), Delivered(plan, d));
  }

  lemma RowPush(plan: seq<Action>, a: Action, d: nat, range: Range)
    requires RowShape(plan, d, range)
    requires a.destination == d ==>
               a.range == range && (a.op == LocalCopy ==> a.source == d) &&
               (a.op == ReduceSum ==> LastSource(plan, d) == Some(a.source))
    ensures RowShape(plan + [a], d, range)
    ensures Arithmetic(plan + [a], d) ==
            Arithmetic(plan, d) + if a.destination == d && a.op != Transfer then [a] else []
    ensures LastSource(plan + [a], d) ==
              if a.destination == d && a.op == Transfer then Some(a.source) else LastSource(plan, d)
  {
    hide LastSource, Arithmetic, Delivered, Timely;
    ArithmeticPush(plan, a, d);
    TimelyPush(plan, a, d);
    LastPush(plan, a, d);
  }

  lemma LastPush(plan: seq<Action>, a: Action, d: nat)
    ensures LastSource(plan + [a], d) ==
              if a.destination == d && a.op == Transfer then Some(a.source) else LastSource(plan, d)
  {
    assert (plan + [a])[..|plan|] == plan;
  }

  lemma {:induction false} ReduceRowShape(actions: seq<Action>, dst: nat, range: Range, j: nat, d: nat, own: Range)
    requires RowShape(actions, d, own) && (dst == d ==> range == own && Arithmetic(actions, d) == [])
    ensures RowShape(ReduceRow(actions, dst, range, j), d, own)
    ensures if dst == d then CopyThenAdds(Arithmetic(ReduceRow(actions, dst, range, j), d), d)
            else Arithmetic(ReduceRow(actions, dst, range, j), d) == Arithmetic(actions, d)
    decreases j
  {
    hide RowShape, LastSource, Arithmetic;
    if j == 0 {
      RowPush(actions, Action(|actions|, [], LocalCopy, dst, dst, range), d, own);
    } else {
      ReduceRowShape(actions, dst, range, j - 1, d, own);
      var a := ReduceRow(actions, dst, range, j - 1);
      if j - 1 != dst {
        var t := Action(|a|, [], Transfer, j - 1, dst, range);
        RowPush(a, t, d, own);
        RowPush(a + [t], Action(|a| + 1, [|a| - 1, |a|], ReduceSum, j - 1, dst, range), d, own);
        Unchanged(Arithmetic(a, d), []);
      }
    }
  }

  lemma {:induction false} ReduceShape(n: nat, ranges: seq<Range>, j: nat, d: nat)
    requires d < n == |ranges| && j <= n
    ensures RowShape(ReduceTo(n, ranges, j), d, ranges[d])
    ensures if d < j then CopyThenAdds(Arithmetic(ReduceTo(n, ranges, j), d), d)
              else Arithmetic(ReduceTo(n, ranges, j), d) == []
    decreases j
  {
    hide RowShape, Arithmetic, CopyThenAdds;
    if j > 0 {
      ReduceShape(n, ranges, j - 1, d);
      ReduceRowShape(ReduceTo(n, ranges, j - 1), j - 1, ranges[j - 1], n, d, ranges[d]);
    } else {
      NoShape(d, ranges[d]);
    }
  }

  lemma NoShape(d: nat, range: Range)
    ensures RowShape([], d, range) && Arithmetic([], d) == []
  {
  }

  lemma UniformWithin(plan: seq<Action>, order: seq<Action>, d: nat, range: Range, k: nat)
    requires RowShape(plan, d, range) && range.start <= k < range.start + range.len
    requires forall i :: 0 <= i < |order| ==> order[i] in plan
    ensures Uniform(order, d, k)
  {
    forall i | 0 <= i < |order| && order[i].destination == d
      ensures Touches(order[i], d, k) && (order[i].op == LocalCopy ==> order[i].source == d)
    {
      var j :| 0 <= j < |plan| && plan[j] == order[i];
    }
  }

  // Dependencies force each destination's copies and additions into plan order

  /** Runs every planned action exactly once, after those it depends on. */
  ghost predicate Linear(plan: seq<Action>, order: seq<Action>) {
    Extends(plan, order) && forall i, j :: 0 <= i < j < |order| ==> order[i] != order[j]
  }

  ghost predicate Follows(plan: seq<Action>, a: Action, b: Action) {
    exists e :: e in a.dependsOn && e < |plan| && plan[e] == b
  }

  /** Each of `d`'s copies and additions depends on the one before it. */
  ghost predicate Chained(plan: seq<Action>, d: nat) {
    var steps := Arithmetic(plan, d);
    forall i :: 0 < i < |steps| ==> Follows(plan, steps[i], steps[i - 1])
  }

  predicate Computes(a: Action, d: nat) {
    a.destination == d && a.op != Transfer
  }

  lemma PushChained(plan: seq<Action>, a: Action, d: nat)
    requires Chained(plan, d)
    requires Computes(a, d) && |Arithmetic(plan, d)| > 0 ==>
               Follows(plan, a, Arithmetic(plan, d)[|Arithmetic(plan, d)| - 1])
    ensures Chained(plan + [a], d)
  {
    hide Follows, Arithmetic;
    var steps, more := Arithmetic(plan, d), Arithmetic(plan + [a], d);
    ArithmeticPush(plan, a, d);
    forall i | 0 < i < |more|
      ensures Follows(plan + [a], more[i], more[i - 1])
    {
      FollowsGrows(plan, a, more[i], more[i - 1]);
    }
  }

  lemma FollowsGrows(plan: seq<Action>, a: Action, b: Action, c: Action)
    requires Follows(plan, b, c)
    ensures Follows(plan + [a], b, c)
  {
    var e :| e in b.dependsOn && e < |plan| && plan[e] == c;
    assert (plan + [a])[e] == c;
  }

  lemma {:induction false} RowChained(actions: seq<Action>, dst: nat, range: Range, j: nat, d: nat)
    requires Chained(actions, d) && (dst == d ==> Arithmetic(actions, d) == [])
    ensures var plan := ReduceRow(actions, dst, range, j);
            var steps := Arithmetic(plan, d);
            Chained(plan, d) &&
            if dst == d then |steps| > 0 && steps[|steps| - 1] == plan[|plan| - 1] else steps == Arithmetic(actions, d)
    decreases j
  {
    hide Chained, Arithmetic, Follows;
    if j == 0 {
      var a := Action(|actions|, [], LocalCopy, dst, dst, range);
      PushChained(actions, a, d);
      ArithmeticPush(actions, a, d);
      Unchanged(Arithmetic(actions, d), []);
    } else {
      RowChained(actions, dst, range, j - 1, d);
      var a := ReduceRow(actions, dst, range, j - 1);
      if j - 1 != dst {
        var t := Action(|a|, [], Transfer, j - 1, dst, range);
        var r := Action(|a| + 1, [|a| - 1, |a|], ReduceSum, j - 1, dst, range);
        Unchanged(Arithmetic(a, d), []);
        PushChained(a, t, d);
        ArithmeticPush(a, t, d);
        assert (a + [t])[|a| - 1] == a[|a| - 1] && |a| - 1 in r.dependsOn;
        assert Follows(a + [t], r, a[|a| - 1]) by {
          PreviousFollows(a + [t], r, |a| - 1);
        }
        PushChained(a + [t], r, d);
        ArithmeticPush(a + [t], r, d);
      }
    }
  }

  lemma PreviousFollows(plan: seq<Action>, a: Action, e: nat)
    requires e < |plan| && e in a.dependsOn
    ensures Follows(plan, a, plan[e])
  {
  }

  lemma {:induction false} ReduceChained(n: nat, ranges: seq<Range>, j: nat, d: nat)
    requires j <= |ranges|
    ensures Chained(ReduceTo(n, ranges, j), d) && (d >= j ==> Arithmetic(ReduceTo(n, ranges, j), d) == [])
    decreases j
  {
    hide ReduceRow;
    if j > 0 {
      ReduceChained(n, ranges, j - 1, d);
      RowChained(ReduceTo(n, ranges, j - 1), j - 1, ranges[j - 1], n, d);
    }
  }

  lemma {:induction false} InArithmetic(order: seq<Action>, d: nat, x: Action)
    ensures x in Arithmetic(order, d) <==> x in order && Computes(x, d)
  {
    if |order| > 0 {
      var n := |order| - 1;
      InArithmetic(order[..n], d, x);
      assert order == order[..n] + [order[n]];
    }
  }

  lemma {:induction false} ArithmeticIds(plan: seq<Action>, d: nat)
    requires forall i :: 0 <= i < |plan| ==> plan[i].id == i
    ensures var steps := Arithmetic(plan, d);
            (forall i, j :: 0 <= i < j < |steps| ==> steps[i].id < steps[j].id) &&
            forall i :: 0 <= i < |steps| ==> steps[i].id < |plan|
  {
    if |plan| > 0 {
      var n := |plan| - 1;
      ArithmeticIds(plan[..n], d);
      assert plan == plan[..n] + [plan[n]];
      ArithmeticPush(plan[..n], plan[n], d);
      Unchanged(Arithmetic(plan[..n], d), []);
    }
  }

  lemma LaterSteps(steps: seq<Action>, c: nat)
    requires c <= |steps| && forall i, j :: 0 <= i < j < |steps| ==> steps[i].id < steps[j].id
    ensures forall j :: c <= j < |steps| ==> steps[j] !in steps[..c]
    ensures forall i :: 0 <= i < c ==> steps[i] in steps[..c]
  {
    forall i | 0 <= i < c
      ensures steps[i] in steps[..c]
    {
      assert steps[..c][i] == steps[i];
    }
  }

  /** A step that is not among the first `c`, but whose predecessor is, is the next one. */
  lemma NextStep(steps: seq<Action>, c: nat, i: nat)
    requires c <= |steps| && i < |steps| && steps[i] !in steps[..c] && (i > 0 ==> steps[i - 1] in steps[..c])
    requires forall i, j :: 0 <= i < j < |steps| ==> steps[i].id < steps[j].id
    ensures i == c
  {
    LaterSteps(steps, c);
    assert c <= i;
  }

  lemma Dependency(plan: seq<Action>, order: seq<Action>, m: nat, b: Action)
    requires Extends(plan, order) && m < |order| && Follows(plan, order[m], b)
    ensures b in order[..m]
  {
    var e :| e in order[m].dependsOn && e < |plan| && plan[e] == b;
    assert Ready(plan, order, m);
  }

  /** A computing action finds its predecessor in the chain done. */
  lemma PredecessorDone(plan: seq<Action>, order: seq<Action>, d: nat, m: nat, i: nat)
    requires Linear(plan, order) && Chained(plan, d) && m < |order|
    requires 0 < i < |Arithmetic(plan, d)| && Arithmetic(plan, d)[i] == order[m]
    ensures Arithmetic(plan, d)[i - 1] in Arithmetic(order[..m], d)
  {
    hide Arithmetic, Extends, Follows, Computes;
    var b := Arithmetic(plan, d)[i - 1];
    Dependency(plan, order, m, b);
    InArithmetic(plan, d, b);
    InArithmetic(order[..m], d, b);
  }

  lemma NextComputing(plan: seq<Action>, order: seq<Action>, d: nat, m: nat)
    requires Linear(plan, order) && Chained(plan, d) && m < |order| && Computes(order[m], d)
    requires forall i :: 0 <= i < |plan| ==> plan[i].id == i
    requires Arithmetic(order[..m], d) <= Arithmetic(plan, d)
    ensures Arithmetic(order[..m], d) + [order[m]] <= Arithmetic(plan, d)
  {
    hide Arithmetic, Linear, Chained, Computes;
    var steps, done := Arithmetic(plan, d), Arithmetic(order[..m], d);
    var i := PlaceOf(plan, order, d, m);
    ArithmeticIds(plan, d);
    if i > 0 {
      PredecessorDone(plan, order, d, m, i);
    }
    assert steps[..|done|] == done;
    NextStep(steps, |done|, i);
  }

  lemma PlaceOf(plan: seq<Action>, order: seq<Action>, d: nat, m: nat) returns (i: nat)
    requires Linear(plan, order) && m < |order| && Computes(order[m], d)
    ensures i < |Arithmetic(plan, d)| && Arithmetic(plan, d)[i] == order[m]
    ensures order[m] !in Arithmetic(order[..m], d)
  {
    hide Arithmetic, Linear, Computes;
    OrderedIn(plan, order, m);
    InArithmetic(plan, d, order[m]);
    InArithmetic(order[..m], d, order[m]);
    i :| i < |Arithmetic(plan, d)| && Arithmetic(plan, d)[i] == order[m];
  }

  /** Midway through any linear order, `d`'s copies and additions so far are the plan's first ones. */
  lemma {:induction false} ArithmeticSoFar(plan: seq<Action>, order: seq<Action>, d: nat, m: nat)
    requires Linear(plan, order) && Chained(plan, d) && m <= |order|
    requires forall i :: 0 <= i < |plan| ==> plan[i].id == i
    ensures Arithmetic(order[..m], d) <= Arithmetic(plan, d)
    decreases m
  {
    if m > 0 {
      hide Arithmetic, Linear, Chained;
      ArithmeticSoFar(plan, order, d, m - 1);
      var x, done := order[m - 1], Arithmetic(order[..m - 1], d);
      assert order[..m] == order[..m - 1] + [x];
      ArithmeticPush(order[..m - 1], x, d);
      Unchanged(done, []);
      if Computes(x, d) {
        NextComputing(plan, order, d, m - 1);
      }
    } else {
      assert order[..0] == [];
    }
  }

  lemma OrderedIn(plan: seq<Action>, order: seq<Action>, m: nat)
    requires Linear(plan, order) && m < |order|
    ensures order[m] in plan && order[m] !in order[..m]
  {
  }

  /** Every linear order of a chained plan runs each destination's copies and additions in plan order. */
  lemma LinearKeepsArithmetic(plan: seq<Action>, order: seq<Action>, d: nat)
    requires Linear(plan, order) && Chained(plan, d)
    requires forall i :: 0 <= i < |plan| ==> plan[i].id == i
    ensures Arithmetic(order, d) == Arithmetic(plan, d)
  {
    hide Arithmetic, Chained;
    ArithmeticSoFar(plan, order, d, |order|);
    assert order[..|order|] == order;
    ArithmeticIds(plan, d);
    var steps, done := Arithmetic(plan, d), Arithmetic(order, d);
    if |done| < |steps| {
      var x := steps[|done|];
      InArithmetic(plan, d, x);
      InArithmetic(order, d, x);
    }
  }

  /** A reduction request, and what rank `d` of it gets. */
  predicate Reduces(r: Request) {
    r.ranks > 0 && Invalid(r).None? && (r.kind.ReduceScatter? || r.kind.AllReduce?)
  }

  function RangesOf(r: Request): (ranges: seq<Range>)
    requires Reduces(r)
    ensures |ranges| == r.ranks && ActionsOf(r) == ReduceTo(r.ranks, ranges, r.ranks)
  {
    if r.kind.ReduceScatter? then Chunks(TotalOf(r), r.ranks) else Whole(TotalOf(r), r.ranks)
  }

  predicate Within(range: Range, k: nat) {
    range.start <= k < range.start + range.len
  }

  lemma LinearReduction(r: Request, order: seq<Action>, d: nat)
    requires Reduces(r) && Linear(ActionsOf(r), order) && d < r.ranks
    ensures Arithmetic(order, d) == Arithmetic(ActionsOf(r), d)
    ensures forall i :: 0 <= i < |order| ==> order[i] in ActionsOf(r) && order[i].source < r.ranks
  {
    hide Arithmetic, Chained, ReduceTo;
    var plan := ActionsOf(r);
    PlanPlaced(r);
    ReduceChained(r.ranks, RangesOf(r), r.ranks, d);
    forall i | 0 <= i < |plan|
      ensures plan[i].id == i && plan[i].source < r.ranks
    {
      assert Placed(r, plan[i], i);
    }
    LinearKeepsArithmetic(plan, order, d);
    forall i | 0 <= i < |order|
      ensures order[i] in plan && order[i].source < r.ranks
    {
      var p :| 0 <= p < |plan| && plan[p] == order[i];
    }
  }

  /** A timely order of a reduction gives every element the own-first fold, for every input and every addition ... */
  lemma TimelyReduces<E>(job: Job<E>, add: (E, E) -> E, c: Cell<E>, r: Request, order: seq<Action>, d: nat, k: nat)
    requires Reduces(r) && Linear(ActionsOf(r), order) && d < r.ranks && Within(RangesOf(r)[d], k) && Timely(order, d)
    ensures RunCell(job, add, c, order, d, k).out == OwnFirst(job, add, d, r.ranks, k)
  {
    hide RunCell, Arithmetic, Timely, OwnFirst, Linear;
    var n, ranges, plan := r.ranks, RangesOf(r), ActionsOf(r);
    LinearReduction(r, order, d);
    ReduceShape(n, ranges, n, d);
    UniformWithin(plan, plan, d, ranges[d], k);
    UniformWithin(plan, order, d, ranges[d], k);
    TimelySuffices(job, add, c, plan, order, d, k);
    ReduceCell(job, add, c, n, ranges, n, d, k);
  }

  // An untimely order loses a contribution

  /** The action brings another rank's contribution to `d`, or adds it there. */
  predicate Comes(a: Action, d: nat) {
    a.destination == d && a.op != LocalCopy
  }

  /** The transfer that brings what `a` adds. */
  ghost predicate OwnTransfer(plan: seq<Action>, a: Action) {
    exists e :: e in a.dependsOn && e < |plan| && Brings(plan[e], a.destination, a.source)
  }

  predicate Brings(a: Action, d: nat, s: nat) {
    a.op == Transfer && a.destination == d && a.source == s
  }

  /** Every other rank's contribution is brought to `d` once and added there once, after it was brought. */
  ghost predicate Once(plan: seq<Action>, n: nat, d: nat) {
    (forall i :: 0 <= i < |plan| && Comes(plan[i], d) ==> plan[i].source != d && plan[i].source < n) &&
    (forall i, j :: 0 <= i < j < |plan| && Comes(plan[i], d) && Comes(plan[j], d) && plan[i].op == plan[j].op ==>
       plan[i].source != plan[j].source) &&
    forall i :: 0 <= i < |plan| && Comes(plan[i], d) && plan[i].op == ReduceSum ==> OwnTransfer(plan, plan[i])
  }

  lemma OwnTransferGrows(plan: seq<Action>, a: Action, b: Action)
    requires OwnTransfer(plan, b)
    ensures OwnTransfer(plan + [a], b)
  {
    var e :| e in b.dependsOn && e < |plan| && Brings(plan[e], b.destination, b.source);
    assert (plan + [a])[e] == plan[e];
  }

  lemma PushOnce(plan: seq<Action>, a: Action, n: nat, d: nat)
    requires Once(plan, n, d)
    requires Comes(a, d) ==> a.source != d && a.source < n && (a.op == ReduceSum ==> OwnTransfer(plan, a))
    requires Comes(a, d) ==>
               forall i :: 0 <= i < |plan| && Comes(plan[i], d) && plan[i].op == a.op ==> plan[i].source != a.source
    ensures Once(plan + [a], n, d)
  {
    hide OwnTransfer;
    var more := plan + [a];
    forall i | 0 <= i < |more| && Comes(more[i], d) && more[i].op == ReduceSum
      ensures OwnTransfer(more, more[i])
    {
      OwnTransferGrows(plan, a, more[i]);
    }
  }

  lemma OnceMore(plan: seq<Action>, m: nat, n: nat, d: nat)
    requires Once(plan, m, d) && m <= n
    ensures Once(plan, n, d)
  {
  }

  /** Bringing and adding the contribution of one more rank. */
  lemma PairOnce(a: seq<Action>, m: nat, dst: nat, range: Range, d: nat)
    requires Once(a, m, d) && |a| > 0 && m != dst
    ensures var t := Action(|a|, [], Transfer, m, dst, range);
            Once(a + [t] + [Action(|a| + 1, [|a| - 1, |a|], ReduceSum, m, dst, range)], m + 1, d)
  {
    hide OwnTransfer;
    var t := Action(|a|, [], Transfer, m, dst, range);
    var r := Action(|a| + 1, [|a| - 1, |a|], ReduceSum, m, dst, range);
    OnceMore(a, m, m + 1, d);
    PushOnce(a, t, m + 1, d);
    BroughtNext(a, t, r);
    PushOnce(a + [t], r, m + 1, d);
  }

  lemma BroughtNext(a: seq<Action>, t: Action, r: Action)
    requires |a| in r.dependsOn && Brings(t, r.destination, r.source)
    ensures OwnTransfer(a + [t], r)
  {
    assert (a + [t])[|a|] == t;
  }

  lemma {:induction false} RowOnce(actions: seq<Action>, range: Range, j: nat, d: nat)
    requires Once(actions, 0, d)
    ensures Once(ReduceRow(actions, d, range, j), j, d)
    decreases j
  {
    hide Once;
    if j == 0 {
      LocalOnce(actions, Action(|actions|, [], LocalCopy, d, d, range), 0, d);
    } else {
      var a := ReduceRow(actions, d, range, j - 1);
      RowOnce(actions, range, j - 1, d);
      if j - 1 == d {
        OnceMore(a, j - 1, j, d);
      } else {
        PairOnce(a, j - 1, d, range, d);
      }
    }
  }

  lemma LocalOnce(plan: seq<Action>, a: Action, n: nat, d: nat)
    requires Once(plan, n, d) && !Comes(a, d)
    ensures Once(plan + [a], n, d)
  {
    PushOnce(plan, a, n, d);
  }

  lemma {:induction false} RowElsewhere(actions: seq<Action>, dst: nat, range: Range, j: nat, n: nat, d: nat)
    requires Once(actions, n, d) && dst != d
    ensures Once(ReduceRow(actions, dst, range, j), n, d)
    decreases j
  {
    hide Once;
    if j == 0 {
      LocalOnce(actions, Action(|actions|, [], LocalCopy, dst, dst, range), n, d);
    } else {
      RowElsewhere(actions, dst, range, j - 1, n, d);
      var a := ReduceRow(actions, dst, range, j - 1);
      if j - 1 != dst {
        var t := Action(|a|, [], Transfer, j - 1, dst, range);
        LocalOnce(a, t, n, d);
        LocalOnce(a + [t], Action(|a| + 1, [|a| - 1, |a|], ReduceSum, j - 1, dst, range), n, d);
      }
    }
  }

  lemma {:induction false} ReduceOnce(n: nat, ranges: seq<Range>, j: nat, d: nat)
    requires j <= |ranges|
    ensures Once(ReduceTo(n, ranges, j), if d < j then n else 0, d)
    decreases j
  {
    hide Once, ReduceRow;
    if j == 0 {
      NothingOnce(d);
    } else {
      ReduceOnce(n, ranges, j - 1, d);
      if j - 1 == d {
        RowOnce(ReduceTo(n, ranges, j - 1), ranges[j - 1], n, d);
      } else {
        RowElsewhere(ReduceTo(n, ranges, j - 1), j - 1, ranges[j - 1], n, if d < j then n else 0, d);
      }
    }
  }

  lemma NothingOnce(d: nat)
    ensures Once([], 0, d)
  {
  }

  /** Planned actions that come to `d` alike are the same action. */
  lemma SameComing(plan: seq<Action>, n: nat, d: nat, a: Action, b: Action)
    requires Once(plan, n, d) && a in plan && b in plan && Comes(a, d) && Comes(b, d) && a.op == b.op
    requires a.source == b.source
    ensures a == b
  {
    var i :| 0 <= i < |plan| && plan[i] == a;
    var j :| 0 <= j < |plan| && plan[j] == b;
  }

  /** Rank `s`'s contribution has been brought to `d` and overwritten, and is in none of `got`. */
  ghost predicate Lost(order: seq<Action>, d: nat, s: nat, m: nat)
    requires m <= |order|
  {
    Some(s) !in Delivered(order[..m], d) && LastSource(order[..m], d) != Some(s) && Brought(order, d, s, m)
  }

  ghost predicate Brought(order: seq<Action>, d: nat, s: nat, m: nat)
    requires m <= |order|
  {
    exists i :: 0 <= i < m && Brings(order[i], d, s)
  }

  lemma {:induction false} MeantFrom(order: seq<Action>, d: nat, s: nat) returns (i: nat)
    requires Some(s) in Meant(Arithmetic(order, d))
    ensures i < |order| && Comes(order[i], d) && order[i].op == ReduceSum && order[i].source == s
  {
    var m := |order| - 1;
    assert |order| > 0;
    ArithmeticPush(order[..m], order[m], d);
    assert order == order[..m] + [order[m]];
    Unchanged(Arithmetic(order[..m], d), []);
    if Computes(order[m], d) && order[m].op == ReduceSum && order[m].source == s {
      i := m;
    } else {
      if Computes(order[m], d) {
        MeantPush(Arithmetic(order[..m], d), order[m]);
      }
      i := MeantFrom(order[..m], d, s);
    }
  }

  lemma PrefixNext(order: seq<Action>, m: nat, d: nat)
    requires m < |order|
    ensures var less, a := order[..m], order[m];
            Delivered(order[..m + 1], d) ==
              Delivered(less, d) + (if a.destination == d && a.op == ReduceSum then [LastSource(less, d)] else []) &&
            LastSource(order[..m + 1], d) ==
              (if a.destination == d && a.op == Transfer then Some(a.source) else LastSource(less, d)) &&
            Meant(Arithmetic(order[..m + 1], d)) ==
              Meant(Arithmetic(less, d)) + if a.destination == d && a.op == ReduceSum then [Some(a.source)] else []
  {
    hide Delivered, LastSource, Meant, Arithmetic;
    var less, a := order[..m], order[m];
    assert order[..m + 1] == less + [a];
    DeliveredPush(less, a, d);
    LastPush(less, a, d);
    ArithmeticPush(less, a, d);
    MeantPush(Arithmetic(less, d), a);
    Unchanged(Arithmetic(less, d), Meant(Arithmetic(less, d)));
  }

  /** What is lost stays lost: its transfer has run and does not run again. */
  lemma LostStays(plan: seq<Action>, order: seq<Action>, n: nat, d: nat, s: nat, m: nat)
    requires Linear(plan, order) && Once(plan, n, d) && m < |order| && Lost(order, d, s, m)
    ensures Lost(order, d, s, m + 1)
  {
    hide Delivered, LastSource, Meant, Arithmetic, Once, Extends;
    PrefixNext(order, m, d);
    var i: nat :| i < m && Brings(order[i], d, s);
    if Brings(order[m], d, s) {
      InPlan(plan, order, i);
      InPlan(plan, order, m);
      SameComing(plan, n, d, order[i], order[m]);
    }
  }

  lemma InPlan(plan: seq<Action>, order: seq<Action>, i: nat)
    requires Extends(plan, order) && i < |order|
    ensures order[i] in plan
  {
  }

  /** The first addition served with the wrong contribution loses the one it was meant to add. */
  lemma LostBegins(plan: seq<Action>, order: seq<Action>, n: nat, d: nat, m: nat)
    requires Linear(plan, order) && Once(plan, n, d) && m < |order|
    requires Timely(order[..m], d) && !Timely(order[..m + 1], d)
    ensures Comes(order[m], d) && order[m].source != d && order[m].source < n && Lost(order, d, order[m].source, m + 1)
  {
    hide Delivered, LastSource, Meant, Arithmetic, Once, Extends, OwnTransfer;
    var less, a := order[..m], order[m];
    PrefixNext(order, m, d);
    Unchanged([], Delivered(less, d));
    InPlan(plan, order, m);
    ComesFrom(plan, n, d, a);
    BroughtFirst(plan, order, m);
    if Some(a.source) in Delivered(less, d) {
      var i := MeantFrom(less, d, a.source);
      InPlan(plan, order, i);
      SameComing(plan, n, d, order[i], a);
    }
  }

  lemma ComesFrom(plan: seq<Action>, n: nat, d: nat, a: Action)
    requires Once(plan, n, d) && a in plan && Comes(a, d)
    ensures a.source != d && a.source < n && (a.op == ReduceSum ==> OwnTransfer(plan, a))
  {
    var i :| 0 <= i < |plan| && plan[i] == a;
  }

  /** An addition finds its own transfer done. */
  lemma BroughtFirst(plan: seq<Action>, order: seq<Action>, m: nat)
    requires Extends(plan, order) && m < |order| && OwnTransfer(plan, order[m])
    ensures Brought(order, order[m].destination, order[m].source, m)
  {
    var a := order[m];
    var e :| e in a.dependsOn && e < |plan| && Brings(plan[e], a.destination, a.source);
    assert Ready(plan, order, m);
    var q: nat :| q < m && order[..m][q] == plan[e];
    assert order[q] == plan[e];
  }

  /** An untimely order adds some rank's contribution nowhere. */
  lemma {:induction false} LosesOne(plan: seq<Action>, order: seq<Action>, n: nat, d: nat, m: nat) returns (s: nat)
    requires Linear(plan, order) && Once(plan, n, d) && m <= |order| && !Timely(order[..m], d)
    ensures s < n && s != d && Lost(order, d, s, m)
    decreases m
  {
    hide Linear, Once, Lost;
    assert m > 0;
    if Timely(order[..m - 1], d) {
      LostBegins(plan, order, n, d, m - 1);
      s := order[m - 1].source;
    } else {
      s := LosesOne(plan, order, n, d, m - 1);
      LostStays(plan, order, n, d, s, m - 1);
    }
  }

  // Exactly which orders are right

  /** Element `e` is neutral for itself and for `x`, which differs from it. */
  predicate Tells<E(==)>(add: (E, E) -> E, e: E, x: E) {
    x != e && add(e, e) == e && add(e, x) == x && add(x, e) == x
  }

  /** Rank `s` contributes `x` everywhere and every other rank `e`. */
  function Lone<E>(r: Request, s: nat, e: E, x: E): (job: Job<E>)
    requires Reduces(r)
    ensures Serves(job, r) && job.zero == e
    ensures forall i: nat, k: nat :: i < r.ranks && k < r.lengths[i] ==> job.inputs[i][k] == if i == s then x else e
  {
    Job(r, seq(r.ranks, i requires 0 <= i < r.ranks => seq(r.lengths[i], _ => if i == s then x else e)), e)
  }

  /** One contribution of the promised length from every rank. */
  predicate Serves<E>(job: Job<E>, r: Request) {
    job.request == r && |job.inputs| == r.ranks == |r.lengths| &&
    forall s :: 0 <= s < r.ranks ==> |job.inputs[s]| == r.lengths[s]
  }

  lemma LoneGiven<E>(r: Request, s: nat, e: E, x: E, i: nat, k: nat)
    requires Reduces(r) && k < TotalOf(r)
    ensures Given(Lone(r, s, e, x), i, k) == if i == s && s < r.ranks then x else e
  {
    SameLengths(r);
  }

  /** Meant: the lone contribution. */
  lemma {:induction false} LoneMeant<E>(r: Request, add: (E, E) -> E, s: nat, e: E, x: E, d: nat, j: nat, k: nat)
    requires Reduces(r) && Tells(add, e, x) && s < r.ranks && s != d && k < TotalOf(r)
    ensures OwnFirst(Lone(r, s, e, x), add, d, j, k) == if s < j then x else e
    decreases j
  {
    hide Given, Lone, TotalOf, Reduces;
    if j == 0 {
      LoneGiven(r, s, e, x, d, k);
    } else {
      LoneMeant(r, add, s, e, x, d, j - 1, k);
      LoneGiven(r, s, e, x, j - 1, k);
    }
  }

  /** Delivered, when the lone contribution is lost: nothing. */
  lemma {:induction false} LoneLost<E>(r: Request, add: (E, E) -> E, s: nat, e: E, x: E, steps: seq<Action>,
                                       got: seq<Option<nat>>, d: nat, k: nat)
    requires Reduces(r) && Tells(add, e, x) && s != d && k < TotalOf(r)
    requires CopyThenAdds(steps, d) && |got| == |Meant(steps)| && Some(s) !in got
    ensures Folded(Lone(r, s, e, x), add, Cell(e, e), steps, got, k) == e
    decreases |steps|
  {
    hide Given, Lone, TotalOf, Reduces;
    var m := |steps| - 1;
    if m > 0 {
      var g := |got| - 1;
      LoneLost(r, add, s, e, x, steps[..m], got[..g], d, k);
      assert got[g] in got;
      if got[g].Some? {
        LoneGiven(r, s, e, x, got[g].value, k);
      }
    } else {
      LoneGiven(r, s, e, x, d, k);
    }
  }

  /** An untimely order gives a wrong element for a lone contribution. */
  lemma UntimelyReducesWrongly<E>(add: (E, E) -> E, e: E, x: E, r: Request, order: seq<Action>, d: nat, k: nat)
    returns (job: Job<E>)
    requires Tells(add, e, x)
    requires Reduces(r) && Linear(ActionsOf(r), order) && d < r.ranks && Within(RangesOf(r)[d], k) && !Timely(order, d)
    ensures Serves(job, r)
    ensures RunCell(job, add, Cell(job.zero, job.zero), order, d, k).out != OwnFirst(job, add, d, r.ranks, k)
  {
    hide RunCell, Arithmetic, Timely, OwnFirst, Linear, CopyThenAdds, Delivered, Once, ReduceTo, Folded, Lone;
    var n, ranges, plan := r.ranks, RangesOf(r), ActionsOf(r);
    LinearReduction(r, order, d);
    ReduceShape(n, ranges, n, d);
    ReduceOnce(n, ranges, n, d);
    assert order[..|order|] == order;
    var s := LosesOne(plan, order, n, d, |order|);
    job := Lone(r, s, e, x);
    RangeInside(r, d, k);
    UniformWithin(plan, order, d, ranges[d], k);
    RunIsFolded(job, add, Cell(e, e), order, d, k);
    LoneLost(r, add, s, e, x, Arithmetic(order, d), Delivered(order, d), d, k);
    LoneMeant(r, add, s, e, x, d, n, k);
  }

  lemma RangeInside(r: Request, d: nat, k: nat)
    requires Reduces(r) && d < r.ranks && Within(RangesOf(r)[d], k)
    ensures k < TotalOf(r)
  {
    ChunksCover(TotalOf(r), r.ranks);
  }

  /** Executing the order gives the element its own-first sum, whatever the ranks contribute. */
  ghost predicate AlwaysRight<E(!new)>(add: (E, E) -> E, r: Request, order: seq<Action>, d: nat, k: nat) {
    forall job: Job<E> :: Serves(job, r) ==>
      RunCell(job, add, Cell(job.zero, job.zero), order, d, k).out == OwnFirst(job, add, d, r.ranks, k)
  }

  /**
   * A linear order of a reduction is right for all contributions exactly when it is timely, under any addition
   * that has an element neutral for itself and for some other element.
   */
  lemma RightExactlyWhenTimely<E(!new)>(add: (E, E) -> E, e: E, x: E, r: Request, order: seq<Action>, d: nat, k: nat)
    requires Tells(add, e, x)
    requires Reduces(r) && Linear(ActionsOf(r), order) && d < r.ranks && Within(RangesOf(r)[d], k)
    ensures AlwaysRight(add, r, order, d, k) <==> Timely(order, d)
  {
    hide RunCell, OwnFirst, Linear, Timely, Tells;
    if Timely(order, d) {
      forall job: Job<E> | Serves(job, r)
        ensures RunCell(job, add, Cell(job.zero, job.zero), order, d, k).out == OwnFirst(job, add, d, r.ranks, k)
      {
        TimelyReduces(job, add, Cell(job.zero, job.zero), r, order, d, k);
      }
    } else {
      var job := UntimelyReducesWrongly(add, e, x, r, order, d, k);
    }
  }

  /** The order condition for the sum of integers. */
  lemma SumRightExactlyWhenTimely(r: Request, order: seq<Action>, d: nat, k: nat)
    requires Reduces(r) && Linear(ActionsOf(r), order) && d < r.ranks && Within(RangesOf(r)[d], k)
    ensures AlwaysRight((a: int, b: int) => a + b, r, order, d, k) <==> Timely(order, d)
  {
    RightExactlyWhenTimely((a: int, b: int) => a + b, 0, 1, r, order, d, k);
  }
}
